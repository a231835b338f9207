// The allocator object: pools and role assignments filled in step by step.
module CpuAlloc {
  import opened Text
  import opened Seqs
  import opened Ints
  import opened CpuSlices
  import opened CpuPools

  // ---------- Dictionaries in insertion order ----------

  // d[npu] = cpus: replaces in place, or appends.
  function Enter(d: Pools, npu: int, cpus: seq<int>): Pools {
    var i := KeyIndex(d, npu);
    if i >= 0 then d[i := (npu, cpus)] else d + [(npu, cpus)]
  }

  lemma EnterNew(d: Pools, npu: int, cpus: seq<int>)
    requires forall k :: 0 <= k < |d| ==> d[k].0 != npu
    ensures Enter(d, npu, cpus) == d + [(npu, cpus)]
  {
  }

  // The pairs (npus[i], pools[i]).
  function Zip(npus: seq<int>, pools: seq<seq<int>>): Pools
    requires |npus| == |pools|
  {
    seq(|npus|, i requires 0 <= i < |npus| => (npus[i], pools[i]))
  }

  // ---------- lscpu rows ----------

  // One (cpu, node) row: the CPU's node, and the CPU appended to the node's list.
  function AddRow(numa: Numa, row: (int, int)): Numa {
    var cpus := if row.1 in numa.nodeCpus then numa.nodeCpus[row.1] else [];
    Numa(numa.cpuNode[row.0 := row.1], numa.nodeCpus[row.1 := cpus + [row.0]])
  }

  function NumaOf(rows: seq<(int, int)>): Numa {
    if rows == [] then Numa(map[], map[]) else AddRow(NumaOf(rows[..|rows| - 1]), rows[|rows| - 1])
  }

  // The CPUs of a node's rows, in order.
  function CpusOn(rows: seq<(int, int)>, node: int): seq<int> {
    if rows == [] then []
    else
      var before, last := CpusOn(rows[..|rows| - 1], node), rows[|rows| - 1];
      if last.1 == node then before + [last.0] else before
  }

  // A CPU's node is that of its last row; a node has the CPUs of its rows in order, and is known exactly
  // if it has a row.
  lemma {:induction false} NumaHas(rows: seq<(int, int)>, cpu: int, node: int)
    ensures cpu in NumaOf(rows).cpuNode <==> exists i :: 0 <= i < |rows| && rows[i].0 == cpu
    ensures forall i :: 0 <= i < |rows| && rows[i].0 == cpu && (forall j :: i < j < |rows| ==> rows[j].0 != cpu) ==>
              NumaOf(rows).cpuNode[cpu] == rows[i].1
    ensures node in NumaOf(rows).nodeCpus <==> exists i :: 0 <= i < |rows| && rows[i].1 == node
    ensures node in NumaOf(rows).nodeCpus ==> NumaOf(rows).nodeCpus[node] == CpusOn(rows, node)
    ensures node !in NumaOf(rows).nodeCpus ==> CpusOn(rows, node) == []
  {
    if rows == [] {
    } else {
      NumaHas(rows[..|rows| - 1], cpu, node);
      var last := |rows| - 1;
      assert rows == rows[..last] + [rows[last]];
      assert rows[last].0 == cpu || rows[last].0 != cpu;
    }
  }

  datatype Mode = TopoAffinity | GlobalSlices

  // The pools a fresh allocator ends up with.
  function PoolsOf(info: DeviceInfo, mode: Mode, rows: seq<(int, int)>): Result<Pools, string> {
    if rows == [] then Err("no NUMA node available")
    else if mode == GlobalSlices || info.affinity == map[] then GlobalPools(info)
    else TopoPools(info, NumaOf(rows))
  }

  // ---------- Groups of NPUs with the same pool ----------

  // Pool to the NPUs that have it, in insertion order.
  type Groups = seq<(seq<int>, seq<int>)>

  // groups[str(cpus)].append(npu), keyed by the list itself.
  function AppendTo(g: Groups, pool: seq<int>, npu: int): Groups {
    var i := KeyIndex(g, pool);
    if i >= 0 then g[i := (pool, g[i].1 + [npu])] else g + [(pool, [npu])]
  }

  function Grouped(d: Pools): Groups {
    if d == [] then [] else AppendTo(Grouped(d[..|d| - 1]), d[|d| - 1].1, d[|d| - 1].0)
  }

  // The NPUs of d that have this pool.
  ghost function Members(d: Pools, pool: seq<int>): seq<int> {
    if d == [] then []
    else Members(d[..|d| - 1], pool) + (if d[|d| - 1].1 == pool then [d[|d| - 1].0] else [])
  }

  ghost function SecondsOf(d: Pools): seq<seq<int>> {
    seq(|d|, i requires 0 <= i < |d| => d[i].1)
  }

  // Every group lists the members of its pool, no pool has two groups, and every pool has one.
  ghost predicate GroupsOk(g: Groups, d: Pools) {
    && (forall k :: 0 <= k < |g| ==> g[k].1 == Members(d, g[k].0) && g[k].1 != [])
    && (forall k, l :: 0 <= k < l < |g| ==> g[k].0 != g[l].0)
    && (forall i :: 0 <= i < |d| ==> KeyIndex(g, d[i].1) >= 0)
  }

  lemma {:induction false} GroupIndexOf(g: Groups, k: nat)
    requires k < |g| && forall i, j :: 0 <= i < j < |g| ==> g[i].0 != g[j].0
    ensures KeyIndex(g, g[k].0) == k
  {
    if k == |g| - 1 {
    } else {
      GroupIndexOf(g[..|g| - 1], k);
    }
  }

  lemma {:induction false} NoMembers(d: Pools, pool: seq<int>)
    requires forall i :: 0 <= i < |d| ==> d[i].1 != pool
    ensures Members(d, pool) == []
  {
    if d == [] {
    } else {
      NoMembers(d[..|d| - 1], pool);
    }
  }

  lemma {:induction false} GroupedOk(d: Pools)
    ensures GroupsOk(Grouped(d), d)
  {
    if d == [] {
    } else {
      var init, npu, pool := d[..|d| - 1], d[|d| - 1].0, d[|d| - 1].1;
      var g := Grouped(init);
      GroupedOk(init);
      GroupedStep(g, init, npu, pool);
      assert d == init + [(npu, pool)];
    }
  }

  lemma GroupedStep(g: Groups, d: Pools, npu: int, pool: seq<int>)
    requires GroupsOk(g, d)
    ensures GroupsOk(AppendTo(g, pool, npu), d + [(npu, pool)])
  {
    if KeyIndex(g, pool) >= 0 {
      OldGroup(g, d, npu, pool);
    } else {
      NewGroup(g, d, npu, pool);
    }
  }

  lemma MembersStep(d: Pools, npu: int, pool: seq<int>, other: seq<int>)
    ensures Members(d + [(npu, pool)], other) == Members(d, other) + (if pool == other then [npu] else [])
  {
    assert (d + [(npu, pool)])[..|d|] == d;
  }

  lemma OldGroup(g: Groups, d: Pools, npu: int, pool: seq<int>)
    requires GroupsOk(g, d) && KeyIndex(g, pool) >= 0
    ensures GroupsOk(AppendTo(g, pool, npu), d + [(npu, pool)])
  {
    var at := KeyIndex(g, pool);
    var d', g' := d + [(npu, pool)], g[at := (pool, g[at].1 + [npu])];
    forall k | 0 <= k < |g'|
      ensures g'[k].0 == g[k].0 && g'[k].1 == Members(d', g'[k].0) && g'[k].1 != []
    {
      MembersStep(d, npu, pool, g[k].0);
    }
    forall i | 0 <= i < |d'|
      ensures KeyIndex(g', d'[i].1) >= 0
    {
      HasGroup(g', d'[i].1, if i < |d| then KeyIndex(g, d[i].1) else at);
    }
  }

  lemma NewPoolIsNew(g: Groups, d: Pools, pool: seq<int>)
    requires GroupsOk(g, d) && KeyIndex(g, pool) < 0
    ensures Members(d, pool) == []
  {
    forall i | 0 <= i < |d|
      ensures d[i].1 != pool
    {
      assert KeyIndex(g, d[i].1) >= 0;
    }
    NoMembers(d, pool);
  }

  lemma NewGroupMembers(g: Groups, d: Pools, npu: int, pool: seq<int>, k: nat)
    requires GroupsOk(g, d) && KeyIndex(g, pool) < 0 && k <= |g|
    ensures var g' := g + [(pool, [npu])];
            g'[k].1 == Members(d + [(npu, pool)], g'[k].0) && g'[k].1 != [] && (k < |g| ==> g'[k].0 != pool)
  {
    NewPoolIsNew(g, d, pool);
    MembersStep(d, npu, pool, if k < |g| then g[k].0 else pool);
  }

  lemma NewGroupFinds(g: Groups, d: Pools, npu: int, pool: seq<int>, i: nat)
    requires GroupsOk(g, d) && i <= |d|
    ensures KeyIndex(g + [(pool, [npu])], (d + [(npu, pool)])[i].1) >= 0
  {
    HasGroup(g + [(pool, [npu])], (d + [(npu, pool)])[i].1, if i < |d| then KeyIndex(g, d[i].1) else |g|);
  }

  lemma NewGroup(g: Groups, d: Pools, npu: int, pool: seq<int>)
    requires GroupsOk(g, d) && KeyIndex(g, pool) < 0
    ensures GroupsOk(AppendTo(g, pool, npu), d + [(npu, pool)])
  {
    var d', g' := d + [(npu, pool)], g + [(pool, [npu])];
    assert AppendTo(g, pool, npu) == g';
    forall k | 0 <= k < |g'|
      ensures g'[k].1 == Members(d', g'[k].0) && g'[k].1 != [] && (k < |g| ==> g'[k].0 != pool)
    {
      NewGroupMembers(g, d, npu, pool, k);
    }
    forall i | 0 <= i < |d'|
      ensures KeyIndex(g', d'[i].1) >= 0
    {
      NewGroupFinds(g, d, npu, pool, i);
    }
  }

  lemma HasGroup(g: Groups, pool: seq<int>, k: int)
    requires 0 <= k < |g| && g[k].0 == pool
    ensures KeyIndex(g, pool) >= 0
  {
  }

  lemma {:induction false} MembersAre(d: Pools, i: nat)
    requires i < |d|
    ensures Count(SecondsOf(d)[..i], d[i].1) < |Members(d, d[i].1)| == Count(SecondsOf(d), d[i].1)
    ensures Members(d, d[i].1)[Count(SecondsOf(d)[..i], d[i].1)] == d[i].0
  {
    MembersCount(d, d[i].1);
    RankBelow(SecondsOf(d), i);
    if i < |d| - 1 {
      MembersAre(d[..|d| - 1], i);
      assert SecondsOf(d[..|d| - 1])[..i] == SecondsOf(d)[..i];
    } else {
      MembersCount(d[..|d| - 1], d[i].1);
      assert SecondsOf(d[..|d| - 1]) == SecondsOf(d)[..i];
    }
  }

  lemma {:induction false} MembersCount(d: Pools, pool: seq<int>)
    ensures |Members(d, pool)| == Count(SecondsOf(d), pool)
  {
    if d == [] {
    } else {
      MembersCount(d[..|d| - 1], pool);
      assert SecondsOf(d)[..|d| - 1] == SecondsOf(d[..|d| - 1]);
    }
  }

  // ---------- Final pools ----------

  // result[npu] = part, one after the other.
  function Entered(npuList: seq<int>, parts: seq<seq<int>>, k: nat): Pools
    requires k <= |npuList| == |parts|
  {
    if k == 0 then [] else Enter(Entered(npuList, parts, k - 1), npuList[k - 1], parts[k - 1])
  }

  function CpusOf(d: Pools, npu: int): seq<int> {
    var i := KeyIndex(d, npu);
    if i >= 0 then d[i].1 else []
  }

  // final.update(extra)
  function Updated(final: Pools, extra: Pools): Pools {
    if extra == [] then final
    else Enter(Updated(final, extra[..|extra| - 1]), extra[|extra| - 1].0, extra[|extra| - 1].1)
  }

  // A lone NPU keeps its pool; several split it.
  function GroupShares(d: Pools, npuList: seq<int>): Pools {
    if npuList == [] then []
    else if |npuList| == 1 then [(npuList[0], CpusOf(d, npuList[0]))]
    else Entered(npuList, Shares(Sorted(CpusOf(d, npuList[0])), |npuList|), |npuList|)
  }

  function AllShares(d: Pools, groups: Groups): (r: seq<Pools>)
    ensures |r| == |groups| && forall k :: 0 <= k < |groups| ==> r[k] == GroupShares(d, groups[k].1)
  {
    seq(|groups|, k requires 0 <= k < |groups| => GroupShares(d, groups[k].1))
  }

  function UpdatedAll(extras: seq<Pools>): Pools {
    if extras == [] then [] else Updated(UpdatedAll(extras[..|extras| - 1]), extras[|extras| - 1])
  }

  function Distributed(d: Pools, groups: Groups): Pools {
    UpdatedAll(AllShares(d, groups))
  }

  ghost predicate DistinctNpus(d: Pools) {
    forall i, j :: 0 <= i < j < |d| ==> d[i].0 != d[j].0
  }

  lemma CpusAt(d: Pools, i: nat)
    requires DistinctNpus(d) && i < |d|
    ensures KeyIndex(d, d[i].0) == i && CpusOf(d, d[i].0) == d[i].1
  {
  }

  lemma {:induction false} SameKeys(d: Pools, e: Pools, npu: int)
    requires |d| == |e| && forall k :: 0 <= k < |d| ==> d[k].0 == e[k].0
    ensures KeyIndex(d, npu) == KeyIndex(e, npu)
  {
    if d == [] {
    } else {
      SameKeys(d[..|d| - 1], e[..|d| - 1], npu);
    }
  }

  lemma CpusOfAppend(d: Pools, npu: int, cpus: seq<int>, other: int)
    ensures var e := d + [(npu, cpus)];
            && KeyIndex(e, other) == (if other == npu then |d| else KeyIndex(d, other))
            && CpusOf(e, other) == if other == npu then cpus else CpusOf(d, other)
  {
    assert (d + [(npu, cpus)])[..|d|] == d;
  }

  lemma CpusOfEnter(d: Pools, npu: int, cpus: seq<int>, other: int)
    ensures KeyIndex(Enter(d, npu, cpus), other) >= 0 <==> other == npu || KeyIndex(d, other) >= 0
    ensures CpusOf(Enter(d, npu, cpus), other) == if other == npu then cpus else CpusOf(d, other)
  {
    if KeyIndex(d, npu) >= 0 {
      SameKeys(d, Enter(d, npu, cpus), other);
    } else {
      CpusOfAppend(d, npu, cpus, other);
    }
  }

  lemma {:induction false} CpusOfUpdated(final: Pools, extra: Pools, npu: int)
    ensures KeyIndex(Updated(final, extra), npu) >= 0 <==> KeyIndex(extra, npu) >= 0 || KeyIndex(final, npu) >= 0
    ensures CpusOf(Updated(final, extra), npu) == CpusOf(if KeyIndex(extra, npu) >= 0 then extra else final, npu)
  {
    if extra == [] {
    } else {
      var init, e := extra[..|extra| - 1], extra[|extra| - 1];
      CpusOfUpdated(final, init, npu);
      CpusOfEnter(Updated(final, init), e.0, e.1, npu);
      CpusOfAppend(init, e.0, e.1, npu);
      assert extra == init + [e];
    }
  }

  lemma EnteredNext(npuList: seq<int>, parts: seq<seq<int>>, k: nat)
    requires Distinct(npuList) && k < |npuList| == |parts|
    ensures Enter(Zip(npuList[..k], parts[..k]), npuList[k], parts[k]) == Zip(npuList[..k + 1], parts[..k + 1])
  {
    ZipStep(npuList, parts[..k], k, parts[k]);
    assert parts[..k + 1] == parts[..k] + [parts[k]];
  }

  lemma {:induction false} EnteredAre(npuList: seq<int>, parts: seq<seq<int>>, k: nat)
    requires Distinct(npuList) && k <= |npuList| == |parts|
    ensures Entered(npuList, parts, k) == Zip(npuList[..k], parts[..k])
  {
    if k == 0 {
    } else {
      EnteredAre(npuList, parts, k - 1);
      EnteredNext(npuList, parts, k - 1);
    }
  }

  lemma UpdatedLast(extras: seq<Pools>, npu: int)
    requires extras != []
    ensures var init, last := UpdatedAll(extras[..|extras| - 1]), extras[|extras| - 1];
            && (KeyIndex(UpdatedAll(extras), npu) >= 0 <==> KeyIndex(last, npu) >= 0 || KeyIndex(init, npu) >= 0)
            && CpusOf(UpdatedAll(extras), npu) == CpusOf(if KeyIndex(last, npu) >= 0 then last else init, npu)
  {
    CpusOfUpdated(UpdatedAll(extras[..|extras| - 1]), extras[|extras| - 1], npu);
  }

  // An NPU with an entry in just one of the updates ends up with that entry.
  lemma {:induction false} UpdatedAllAt(extras: seq<Pools>, at: int, npu: int)
    requires forall k :: 0 <= k < |extras| ==> (KeyIndex(extras[k], npu) >= 0 <==> k == at)
    ensures KeyIndex(UpdatedAll(extras), npu) >= 0 <==> 0 <= at < |extras|
    ensures 0 <= at < |extras| ==> CpusOf(UpdatedAll(extras), npu) == CpusOf(extras[at], npu)
  {
    if extras == [] {
    } else {
      UpdatedAllAt(extras[..|extras| - 1], at, npu);
      UpdatedLast(extras, npu);
    }
  }

  // Member r of a group is an NPU of d with that pool.
  lemma {:induction false} MemberFrom(d: Pools, pool: seq<int>, r: nat) returns (i: nat)
    requires r < |Members(d, pool)|
    ensures i < |d| && d[i] == (Members(d, pool)[r], pool)
  {
    var init := d[..|d| - 1];
    if r < |Members(init, pool)| {
      i := MemberFrom(init, pool, r);
    } else {
      i := |d| - 1;
    }
  }

  lemma {:induction false} MembersDistinct(d: Pools, pool: seq<int>)
    requires DistinctNpus(d)
    ensures Distinct(Members(d, pool))
  {
    if d == [] {
    } else {
      var init := d[..|d| - 1];
      MembersDistinct(init, pool);
      forall r | 0 <= r < |Members(init, pool)|
        ensures Members(init, pool)[r] != d[|d| - 1].0
      {
        var i := MemberFrom(init, pool, r);
      }
    }
  }

  lemma SharesOfMany(d: Pools, list: seq<int>)
    requires Distinct(list) && |list| >= 2
    ensures |Shares(Sorted(CpusOf(d, list[0])), |list|)| == |list|
    ensures GroupShares(d, list) == Zip(list, Shares(Sorted(CpusOf(d, list[0])), |list|))
  {
    var parts := Shares(Sorted(CpusOf(d, list[0])), |list|);
    EnteredAre(list, parts, |list|);
    assert list[..|list|] == list && parts[..|list|] == parts;
  }

  lemma GroupSharesAre(d: Pools, list: seq<int>)
    requires Distinct(list)
    ensures |GroupShares(d, list)| == |list| && DistinctNpus(GroupShares(d, list))
    ensures forall r :: 0 <= r < |list| ==> GroupShares(d, list)[r].0 == list[r]
    ensures |list| == 1 ==> GroupShares(d, list)[0].1 == CpusOf(d, list[0])
    ensures |list| >= 2 ==> forall r :: 0 <= r < |list| ==>
              GroupShares(d, list)[r].1 == Share(Sorted(CpusOf(d, list[0])), |list|, r)
  {
    if |list| >= 2 {
      SharesOfMany(d, list);
    }
  }

  // Only the members of a pool have an entry in its group's shares.
  lemma GroupSharesOnly(d: Pools, pool: seq<int>, npu: int)
    requires DistinctNpus(d) && (KeyIndex(d, npu) >= 0 ==> CpusOf(d, npu) != pool)
    ensures KeyIndex(GroupShares(d, Members(d, pool)), npu) < 0
  {
    var list := Members(d, pool);
    MembersDistinct(d, pool);
    GroupSharesAre(d, list);
    forall r | 0 <= r < |list|
      ensures list[r] != npu
    {
      var j := MemberFrom(d, pool, r);
      CpusAt(d, j);
    }
  }

  // Each member's entry is its final pool.
  lemma GroupSharesFinal(d: Pools, i: nat)
    requires DistinctNpus(d) && i < |d|
    ensures KeyIndex(GroupShares(d, Members(d, d[i].1)), d[i].0) >= 0
    ensures CpusOf(GroupShares(d, Members(d, d[i].1)), d[i].0) == FinalPool(SecondsOf(d), i)
  {
    var pool := d[i].1;
    var list := Members(d, pool);
    MembersDistinct(d, pool);
    MembersAre(d, i);
    var first := MemberFrom(d, pool, 0);
    CpusAt(d, first);
    GroupSharesAre(d, list);
    CpusAt(GroupShares(d, list), Count(SecondsOf(d)[..i], pool));
  }

  lemma GroupEntry(d: Pools, groups: Groups, k: nat, npu: int)
    requires DistinctNpus(d) && GroupsOk(groups, d) && k < |groups|
    ensures KeyIndex(GroupShares(d, groups[k].1), npu) >= 0 <==>
            KeyIndex(d, npu) >= 0 && KeyIndex(groups, CpusOf(d, npu)) == k
  {
    MembersDistinct(d, groups[k].0);
    GroupSharesAre(d, groups[k].1);
    GroupIndexOf(groups, k);
    if KeyIndex(d, npu) >= 0 && CpusOf(d, npu) == groups[k].0 {
      GroupSharesFinal(d, KeyIndex(d, npu));
    } else {
      GroupSharesOnly(d, groups[k].0, npu);
    }
  }

  lemma DistributedHas(d: Pools, groups: Groups, npu: int)
    requires DistinctNpus(d) && GroupsOk(groups, d)
    ensures KeyIndex(Distributed(d, groups), npu) >= 0 <==> KeyIndex(d, npu) >= 0
    ensures KeyIndex(d, npu) >= 0 ==>
              CpusOf(Distributed(d, groups), npu) == CpusOf(GroupShares(d, Members(d, CpusOf(d, npu))), npu)
  {
    var i := KeyIndex(d, npu);
    var at := if i >= 0 then KeyIndex(groups, d[i].1) else -1;
    var extras := AllShares(d, groups);
    forall k | 0 <= k < |extras|
      ensures KeyIndex(extras[k], npu) >= 0 <==> k == at
    {
      GroupEntry(d, groups, k, npu);
    }
    UpdatedAllAt(extras, at, npu);
  }

  // The distributed pools have, for every NPU, what the specification gives it.
  ghost predicate Keeps(final: Pools, npus: seq<int>, pools: seq<seq<int>>, npu: int)
    requires |npus| == |pools|
  {
    && (KeyIndex(final, npu) >= 0 <==> npu in npus)
    && (npu in npus ==> CpusOf(final, npu) == FinalPool(pools, IndexOf(npus, npu)))
  }

  lemma ZipHas(npus: seq<int>, pools: seq<seq<int>>, npu: int)
    requires |npus| == |pools| && Distinct(npus)
    ensures DistinctNpus(Zip(npus, pools)) && SecondsOf(Zip(npus, pools)) == pools
    ensures KeyIndex(Zip(npus, pools), npu) >= 0 <==> npu in npus
  {
    var d := Zip(npus, pools);
    if npu in npus {
      CpusAt(d, IndexOf(npus, npu));
    }
  }

  lemma KeptPool(d: Pools, final: Pools, npus: seq<int>, pools: seq<seq<int>>, npu: int)
    requires |npus| == |pools| && Distinct(npus) && d == Zip(npus, pools) && final == Distributed(d, Grouped(d))
    ensures Keeps(final, npus, pools, npu)
  {
    ZipHas(npus, pools, npu);
    GroupedOk(d);
    DistributedHas(d, Grouped(d), npu);
    if npu in npus {
      var k := IndexOf(npus, npu);
      CpusAt(d, k);
      GroupSharesFinal(d, k);
    }
  }

  // What a run that fails leaves in the pool table.
  ghost function TopoEntered(info: DeviceInfo, numa: Numa): Pools {
    var npus := Candidates(info, |info.allLogic|);
    var e := Extended(info, numa, npus);
    Zip(npus[..|e.0|], e.0)
  }

  ghost function EnteredBefore(info: DeviceInfo, mode: Mode, rows: seq<(int, int)>): Pools {
    if rows == [] then []
    else if mode == GlobalSlices || info.affinity == map[] then GlobalEntered(info)
    else TopoEntered(info, NumaOf(rows))
  }

  // The NUMA maps after a run: looking up a missing node may have added it.
  ghost function NumaAfter(info: DeviceInfo, mode: Mode, rows: seq<(int, int)>): Numa {
    if rows == [] || mode == GlobalSlices || info.affinity == map[] then NumaOf(rows)
    else Extended(info, NumaOf(rows), Candidates(info, |info.allLogic|)).1
  }

  // ---------- Lemmas for the loops below ----------

  lemma ExtendedStep(info: DeviceInfo, numa: Numa, npus: seq<int>, i: nat)
    requires i < |npus| && |Extended(info, numa, npus[..i]).0| == i
    ensures var before := Extended(info, numa, npus[..i]);
            Extended(info, numa, npus[..i + 1]) ==
              match ExtendOne(before.1, info, npus[i])
              case Ok(e) => (before.0 + [e.0], e.1)
              case Err(_) => before
  {
    assert npus[..i + 1][..i] == npus[..i];
  }

  // After a failure nothing more is entered, and the failure is the result.
  lemma {:induction false} ExtendedStops(info: DeviceInfo, numa: Numa, npus: seq<int>, i: nat)
    requires i <= |npus| && |Extended(info, numa, npus[..i]).0| < i && ExtendAll(info, numa, npus[..i]).Err?
    ensures Extended(info, numa, npus) == Extended(info, numa, npus[..i])
    ensures ExtendAll(info, numa, npus) == ExtendAll(info, numa, npus[..i])
  {
    if i == |npus| {
      assert npus[..i] == npus;
    } else {
      var init := npus[..|npus| - 1];
      assert init[..i] == npus[..i];
      ExtendedStops(info, numa, init, i);
    }
  }

  lemma ExtendAllStep(info: DeviceInfo, numa: Numa, npus: seq<int>, i: nat, m: string)
    requires i < |npus| && ExtendAll(info, numa, npus[..i]).Ok?
    requires ExtendOne(ExtendAll(info, numa, npus[..i]).value.1, info, npus[i]) == Err(m)
    ensures ExtendAll(info, numa, npus[..i + 1]) == Err(m)
  {
    assert npus[..i + 1][..i] == npus[..i];
  }

  lemma ExtendAllFails(info: DeviceInfo, numa: Numa, npus: seq<int>, i: nat, m: string)
    requires i < |npus| && |Extended(info, numa, npus[..i]).0| == i
    requires ExtendOne(Extended(info, numa, npus[..i]).1, info, npus[i]) == Err(m)
    ensures ExtendAll(info, numa, npus) == Err(m) && Extended(info, numa, npus) == Extended(info, numa, npus[..i])
  {
    ExtendedStep(info, numa, npus, i);
    ExtendedIsAll(info, numa, npus[..i]);
    ExtendAllStep(info, numa, npus, i, m);
    ExtendedStops(info, numa, npus, i + 1);
  }

  lemma ZipStep(npus: seq<int>, pools: seq<seq<int>>, i: nat, cpus: seq<int>)
    requires i < |npus| && |pools| == i && Distinct(npus)
    ensures Enter(Zip(npus[..i], pools), npus[i], cpus) == Zip(npus[..i + 1], pools + [cpus])
  {
    var d := Zip(npus[..i], pools);
    assert forall k :: 0 <= k < i ==> d[k].0 == npus[k];
    EnterNew(d, npus[i], cpus);
  }

  lemma ValidIdsAre(npus: seq<int>, total: nat, i: nat)
    requires i <= |npus| && InRange(npus[..i], total) && (i < |npus| ==> !(0 <= npus[i] < total))
    ensures ValidIds(npus, total) == i
  {
  }

  lemma SlicesStep(cpus: seq<int>, total: nat, npus: seq<int>, i: nat)
    requires i < |npus| && Distinct(npus) && InRange(npus[..i], total) && 0 <= npus[i] < total
    ensures InRange(npus[..i + 1], total)
    ensures Enter(SlicesOf(cpus, total, npus[..i]), npus[i], GlobalSlice(cpus, total, npus[i])) ==
            SlicesOf(cpus, total, npus[..i + 1])
  {
    var d := SlicesOf(cpus, total, npus[..i]);
    assert forall k :: 0 <= k < i ==> d[k].0 == npus[k];
    EnterNew(d, npus[i], GlobalSlice(cpus, total, npus[i]));
  }

  // ---------- Roles ----------

  // Every pool has room for all roles.
  ghost predicate LongEnough(d: Pools) {
    forall i :: 0 <= i < |d| ==> |d[i].1| >= MIN_CPUS_PER_NPU
  }

  // How many pools come before the first one that is too short.
  ghost function LongPools(d: Pools): (k: nat)
    ensures k <= |d| && LongEnough(d[..k])
    ensures k < |d| ==> |d[k].1| < MIN_CPUS_PER_NPU
  {
    if d == [] then 0
    else
      var k := LongPools(d[..|d| - 1]);
      assert d[..|d| - 1][..k] == d[..k];
      if k == |d| - 1 && |d[k].1| >= MIN_CPUS_PER_NPU then |d| else k
  }

  lemma LongPoolsAre(d: Pools, i: nat)
    requires i <= |d| && LongEnough(d[..i]) && (i < |d| ==> |d[i].1| < MIN_CPUS_PER_NPU)
    ensures LongPools(d) == i
  {
  }

  // The CPUs of one role, NPU by NPU.
  ghost function RolePools(d: Pools, role: Role): Pools
    requires LongEnough(d)
  {
    seq(|d|, i requires 0 <= i < |d| => (d[i].0, RoleCpus(d[i].1, role)))
  }

  lemma RoleStep(d: Pools, i: nat, role: Role)
    requires DistinctNpus(d) && i < |d| && LongEnough(d[..i]) && |d[i].1| >= MIN_CPUS_PER_NPU
    ensures LongEnough(d[..i + 1])
    ensures Enter(RolePools(d[..i], role), d[i].0, RoleCpus(d[i].1, role)) == RolePools(d[..i + 1], role)
  {
    var e, entry := RolePools(d[..i], role), (d[i].0, RoleCpus(d[i].1, role));
    assert forall k :: 0 <= k < i ==> e[k].0 == d[k].0;
    EnterNew(e, entry.0, entry.1);
    assert d[..i + 1] == d[..i] + [d[i]];
    RolePoolsLast(d[..i], d[i], role);
  }

  lemma RolePoolsLast(d: Pools, p: (int, seq<int>), role: Role)
    requires LongEnough(d) && |p.1| >= MIN_CPUS_PER_NPU
    ensures LongEnough(d + [p]) && RolePools(d + [p], role) == RolePools(d, role) + [(p.0, RoleCpus(p.1, role))]
  {
  }

  class CpuAlloc {
    const info: DeviceInfo
    var numa: Numa
    var npuCpuPool: Pools
    var assignMain: Pools
    var assignAcl: Pools
    var assignRel: Pools

    constructor (info: DeviceInfo)
      ensures this.info == info && numa == Numa(map[], map[])
      ensures npuCpuPool == assignMain == assignAcl == assignRel == []
    {
      this.info := info;
      numa := Numa(map[], map[]);
      npuCpuPool, assignMain, assignAcl, assignRel := [], [], [], [];
    }

    method BuildCpuNodeMap(rows: seq<(int, int)>) returns (ok: bool)
      requires numa == Numa(map[], map[])
      modifies this`numa
      ensures numa == NumaOf(rows)
      ensures ok <==> rows != []
    {
      for i := 0 to |rows|
        invariant numa == NumaOf(rows[..i])
        invariant i > 0 ==> rows[i - 1].1 in numa.nodeCpus
      {
        assert rows[..i + 1][..i] == rows[..i];
        numa := AddRow(numa, rows[i]);
      }
      assert rows[..|rows|] == rows;
      ok := |numa.nodeCpus| != 0;
    }

    // ---------- Global slices ----------

    method BuildGlobalSliceCpuPool() returns (r: Result<(), string>)
      requires npuCpuPool == [] && Distinct(info.running)
      modifies this`npuCpuPool
      ensures r.Ok? <==> GlobalPools(info).Ok?
      ensures r.Ok? ==> npuCpuPool == GlobalPools(info).value
      ensures r.Err? ==> r.error == GlobalPools(info).error
      ensures npuCpuPool == GlobalEntered(info)
    {
      if info.running == [] {
        return Ok(());
      }
      var allowed := SortedSet(info.allowed);
      if allowed == [] {
        return Ok(());
      }
      var total := GlobalTotal(info);
      if |allowed| / total < MIN_CPUS_PER_NPU {
        return Err("insufficient CPUs");
      }
      for i := 0 to |info.running|
        invariant InRange(info.running[..i], total)
        invariant npuCpuPool == SlicesOf(allowed, total, info.running[..i])
      {
        var npu := info.running[i];
        if npu < 0 || npu >= total {
          ValidIdsAre(info.running, total, i);
          return Err("invalid NPU id");
        }
        SlicesStep(allowed, total, info.running, i);
        npuCpuPool := Enter(npuCpuPool, npu, GlobalSlice(allowed, total, npu));
      }
      assert info.running[..|info.running|] == info.running;
      ValidIdsAre(info.running, total, |info.running|);
      return Ok(());
    }

    // ---------- Topology affinity ----------

    method ExtendNuma(cpus: seq<int>) returns (r: Result<seq<int>, string>)
      modifies this`numa
      ensures match Extend(old(numa), info.allowed, cpus)
              case Ok(e) => r == Ok(e.0) && numa == e.1
              case Err(m) => r == Err(m) && numa == old(numa)
    {
      if cpus == [] {
        return Ok([]);
      }
      if exists i :: 0 <= i < |cpus| && cpus[i] !in numa.cpuNode {
        return Err("KeyError");
      }
      if exists i :: 0 <= i < |cpus| && numa.cpuNode[cpus[i]] != numa.cpuNode[cpus[0]] {
        return Ok(cpus);
      }
      if |numa.nodeCpus| == 0 {
        return Err("ZeroDivisionError");
      }
      var next := (numa.cpuNode[cpus[0]] + 1) % |numa.nodeCpus|;
      if next !in numa.nodeCpus {
        numa := numa.(nodeCpus := numa.nodeCpus[next := []]);
      }
      var extended := AppendAllowed(cpus, numa.nodeCpus[next]);
      return Ok(SortedSet(extended));
    }

    method AppendAllowed(cpus: seq<int>, more: seq<int>) returns (extended: seq<int>)
      ensures extended == cpus + Filter(more, Elements(info.allowed))
    {
      extended := cpus;
      for i := 0 to |more|
        invariant extended == cpus + Filter(more[..i], Elements(info.allowed))
      {
        assert more[..i + 1][..i] == more[..i];
        if more[i] in info.allowed {
          extended := extended + [more[i]];
        }
      }
      assert more[..|more|] == more;
    }

    // One candidate's extended pool, from its affinity within the cpuset.
    method ExtendCandidate(npu: int) returns (r: Result<seq<int>, string>)
      modifies this`numa
      ensures match ExtendOne(old(numa), info, npu)
              case Ok(e) => r == Ok(e.0) && numa == e.1
              case Err(m) => r == Err(m) && numa == old(numa)
    {
      var cpus := BaseCpus(info, npu);
      if cpus == [] {
        return Err("cpuset conflicts with NUMA affinity");
      }
      r := ExtendNuma(cpus);
    }

    // The extended pools of the candidates, entered in candidate order up to the first failure.
    method ExtendCandidates(npus: seq<int>) returns (r: Result<(), string>)
      requires npuCpuPool == [] && Distinct(npus)
      modifies this`numa, this`npuCpuPool
      ensures r.Ok? <==> ExtendAll(info, old(numa), npus).Ok?
      ensures r.Err? ==> r.error == ExtendAll(info, old(numa), npus).error
      ensures var e := Extended(info, old(numa), npus);
              numa == e.1 && npuCpuPool == Zip(npus[..|e.0|], e.0)
    {
      ghost var pools: seq<seq<int>> := [];
      for i := 0 to |npus|
        invariant |pools| == i && Extended(info, old(numa), npus[..i]) == (pools, numa)
        invariant npuCpuPool == Zip(npus[..i], pools)
      {
        ExtendedStep(info, old(numa), npus, i);
        var e := ExtendCandidate(npus[i]);
        if e.Err? {
          ExtendAllFails(info, old(numa), npus, i, e.error);
          return Err(e.error);
        }
        ZipStep(npus, pools, i, e.value);
        npuCpuPool := Enter(npuCpuPool, npus[i], e.value);
        pools := pools + [e.value];
      }
      assert npus[..|npus|] == npus;
      ExtendedIsAll(info, old(numa), npus);
      return Ok(());
    }

    // Split the pool of a group of NPUs evenly, the last one taking the rest.
    method AverageDistribute(npuList: seq<int>) returns (result: Pools)
      requires npuList != []
      ensures result == Entered(npuList, Shares(Sorted(CpusOf(npuCpuPool, npuList[0])), |npuList|), |npuList|)
    {
      result := [];
      var cpuList := Sorted(CpusOf(npuCpuPool, npuList[0]));
      var per := |cpuList| / |npuList|;
      for i := 0 to |npuList|
        invariant result == Entered(npuList, Shares(cpuList, |npuList|), i)
      {
        ShareBounds(|cpuList|, |npuList|, i);
        var start := i * per;
        var end := if i < |npuList| - 1 then (i + 1) * per else |cpuList|;
        result := Enter(result, npuList[i], cpuList[start..end]);
      }
    }

    method GroupByPool() returns (groups: Groups)
      ensures groups == Grouped(npuCpuPool)
    {
      groups := [];
      for i := 0 to |npuCpuPool|
        invariant groups == Grouped(npuCpuPool[..i])
      {
        assert npuCpuPool[..i + 1][..i] == npuCpuPool[..i];
        groups := AppendTo(groups, npuCpuPool[i].1, npuCpuPool[i].0);
      }
      assert npuCpuPool[..|npuCpuPool|] == npuCpuPool;
    }

    method UpdateWith(final: Pools, extra: Pools) returns (r: Pools)
      ensures r == Updated(final, extra)
    {
      r := final;
      for i := 0 to |extra|
        invariant r == Updated(final, extra[..i])
      {
        assert extra[..i + 1][..i] == extra[..i];
        r := Enter(r, extra[i].0, extra[i].1);
      }
      assert extra[..|extra|] == extra;
    }

    method DistributeGroups(groups: Groups) returns (final: Pools)
      requires forall k :: 0 <= k < |groups| ==> groups[k].1 != []
      ensures final == Distributed(npuCpuPool, groups)
    {
      ghost var extras := AllShares(npuCpuPool, groups);
      final := [];
      for g := 0 to |groups|
        invariant final == UpdatedAll(extras[..g])
      {
        assert extras[..g + 1][..g] == extras[..g];
        var npuList := groups[g].1;
        var shares: Pools;
        if |npuList| == 1 {
          shares := [(npuList[0], CpusOf(npuCpuPool, npuList[0]))];
        } else {
          shares := AverageDistribute(npuList);
        }
        final := UpdateWith(final, shares);
      }
      assert extras[..|extras|] == extras;
    }

    method KeepRunning(final: Pools, ghost npus: seq<int>, ghost pools: seq<seq<int>>) returns (r: Result<(), string>)
      requires |npus| == |pools| && forall i :: 0 <= i < |info.running| ==> Keeps(final, npus, pools, info.running[i])
      modifies this`npuCpuPool
      ensures r.Ok? <==> KeepVisible(info.running, npus, pools).Ok?
      ensures r.Ok? ==> npuCpuPool == KeepVisible(info.running, npus, pools).value
    {
      if exists i :: 0 <= i < |info.running| && KeyIndex(final, info.running[i]) < 0 {
        return Err("KeyError");
      }
      var visible := info.running;
      npuCpuPool := seq(|visible|, i requires 0 <= i < |visible| => (visible[i], CpusOf(final, visible[i])));
      return Ok(());
    }

    method BuildTopoPools() returns (r: Result<(), string>)
      requires npuCpuPool == [] && info.Valid()
      modifies this`numa, this`npuCpuPool
      ensures r.Ok? <==> TopoPools(info, old(numa)).Ok?
      ensures r.Ok? ==> npuCpuPool == TopoPools(info, old(numa)).value
      ensures r.Err? ==> r.error == TopoPools(info, old(numa)).error && npuCpuPool == TopoEntered(info, old(numa))
      ensures numa == Extended(info, old(numa), Candidates(info, |info.allLogic|)).1
    {
      var npus := Candidates(info, |info.allLogic|);
      CandidatesDistinct(info, |info.allLogic|);
      OnlyExtendingFails(info, numa);
      ExtendedIsAll(info, numa, npus);
      var e := ExtendCandidates(npus);
      if e.Err? {
        return Err(e.error);
      }
      ghost var pools := ExtendAll(info, old(numa), npus).value.0;
      assert npus[..|npus|] == npus;
      var groups := GroupByPool();
      GroupedOk(npuCpuPool);
      var final := DistributeGroups(groups);
      forall i | 0 <= i < |info.running|
        ensures Keeps(final, npus, pools, info.running[i])
      {
        KeptPool(npuCpuPool, final, npus, pools, info.running[i]);
      }
      r := KeepRunning(final, npus, pools);
    }

    // A failure leaves what was entered before it.
    method BuildCpuPools(mode: Mode, rows: seq<(int, int)>) returns (r: Result<(), string>)
      requires npuCpuPool == [] && numa == Numa(map[], map[]) && info.Valid()
      modifies this`numa, this`npuCpuPool
      ensures r.Ok? <==> PoolsOf(info, mode, rows).Ok?
      ensures r.Ok? ==> npuCpuPool == PoolsOf(info, mode, rows).value
      ensures r.Err? ==> r.error == PoolsOf(info, mode, rows).error && npuCpuPool == EnteredBefore(info, mode, rows)
      ensures numa == NumaAfter(info, mode, rows)
      ensures rows == [] ==> r.Err? && npuCpuPool == []
      ensures rows != [] && (mode.GlobalSlices? || |info.affinity| == 0) ==>
                && (r.Ok? <==> GlobalPools(info).Ok?) && npuCpuPool == GlobalEntered(info) && numa == NumaOf(rows)
      ensures rows != [] && mode.TopoAffinity? && |info.affinity| > 0 ==>
                && (r.Ok? <==> TopoPools(info, NumaOf(rows)).Ok?)
                && npuCpuPool == (if r.Ok? then TopoPools(info, NumaOf(rows)).value
                                  else TopoEntered(info, NumaOf(rows)))
                && numa == Extended(info, NumaOf(rows), Candidates(info, |info.allLogic|)).1
    {
      GlobalEnteredAre(info);
      var ok := BuildCpuNodeMap(rows);
      if !ok {
        return Err("no NUMA node available");
      }
      if mode == GlobalSlices || info.affinity == map[] {
        r := BuildGlobalSliceCpuPool();
      } else {
        r := BuildTopoPools();
      }
    }

    // ---------- Roles ----------

    // A pool that is too short ends the run; the pools before it keep their assignments.
    method Allocate() returns (ok: bool)
      requires DistinctNpus(npuCpuPool) && assignMain == assignAcl == assignRel == []
      modifies this`assignMain, this`assignAcl, this`assignRel
      ensures ok <==> LongEnough(npuCpuPool)
      ensures ok <==> LongPools(npuCpuPool) == |npuCpuPool|
      ensures assignMain == RolePools(npuCpuPool[..LongPools(npuCpuPool)], Main)
      ensures assignAcl == RolePools(npuCpuPool[..LongPools(npuCpuPool)], Acl)
      ensures assignRel == RolePools(npuCpuPool[..LongPools(npuCpuPool)], Release)
    {
      var d := npuCpuPool;
      for i := 0 to |d|
        invariant LongEnough(d[..i])
        invariant assignMain == RolePools(d[..i], Main)
        invariant assignAcl == RolePools(d[..i], Acl)
        invariant assignRel == RolePools(d[..i], Release)
      {
        var (npu, pool) := d[i];
        if |pool| < MIN_CPUS_PER_NPU {
          LongPoolsAre(d, i);
          return false;
        }
        RoleStep(d, i, Main);
        RoleStep(d, i, Acl);
        RoleStep(d, i, Release);
        assignMain := Enter(assignMain, npu, pool[2..|pool| - 2]);
        assignAcl := Enter(assignAcl, npu, [pool[|pool| - 2]]);
        assignRel := Enter(assignRel, npu, [pool[|pool| - 1]]);
      }
      assert d[..|d|] == d;
      LongPoolsAre(d, |d|);
      return true;
    }
  }
}
