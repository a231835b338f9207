// Which CPUs each NPU gets, and when independent processes give one CPU to two NPUs.
module CpuPools {
  import opened Text
  import opened Seqs
  import opened Ints
  import opened Arith
  import opened CpuSlices

  // What a process reads from the host: its cpuset, the NPUs it runs on, NPU-to-CPU affinity, all logical NPUs.
  datatype DeviceInfo = DeviceInfo(
    allowed: seq<int>, running: seq<int>, affinity: map<int, seq<int>>, allLogic: seq<int>)
  {
    // Both NPU lists are sorted sets of logical ids from one map, and a process runs on at least one NPU.
    ghost predicate Valid() {
      && Increasing(allLogic) && Increasing(running) && running != []
      && forall i :: 0 <= i < |running| ==> running[i] in allLogic
    }
  }

  // A dictionary from NPU to CPUs, in insertion order.
  type Pools = seq<(int, seq<int>)>

  // ---------- Global slicing ----------

  function GlobalTotal(info: DeviceInfo): nat {
    if |info.allLogic| > 0 then |info.allLogic|
    else if |info.affinity| > 0 then |info.affinity|
    else |info.running|
  }

  predicate InRange(npus: seq<int>, total: nat) {
    forall i :: 0 <= i < |npus| ==> 0 <= npus[i] < total
  }

  // The slices of a list of NPUs, in order.
  function SlicesOf(cpus: seq<int>, total: nat, npus: seq<int>): Pools
    requires InRange(npus, total)
  {
    seq(|npus|, i requires 0 <= i < |npus| => (npus[i], GlobalSlice(cpus, total, npus[i])))
  }

  function GlobalPools(info: DeviceInfo): Result<Pools, string> {
    var cpus := SortedSet(info.allowed);
    var total := GlobalTotal(info);
    if info.running == [] || cpus == [] then Ok([])
    else if |cpus| / total < MIN_CPUS_PER_NPU then Err("insufficient CPUs")
    else if !InRange(info.running, total) then Err("invalid NPU id")
    else Ok(SlicesOf(cpus, total, info.running))
  }

  // How many NPU ids come before the first one out of range.
  function ValidIds(npus: seq<int>, total: nat): (k: nat)
    ensures k <= |npus| && InRange(npus[..k], total)
    ensures k < |npus| ==> !(0 <= npus[k] < total)
  {
    if npus == [] then 0
    else
      var k := ValidIds(npus[..|npus| - 1], total);
      assert npus[..|npus| - 1][..k] == npus[..k];
      if k == |npus| - 1 && 0 <= npus[k] < total then |npus| else k
  }

  // The pools entered when global slicing ends, at the end or at the first failure.
  function GlobalEntered(info: DeviceInfo): Pools {
    var cpus := SortedSet(info.allowed);
    var total := GlobalTotal(info);
    if info.running == [] || cpus == [] || |cpus| / total < MIN_CPUS_PER_NPU then []
    else SlicesOf(cpus, total, info.running[..ValidIds(info.running, total)])
  }

  // A CPU belongs to at most one (NPU, role) over two processes.
  ghost predicate Exclusive(p: Pools, q: Pools) {
    forall i, j, r, s, x |
      0 <= i < |p| && 0 <= j < |q| && |p[i].1| >= MIN_CPUS_PER_NPU && |q[j].1| >= MIN_CPUS_PER_NPU ::
      x in RoleCpus(p[i].1, r) && x in RoleCpus(q[j].1, s) ==> p[i].0 == q[j].0 && r == s
  }

  lemma IncreasingPart(s: seq<int>, i: nat, j: nat)
    requires Increasing(s) && i <= j <= |s|
    ensures Distinct(s[i..j])
  {
  }

  lemma GlobalSliceNoRepeats(cpus: seq<int>, total: nat, npu: nat)
    requires Increasing(cpus) && npu < total
    ensures Distinct(GlobalSlice(cpus, total, npu))
  {
    GlobalBounds(|cpus|, total, npu);
    GlobalStartStep(|cpus|, total, npu);
    IncreasingPart(cpus, GlobalStart(|cpus|, total, npu), GlobalStart(|cpus|, total, npu + 1));
  }

  // The slices of all NPUs, seen or not, are the sorted cpuset; each is long enough for all roles, and
  // their lengths differ by at most one.
  lemma GlobalSlicesCover(info: DeviceInfo)
    requires GlobalPools(info).Ok? && info.running != [] && info.allowed != []
    ensures var cpus, total := SortedSet(info.allowed), GlobalTotal(info);
            && Joined(GlobalSlices(cpus, total), total) == cpus
            && (forall a :: 0 <= a < total ==> |GlobalSlice(cpus, total, a)| >= MIN_CPUS_PER_NPU)
            && (forall a, b :: 0 <= a < total && 0 <= b < total ==>
                  |GlobalSlice(cpus, total, a)| <= |GlobalSlice(cpus, total, b)| + 1)
            && |GlobalPools(info).value| == |info.running|
            && (forall i :: 0 <= i < |info.running| ==>
                  GlobalPools(info).value[i] == (info.running[i], GlobalSlice(cpus, total, info.running[i])))
  {
    assert info.allowed[0] in SortedSet(info.allowed);
    GlobalSlicesPartition(SortedSet(info.allowed), GlobalTotal(info));
  }

  // Global slicing fails exactly if the cpuset is not empty and has fewer than five CPUs per NPU, or a
  // visible NPU is no number below the number of NPUs.
  lemma GlobalSucceedsWhen(info: DeviceInfo)
    requires info.Valid()
    ensures GlobalPools(info).Ok? <==>
            || info.allowed == []
            || (&& |SortedSet(info.allowed)| >= 5 * |info.allLogic|
                && forall i :: 0 <= i < |info.running| ==> 0 <= info.running[i] < |info.allLogic|)
    ensures info.allowed == [] ==> GlobalPools(info) == Ok([])
  {
    TotalIsMapSize(info);
    if info.allowed != [] {
      assert info.allowed[0] in SortedSet(info.allowed);
    }
    FivePerNpu(|SortedSet(info.allowed)|, |info.allLogic|);
  }

  // What is entered: nothing with fewer than five CPUs per NPU, and otherwise each visible NPU's slice, up
  // to the first id that is no NPU; all of them in a run that succeeds.
  lemma GlobalEnteredAre(info: DeviceInfo)
    requires info.Valid()
    ensures GlobalPools(info).Ok? ==> GlobalEntered(info) == GlobalPools(info).value
    ensures |SortedSet(info.allowed)| < 5 * |info.allLogic| ==> GlobalEntered(info) == []
    ensures var entered, total := GlobalEntered(info), |info.allLogic|;
            |SortedSet(info.allowed)| >= 5 * total ==>
              && |entered| <= |info.running|
              && (forall i :: 0 <= i < |entered| ==>
                    && 0 <= info.running[i] < total
                    && entered[i] == (info.running[i], GlobalSlice(SortedSet(info.allowed), total, info.running[i])))
              && (|entered| < |info.running| ==> !(0 <= info.running[|entered|] < total))
  {
    TotalIsMapSize(info);
    FivePerNpu(|SortedSet(info.allowed)|, |info.allLogic|);
    var k := ValidIds(info.running, |info.allLogic|);
    if k == |info.running| {
      assert info.running[..k] == info.running;
    }
  }

  lemma FivePerNpu(cpus: nat, total: nat)
    requires total > 0
    ensures cpus / total >= 5 <==> cpus >= 5 * total
  {
    DivModParts(cpus, total);
    if cpus / total >= 5 {
      MulMonotone(5, cpus / total, total);
    } else {
      MulMonotone(cpus / total + 1, 5, total);
      assert (cpus / total + 1) * total == (cpus / total) * total + total;
    }
  }

  // The NPU map is never empty where a process runs, so its size is the number of slices.
  lemma TotalIsMapSize(info: DeviceInfo)
    requires info.Valid()
    ensures GlobalTotal(info) == |info.allLogic| > 0
  {
    assert info.running[0] in info.allLogic;
  }

  // Processes that share a cpuset and an NPU map never share a CPU, whichever NPUs they see.
  lemma GlobalExclusive(p: DeviceInfo, q: DeviceInfo)
    requires p.Valid() && q.Valid() && p.allowed == q.allowed && p.allLogic == q.allLogic
    requires GlobalPools(p).Ok? && GlobalPools(q).Ok?
    ensures Exclusive(GlobalPools(p).value, GlobalPools(q).value)
  {
    TotalIsMapSize(p);
    TotalIsMapSize(q);
    var ps, qs := GlobalPools(p).value, GlobalPools(q).value;
    var cpus, total := SortedSet(p.allowed), GlobalTotal(p);
    forall i, j, r, s, x |
        0 <= i < |ps| && 0 <= j < |qs| && |ps[i].1| >= MIN_CPUS_PER_NPU && |qs[j].1| >= MIN_CPUS_PER_NPU &&
        x in RoleCpus(ps[i].1, r) && x in RoleCpus(qs[j].1, s)
      ensures ps[i].0 == qs[j].0 && r == s
    {
      var a, b := ps[i].0, qs[j].0;
      RoleInPool(ps[i].1, r, x);
      RoleInPool(qs[j].1, s, x);
      if a < b {
        GlobalSlicesApart(cpus, total, a, b, x, x);
      } else if b < a {
        GlobalSlicesApart(cpus, total, b, a, x, x);
      }
      GlobalSliceNoRepeats(cpus, total, a);
      RolesSplitPool(ps[i].1);
    }
  }

  // ---------- Topology affinity ----------

  function AffinityOf(info: DeviceInfo, npu: int): seq<int> {
    if npu in info.affinity then info.affinity[npu] else []
  }

  function BaseCpus(info: DeviceInfo, npu: int): seq<int> {
    Filter(AffinityOf(info, npu), Elements(info.allowed))
  }

  predicate Overlaps(info: DeviceInfo, npu: int) {
    exists c :: c in AffinityOf(info, npu) && c in info.allowed
  }

  lemma BaseCpusOverlap(info: DeviceInfo, npu: int)
    ensures BaseCpus(info, npu) != [] <==> Overlaps(info, npu)
  {
    FilterHas(AffinityOf(info, npu), Elements(info.allowed));
    var base := BaseCpus(info, npu);
    if base != [] {
      var c := base[0];
      assert c in base;
      assert c in AffinityOf(info, npu) && c in info.allowed;
    }
    if Overlaps(info, npu) {
      var c :| c in AffinityOf(info, npu) && c in info.allowed;
      assert c in base;
    }
  }

  predicate IsCandidate(info: DeviceInfo, npu: int) {
    npu in info.running || Overlaps(info, npu)
  }

  // The first k logical NPUs that are visible or overlap the cpuset.
  function Candidates(info: DeviceInfo, k: nat): seq<int>
    requires k <= |info.allLogic|
  {
    if k == 0 then []
    else
      var before := Candidates(info, k - 1);
      if IsCandidate(info, info.allLogic[k - 1]) then before + [info.allLogic[k - 1]] else before
  }

  // CPU to NUMA node, and the CPUs of each node; the latter is a defaultdict.
  datatype Numa = Numa(cpuNode: map<int, int>, nodeCpus: map<int, seq<int>>)

  // A single-node list is joined with the next node's CPUs; looking that node up creates it.
  function Extend(numa: Numa, allowed: seq<int>, cpus: seq<int>): Result<(seq<int>, Numa), string> {
    if cpus == [] then Ok(([], numa))
    else if exists i :: 0 <= i < |cpus| && cpus[i] !in numa.cpuNode then Err("KeyError")
    else if exists i :: 0 <= i < |cpus| && numa.cpuNode[cpus[i]] != numa.cpuNode[cpus[0]] then Ok((cpus, numa))
    else if |numa.nodeCpus| == 0 then Err("ZeroDivisionError")
    else
      var next := (numa.cpuNode[cpus[0]] + 1) % |numa.nodeCpus|;
      var nodes := if next in numa.nodeCpus then numa.nodeCpus else numa.nodeCpus[next := []];
      Ok((SortedSet(cpus + Filter(nodes[next], Elements(allowed))), numa.(nodeCpus := nodes)))
  }

  // A candidate without a CPU in the cpuset ends the run.
  function ExtendOne(numa: Numa, info: DeviceInfo, npu: int): Result<(seq<int>, Numa), string> {
    if BaseCpus(info, npu) == [] then Err("cpuset conflicts with NUMA affinity")
    else Extend(numa, info.allowed, BaseCpus(info, npu))
  }

  // The extended pools of a list of candidates, in order.
  function ExtendAll(info: DeviceInfo, numa: Numa, npus: seq<int>): (r: Result<(seq<seq<int>>, Numa), string>)
    ensures r.Ok? ==> |r.value.0| == |npus|
  {
    if npus == [] then Ok(([], numa))
    else
      var before := ExtendAll(info, numa, npus[..|npus| - 1]);
      if before.Err? then Err(before.error)
      else
        match ExtendOne(before.value.1, info, npus[|npus| - 1])
        case Ok(e) => Ok((before.value.0 + [e.0], e.1))
        case Err(m) => Err(m)
  }

  // What the loop over the candidates has entered when it ends, at the end or at the first failure.
  function Extended(info: DeviceInfo, numa: Numa, npus: seq<int>): (r: (seq<seq<int>>, Numa))
    ensures |r.0| <= |npus|
  {
    if npus == [] then ([], numa)
    else
      var before := Extended(info, numa, npus[..|npus| - 1]);
      if |before.0| < |npus| - 1 then before
      else
        match ExtendOne(before.1, info, npus[|npus| - 1])
        case Ok(e) => (before.0 + [e.0], e.1)
        case Err(_) => before
  }

  lemma {:induction false} ExtendedIsAll(info: DeviceInfo, numa: Numa, npus: seq<int>)
    ensures ExtendAll(info, numa, npus).Ok? <==> |Extended(info, numa, npus).0| == |npus|
    ensures ExtendAll(info, numa, npus).Ok? ==> ExtendAll(info, numa, npus).value == Extended(info, numa, npus)
  {
    if npus == [] {
    } else {
      ExtendedIsAll(info, numa, npus[..|npus| - 1]);
    }
  }

  lemma {:induction false} ExtendAllOverlap(info: DeviceInfo, numa: Numa, npus: seq<int>, npu: int)
    requires ExtendAll(info, numa, npus).Ok? && npu in npus
    ensures Overlaps(info, npu)
  {
    if npu == npus[|npus| - 1] {
      BaseCpusOverlap(info, npu);
    } else {
      ExtendAllOverlap(info, numa, npus[..|npus| - 1], npu);
    }
  }

  // How many of the pools are this one.
  function Count(pools: seq<seq<int>>, pool: seq<int>): nat {
    if pools == [] then 0
    else Count(pools[..|pools| - 1], pool) + (if pools[|pools| - 1] == pool then 1 else 0)
  }

  lemma {:induction false} CountZero(pools: seq<seq<int>>, pool: seq<int>)
    ensures Count(pools, pool) <= |pools|
    ensures Count(pools, pool) == 0 <==> pool !in pools
  {
    if pools == [] {
    } else {
      CountZero(pools[..|pools| - 1], pool);
      assert pools == pools[..|pools| - 1] + [pools[|pools| - 1]];
    }
  }

  lemma CountStep(pools: seq<seq<int>>, k: nat, pool: seq<int>)
    requires k < |pools|
    ensures Count(pools[..k + 1], pool) == Count(pools[..k], pool) + (if pools[k] == pool then 1 else 0)
  {
    assert pools[..k + 1][..k] == pools[..k];
  }

  lemma {:induction false} CountMonotone(pools: seq<seq<int>>, i: nat, j: nat, pool: seq<int>)
    requires i <= j <= |pools|
    ensures Count(pools[..i], pool) <= Count(pools[..j], pool)
  {
    if i == j {
    } else {
      CountMonotone(pools, i, j - 1, pool);
      CountStep(pools, j - 1, pool);
    }
  }

  lemma RankBelow(pools: seq<seq<int>>, i: nat)
    requires i < |pools|
    ensures Count(pools[..i], pools[i]) < Count(pools, pools[i])
  {
    CountStep(pools, i, pools[i]);
    CountMonotone(pools, i + 1, |pools|, pools[i]);
    assert pools[..|pools|] == pools;
  }

  // What candidate i gets: its pool alone, or its share of the pool it has in common with others.
  function FinalPool(pools: seq<seq<int>>, i: nat): seq<int>
    requires i < |pools|
  {
    RankBelow(pools, i);
    var n := Count(pools, pools[i]);
    if n == 1 then pools[i] else Share(Sorted(pools[i]), n, Count(pools[..i], pools[i]))
  }

  // Only visible NPUs keep their pool; one that is no candidate has none.
  function KeepVisible(running: seq<int>, npus: seq<int>, pools: seq<seq<int>>): Result<Pools, string>
    requires |npus| == |pools|
  {
    if exists i :: 0 <= i < |running| && running[i] !in npus then Err("KeyError")
    else Ok(seq(|running|, i requires 0 <= i < |running| => (running[i], FinalPool(pools, IndexOf(npus, running[i])))))
  }

  function TopoPools(info: DeviceInfo, numa: Numa): Result<Pools, string> {
    var npus := Candidates(info, |info.allLogic|);
    var e := ExtendAll(info, numa, npus);
    if e.Err? then Err(e.error) else KeepVisible(info.running, npus, e.value.0)
  }

  // ---------- What a process sees does not matter ----------

  lemma {:induction false} CandidatesHave(info: DeviceInfo, k: nat)
    requires k <= |info.allLogic|
    ensures forall i :: 0 <= i < k && IsCandidate(info, info.allLogic[i]) ==> info.allLogic[i] in Candidates(info, k)
  {
    if k == 0 {
    } else {
      CandidatesHave(info, k - 1);
    }
  }

  lemma {:induction false} CandidatesDistinct(info: DeviceInfo, k: nat)
    requires Distinct(info.allLogic) && k <= |info.allLogic|
    ensures Distinct(Candidates(info, k))
    ensures forall npu :: npu in Candidates(info, k) ==> npu in info.allLogic[..k]
  {
    if k == 0 {
    } else {
      CandidatesDistinct(info, k - 1);
      var before, last := Candidates(info, k - 1), info.allLogic[k - 1];
      assert info.allLogic[..k] == info.allLogic[..k - 1] + [last];
      assert last !in info.allLogic[..k - 1];
      forall i | 0 <= i < |before|
        ensures before[i] != last
      {
        assert before[i] in before;
      }
    }
  }

  // Every visible NPU is a candidate, so only the extension of a candidate can fail.
  lemma OnlyExtendingFails(info: DeviceInfo, numa: Numa)
    requires info.Valid()
    ensures TopoPools(info, numa).Ok? <==> ExtendAll(info, numa, Candidates(info, |info.allLogic|)).Ok?
    ensures TopoPools(info, numa).Err? ==>
              TopoPools(info, numa).error == ExtendAll(info, numa, Candidates(info, |info.allLogic|)).error
  {
    CandidatesHave(info, |info.allLogic|);
    forall k | 0 <= k < |info.running|
      ensures info.running[k] in Candidates(info, |info.allLogic|)
    {
      assert info.running[k] in info.allLogic;
      var i :| 0 <= i < |info.allLogic| && info.allLogic[i] == info.running[k];
      assert IsCandidate(info, info.allLogic[i]);
    }
  }

  // In a run that succeeds the candidates are exactly the NPUs that overlap the cpuset.
  lemma {:induction false} CandidatesOverlap(info: DeviceInfo, other: DeviceInfo, k: nat)
    requires other == info.(running := other.running) && k <= |info.allLogic|
    requires forall npu :: npu in Candidates(info, k) ==> Overlaps(info, npu)
    requires forall npu :: npu in Candidates(other, k) ==> Overlaps(other, npu)
    ensures Candidates(info, k) == Candidates(other, k)
  {
    if k == 0 {
    } else {
      CandidatesOverlap(info, other, k - 1);
      CandidatesHave(info, k);
      CandidatesHave(other, k);
      assert Overlaps(info, info.allLogic[k - 1]) == Overlaps(other, info.allLogic[k - 1]) by {
        assert AffinityOf(info, info.allLogic[k - 1]) == AffinityOf(other, info.allLogic[k - 1]);
      }
    }
  }

  lemma {:induction false} ExtendAllSame(info: DeviceInfo, other: DeviceInfo, numa: Numa, npus: seq<int>)
    requires other == info.(running := other.running)
    ensures ExtendAll(info, numa, npus) == ExtendAll(other, numa, npus)
  {
    if npus == [] {
    } else {
      ExtendAllSame(info, other, numa, npus[..|npus| - 1]);
    }
  }

  lemma SameCandidates(info: DeviceInfo, other: DeviceInfo, numa: Numa)
    requires other == info.(running := other.running)
    requires TopoPools(info, numa).Ok? && TopoPools(other, numa).Ok?
    ensures Candidates(info, |info.allLogic|) == Candidates(other, |info.allLogic|)
    ensures ExtendAll(info, numa, Candidates(info, |info.allLogic|)) ==
            ExtendAll(other, numa, Candidates(info, |info.allLogic|))
  {
    var n := |info.allLogic|;
    forall npu | npu in Candidates(info, n)
      ensures Overlaps(info, npu)
    {
      ExtendAllOverlap(info, numa, Candidates(info, n), npu);
    }
    forall npu | npu in Candidates(other, n)
      ensures Overlaps(other, npu)
    {
      ExtendAllOverlap(other, numa, Candidates(other, n), npu);
    }
    CandidatesOverlap(info, other, n);
    ExtendAllSame(info, other, numa, Candidates(info, n));
  }

  // The pool of an NPU depends on the host alone, not on which NPUs the process can see.
  lemma TopoIndependent(info: DeviceInfo, other: DeviceInfo, numa: Numa, i: nat, j: nat)
    requires other == info.(running := other.running)
    requires TopoPools(info, numa).Ok? && TopoPools(other, numa).Ok?
    requires i < |info.running| && j < |other.running| && info.running[i] == other.running[j]
    ensures |TopoPools(info, numa).value| == |info.running| && |TopoPools(other, numa).value| == |other.running|
    ensures TopoPools(info, numa).value[i].0 == info.running[i]
    ensures TopoPools(info, numa).value[i] == TopoPools(other, numa).value[j]
  {
    SameCandidates(info, other, numa);
  }

  // ---------- NPUs with the same extended pool ----------

  lemma FinalIsShare(pools: seq<seq<int>>, i: nat)
    requires i < |pools| && Count(pools, pools[i]) >= 2
    ensures Count(pools[..i], pools[i]) < Count(pools, pools[i])
    ensures FinalPool(pools, i) == Share(Sorted(pools[i]), Count(pools, pools[i]), Count(pools[..i], pools[i]))
  {
    RankBelow(pools, i);
  }

  function Finals(pools: seq<seq<int>>): (finals: seq<seq<int>>)
    ensures |finals| == |pools| && forall i :: 0 <= i < |pools| ==> finals[i] == FinalPool(pools, i)
  {
    seq(|pools|, i requires 0 <= i < |pools| => FinalPool(pools, i))
  }

  // What the candidates before k that have this pool are given, in order.
  ghost function MembersJoined(pools: seq<seq<int>>, given: seq<seq<int>>, pool: seq<int>, k: nat): seq<int>
    requires k <= |pools| == |given|
  {
    if k == 0 then []
    else MembersJoined(pools, given, pool, k - 1) + (if pools[k - 1] == pool then given[k - 1] else [])
  }

  // A member is given the part of its rank among the members.
  ghost predicate GivenPart(pools: seq<seq<int>>, given: seq<seq<int>>, pool: seq<int>, parts: seq<seq<int>>, i: nat)
    requires i < |pools| == |given|
  {
    pools[i] == pool ==> Count(pools[..i], pool) < |parts| && given[i] == parts[Count(pools[..i], pool)]
  }

  // Members that are given one part each, in order, are given the parts joined.
  lemma {:induction false} MembersGetParts(pools: seq<seq<int>>, given: seq<seq<int>>, pool: seq<int>,
                                           parts: seq<seq<int>>, k: nat)
    requires k <= |pools| == |given|
    requires forall i :: 0 <= i < |pools| ==> GivenPart(pools, given, pool, parts, i)
    ensures Count(pools[..k], pool) <= |parts|
    ensures MembersJoined(pools, given, pool, k) == Joined(parts, Count(pools[..k], pool))
  {
    if k == 0 {
      assert pools[..k] == [];
    } else {
      MembersGetParts(pools, given, pool, parts, k - 1);
      CountStep(pools, k - 1, pool);
      assert GivenPart(pools, given, pool, parts, k - 1);
    }
  }

  lemma MembersGetShares(pools: seq<seq<int>>, pool: seq<int>)
    requires Count(pools, pool) >= 2
    ensures MembersJoined(pools, Finals(pools), pool, |pools|) ==
            Joined(Shares(Sorted(pool), Count(pools, pool)), Count(pools, pool))
  {
    var given, parts := Finals(pools), Shares(Sorted(pool), Count(pools, pool));
    forall i | 0 <= i < |pools|
      ensures GivenPart(pools, given, pool, parts, i)
    {
      if pools[i] == pool {
        FinalIsShare(pools, i);
      }
    }
    MembersGetParts(pools, given, pool, parts, |pools|);
    assert pools[..|pools|] == pools;
  }

  // The final pools of the candidates with this pool have no CPU in common.
  ghost predicate MembersDisjoint(pools: seq<seq<int>>, pool: seq<int>) {
    forall i, j :: 0 <= i < j < |pools| && pools[i] == pools[j] == pool ==>
      Disjoint(FinalPool(pools, i), FinalPool(pools, j))
  }

  lemma CleanCutsDisjoint(pools: seq<seq<int>>, pool: seq<int>)
    requires Count(pools, pool) >= 2 && CleanCuts(Sorted(pool), Count(pools, pool))
    ensures MembersDisjoint(pools, pool)
  {
    SharesDisjoint(Sorted(pool), Count(pools, pool));
    forall i, j | 0 <= i < j < |pools| && pools[i] == pools[j] == pool
      ensures Disjoint(FinalPool(pools, i), FinalPool(pools, j))
    {
      FinalIsShare(pools, i);
      FinalIsShare(pools, j);
      RanksOrdered(pools, i, j);
    }
  }

  lemma DisjointCutsClean(pools: seq<seq<int>>, pool: seq<int>)
    requires Count(pools, pool) >= 2 && MembersDisjoint(pools, pool)
    ensures CleanCuts(Sorted(pool), Count(pools, pool))
  {
    var n, cpus := Count(pools, pool), Sorted(pool);
    assert pools[..|pools|] == pools;
    forall a, b | 0 <= a < b < n
      ensures Disjoint(Share(cpus, n, a), Share(cpus, n, b))
    {
      var i := MemberOfRank(pools, pool, a, |pools|);
      var j := MemberOfRank(pools, pool, b, |pools|);
      FinalIsShare(pools, i);
      FinalIsShare(pools, j);
      if j <= i {
        CountMonotone(pools, j, i, pool);
      }
    }
    SharesDisjoint(cpus, n);
  }

  // NPUs that share a pool split it: their shares in order are the sorted pool, and they are pairwise
  // disjoint exactly when no CPU listed twice straddles a cut; in particular when none is listed twice.
  lemma SamePoolIsSplit(pools: seq<seq<int>>, pool: seq<int>)
    requires Count(pools, pool) >= 2
    ensures MembersJoined(pools, Finals(pools), pool, |pools|) == Sorted(pool)
    ensures MembersDisjoint(pools, pool) <==> CleanCuts(Sorted(pool), Count(pools, pool))
    ensures Distinct(pool) ==> MembersDisjoint(pools, pool)
  {
    MembersGetShares(pools, pool);
    SharesPartition(Sorted(pool), Count(pools, pool));
    if Distinct(pool) {
      SortedDistinct(pool);
      IncreasingCutsClean(Sorted(pool), Count(pools, pool));
    }
    if CleanCuts(Sorted(pool), Count(pools, pool)) {
      CleanCutsDisjoint(pools, pool);
    }
    if MembersDisjoint(pools, pool) {
      DisjointCutsClean(pools, pool);
    }
  }

  lemma RanksOrdered(pools: seq<seq<int>>, i: nat, j: nat)
    requires i < j < |pools| && pools[i] == pools[j]
    ensures Count(pools[..i], pools[i]) < Count(pools[..j], pools[j])
  {
    CountStep(pools, i, pools[i]);
    CountMonotone(pools, i + 1, j, pools[i]);
  }

  lemma {:induction false} MemberOfRank(pools: seq<seq<int>>, pool: seq<int>, r: nat, k: nat) returns (i: nat)
    requires k <= |pools| && r < Count(pools[..k], pool)
    ensures i < k && pools[i] == pool && Count(pools[..i], pool) == r
  {
    CountStep(pools, k - 1, pool);
    if r < Count(pools[..k - 1], pool) {
      i := MemberOfRank(pools, pool, r, k - 1);
    } else {
      i := k - 1;
    }
  }

  // The pool an NPU would have alone, before it is split with the NPUs that have the same one.
  ghost function ExtendedPool(info: DeviceInfo, numa: Numa, npu: int): seq<int>
    requires TopoPools(info, numa).Ok? && npu in Candidates(info, |info.allLogic|)
  {
    ExtendAll(info, numa, Candidates(info, |info.allLogic|)).value.0[IndexOf(Candidates(info, |info.allLogic|), npu)]
  }

  lemma {:induction false} FilterNoRepeats(xs: seq<int>, keep: set<int>)
    requires Distinct(xs)
    ensures Distinct(Filter(xs, keep))
  {
    if xs == [] {
    } else {
      FilterNoRepeats(xs[..|xs| - 1], keep);
      var before := Filter(xs[..|xs| - 1], keep);
      FilterHas(xs[..|xs| - 1], keep);
      forall i | 0 <= i < |before|
        ensures before[i] != xs[|xs| - 1]
      {
        assert before[i] in before;
      }
    }
  }

  lemma {:induction false} ExtendAllNoRepeats(info: DeviceInfo, numa: Numa, npus: seq<int>, i: nat)
    requires ExtendAll(info, numa, npus).Ok? && i < |npus| && Distinct(AffinityOf(info, npus[i]))
    ensures Distinct(ExtendAll(info, numa, npus).value.0[i])
  {
    if i < |npus| - 1 {
      ExtendAllNoRepeats(info, numa, npus[..|npus| - 1], i);
    } else {
      FilterNoRepeats(AffinityOf(info, npus[i]), Elements(info.allowed));
    }
  }

  // Two processes on one host, each seeing its own NPUs, give NPUs of the same extended pool, or of
  // extended pools without a common CPU, different CPUs.
  lemma TopoExclusive(info: DeviceInfo, other: DeviceInfo, numa: Numa, i: nat, j: nat)
    requires other == info.(running := other.running)
    requires TopoPools(info, numa).Ok? && TopoPools(other, numa).Ok?
    requires i < |info.running| && j < |other.running| && info.running[i] != other.running[j]
    requires info.running[i] in Candidates(info, |info.allLogic|)
    requires other.running[j] in Candidates(other, |other.allLogic|)
    requires var p, q := ExtendedPool(info, numa, info.running[i]), ExtendedPool(other, numa, other.running[j]);
             (p == q && Distinct(AffinityOf(info, info.running[i]))) || Disjoint(p, q)
    ensures |TopoPools(info, numa).value| == |info.running| && |TopoPools(other, numa).value| == |other.running|
    ensures Disjoint(TopoPools(info, numa).value[i].1, TopoPools(other, numa).value[j].1)
  {
    SameCandidates(info, other, numa);
    var npus := Candidates(info, |info.allLogic|);
    var pools := ExtendAll(info, numa, npus).value.0;
    var a, b := IndexOf(npus, info.running[i]), IndexOf(npus, other.running[j]);
    if pools[a] == pools[b] && Distinct(AffinityOf(info, info.running[i])) {
      ExtendAllNoRepeats(info, numa, npus, a);
      TwoMembers(pools, a, b);
      SamePoolIsSplit(pools, pools[a]);
      MembersApart(pools, pools[a], a, b);
    } else {
      FinalsApart(pools, a, b);
    }
  }

  lemma FinalInPool(pools: seq<seq<int>>, i: nat, x: int)
    requires i < |pools| && x in FinalPool(pools, i)
    ensures x in pools[i]
  {
    var n := Count(pools, pools[i]);
    RankBelow(pools, i);
    if n != 1 {
      var k := ShareAt(Sorted(pools[i]), n, Count(pools[..i], pools[i]), x);
      assert x in Sorted(pools[i]);
    }
  }

  lemma FinalsApart(pools: seq<seq<int>>, i: nat, j: nat)
    requires i < |pools| && j < |pools| && Disjoint(pools[i], pools[j])
    ensures Disjoint(FinalPool(pools, i), FinalPool(pools, j))
  {
    forall x | x in FinalPool(pools, i)
      ensures x !in FinalPool(pools, j)
    {
      FinalInPool(pools, i, x);
      if x in FinalPool(pools, j) {
        FinalInPool(pools, j, x);
      }
    }
  }

  lemma MembersApart(pools: seq<seq<int>>, pool: seq<int>, a: nat, b: nat)
    requires MembersDisjoint(pools, pool) && a < |pools| && b < |pools| && a != b && pools[a] == pools[b] == pool
    ensures Disjoint(FinalPool(pools, a), FinalPool(pools, b))
  {
    if a < b {
      assert Disjoint(FinalPool(pools, a), FinalPool(pools, b));
    } else {
      assert Disjoint(FinalPool(pools, b), FinalPool(pools, a));
    }
  }

  lemma CountTwo(pools: seq<seq<int>>, pool: seq<int>)
    requires |pools| == 2 && pools[0] == pools[1] == pool
    ensures Count(pools, pool) == 2
  {
    TwoMembers(pools, 0, 1);
    CountZero(pools, pool);
  }

  // Two visible NPUs with one ordered pool get its halves.
  lemma HalvesOf(pool: seq<int>, a: seq<int>, b: seq<int>)
    requires Ordered(pool) && pool == a + b && |a| == |b|
    ensures FinalPool([pool, pool], 0) == a && FinalPool([pool, pool], 1) == b
  {
    var pools := [pool, pool];
    CountTwo(pools, pool);
    SortedOfOrdered(pool);
    CountStep(pools, 0, pool);
    assert pools[..0] == [];
    assert |pool| / 2 == |a|;
  }

  lemma ExtendNext(info: DeviceInfo, numa: Numa, npus: seq<int>, pools: seq<seq<int>>, npu: int, pool: seq<int>)
    requires ExtendAll(info, numa, npus) == Ok((pools, numa)) && ExtendOne(numa, info, npu) == Ok((pool, numa))
    ensures ExtendAll(info, numa, npus + [npu]) == Ok((pools + [pool], numa))
  {
    assert (npus + [npu])[..|npus|] == npus;
  }

  lemma ExtendTwo(info: DeviceInfo, numa: Numa, p: seq<int>, q: seq<int>)
    requires ExtendOne(numa, info, 0) == Ok((p, numa)) && ExtendOne(numa, info, 1) == Ok((q, numa))
    ensures ExtendAll(info, numa, [0, 1]) == Ok(([p, q], numa))
  {
    ExtendNext(info, numa, [], [], 0, p);
    assert [] + [0] == [0] && [] + [p] == [p];
    ExtendNext(info, numa, [0], [p], 1, q);
    assert [0] + [1] == [0, 1] && [p] + [q] == [p, q];
  }

  lemma TwoCandidates(info: DeviceInfo)
    requires info.allLogic == info.running == [0, 1]
    ensures Candidates(info, 2) == [0, 1]
  {
    assert info.allLogic[0] in info.running && info.allLogic[1] in info.running;
    assert Candidates(info, 1) == [0];
  }

  lemma PoolsOfTwo(info: DeviceInfo, numa: Numa, p: seq<int>, q: seq<int>)
    requires info.allLogic == info.running == [0, 1]
    requires ExtendOne(numa, info, 0) == Ok((p, numa)) && ExtendOne(numa, info, 1) == Ok((q, numa))
    ensures TopoPools(info, numa) == Ok([(0, FinalPool([p, q], 0)), (1, FinalPool([p, q], 1))])
  {
    TwoCandidates(info);
    ExtendTwo(info, numa, p, q);
    VisibleTwo([p, q]);
  }

  lemma VisibleTwo(pools: seq<seq<int>>)
    requires |pools| == 2
    ensures KeepVisible([0, 1], [0, 1], pools) == Ok([(0, FinalPool(pools, 0)), (1, FinalPool(pools, 1))])
  {
    assert IndexOf([0, 1], 0) == 0 && IndexOf([0, 1], 1) == 1;
    var kept := KeepVisible([0, 1], [0, 1], pools).value;
    assert kept == [(0, FinalPool(pools, 0)), (1, FinalPool(pools, 1))];
  }

  // An affinity inside the cpuset that spreads over two nodes is kept as it is listed.
  lemma SpreadIsKept(info: DeviceInfo, numa: Numa, npu: int, i: nat)
    requires var cpus := AffinityOf(info, npu);
             && (forall k :: 0 <= k < |cpus| ==> cpus[k] in info.allowed && cpus[k] in numa.cpuNode)
             && i < |cpus| && numa.cpuNode[cpus[i]] != numa.cpuNode[cpus[0]]
    ensures ExtendOne(numa, info, npu) == Ok((AffinityOf(info, npu), numa))
  {
    FilterAll(AffinityOf(info, npu), Elements(info.allowed));
  }

  // Affinity 0-4,4-8: CPU 4 is listed twice.
  const OVERLAPPING: seq<int> := [0, 1, 2, 3, 4, 4, 5, 6, 7, 8]

  // Two NPUs with that affinity, and a host with CPUs 0-3 on one node and 4-8 on the other.
  const TWO_NPUS := DeviceInfo([0, 1, 2, 3, 4, 5, 6, 7, 8], [0, 1], map[0 := OVERLAPPING, 1 := OVERLAPPING], [0, 1])
  const TWO_NODES := Numa(map[0 := 0, 1 := 0, 2 := 0, 3 := 0, 4 := 1, 5 := 1, 6 := 1, 7 := 1, 8 := 1],
                          map[0 := [0, 1, 2, 3], 1 := [4, 5, 6, 7, 8]])

  lemma OverlappingExtends(npu: int)
    requires npu == 0 || npu == 1
    ensures ExtendOne(TWO_NODES, TWO_NPUS, npu) == Ok((OVERLAPPING, TWO_NODES))
  {
    SpreadIsKept(TWO_NPUS, TWO_NODES, npu, 4);
  }

  // With a CPU listed twice, two NPUs with full pools are given the same CPU, for different roles.
  lemma RepeatedCpuIsShared()
    ensures TWO_NPUS.Valid()
    ensures TopoPools(TWO_NPUS, TWO_NODES) == Ok([(0, [0, 1, 2, 3, 4]), (1, [4, 5, 6, 7, 8])])
    ensures !Exclusive([(0, [0, 1, 2, 3, 4])], [(1, [4, 5, 6, 7, 8])])
  {
    assert TWO_NPUS.Valid() by {
      TwoNpusValid();
    }
    OverlappingPools();
    CpuFourTwice();
  }

  lemma TwoNpusValid()
    ensures TWO_NPUS.Valid()
  {
    assert TWO_NPUS.allLogic == TWO_NPUS.running == [0, 1];
  }

  lemma OverlappingHalves()
    ensures FinalPool([OVERLAPPING, OVERLAPPING], 0) == [0, 1, 2, 3, 4]
    ensures FinalPool([OVERLAPPING, OVERLAPPING], 1) == [4, 5, 6, 7, 8]
  {
    var a, b := [0, 1, 2, 3, 4], [4, 5, 6, 7, 8];
    assert OVERLAPPING == a + b;
    HalvesOf(OVERLAPPING, a, b);
  }

  lemma OverlappingPools()
    ensures TopoPools(TWO_NPUS, TWO_NODES) == Ok([(0, [0, 1, 2, 3, 4]), (1, [4, 5, 6, 7, 8])])
  {
    OverlappingExtends(0);
    OverlappingExtends(1);
    PoolsOfTwo(TWO_NPUS, TWO_NODES, OVERLAPPING, OVERLAPPING);
    OverlappingHalves();
  }

  lemma CpuFourTwice()
    ensures !Exclusive([(0, [0, 1, 2, 3, 4])], [(1, [4, 5, 6, 7, 8])])
  {
    var p, q := [(0, [0, 1, 2, 3, 4])], [(1, [4, 5, 6, 7, 8])];
    assert RoleCpus(p[0].1, Release)[0] == 4 && RoleCpus(q[0].1, Irq)[0] == 4;
    assert 4 in RoleCpus(p[0].1, Release) && 4 in RoleCpus(q[0].1, Irq);
  }

  lemma TwoMembers(pools: seq<seq<int>>, i: nat, j: nat)
    requires i < |pools| && j < |pools| && i != j && pools[i] == pools[j]
    ensures Count(pools, pools[i]) >= 2
  {
    if i < j {
      RanksOrdered(pools, i, j);
      RankBelow(pools, j);
    } else {
      RanksOrdered(pools, j, i);
      RankBelow(pools, i);
    }
  }
}
