// Processes that share a host in topology mode: exactly when no CPU goes to two NPUs.
module SharedHost {
  import opened Text
  import opened Seqs
  import opened Ints
  import opened CpuSlices
  import opened CpuPools

  // ---------- The final pools of a list of extended pools ----------

  // Extended pools that differ have no CPU in common.
  ghost predicate PoolsApart(pools: seq<seq<int>>) {
    forall i, j :: 0 <= i < j < |pools| && pools[i] != pools[j] ==> Disjoint(pools[i], pools[j])
  }

  // Where a pool is split, no CPU listed twice straddles a cut.
  ghost predicate PoolsCut(pools: seq<seq<int>>) {
    forall i :: 0 <= i < |pools| && Count(pools, pools[i]) >= 2 ==> CleanCuts(Sorted(pools[i]), Count(pools, pools[i]))
  }

  ghost predicate FinalsDisjoint(pools: seq<seq<int>>) {
    forall i, j :: 0 <= i < j < |pools| ==> Disjoint(FinalPool(pools, i), FinalPool(pools, j))
  }

  lemma {:induction false} MemberHas(pools: seq<seq<int>>, given: seq<seq<int>>, pool: seq<int>, x: int, k: nat)
    returns (i: nat)
    requires k <= |pools| == |given| && x in MembersJoined(pools, given, pool, k)
    ensures i < k && pools[i] == pool && x in given[i]
  {
    if x in MembersJoined(pools, given, pool, k - 1) {
      i := MemberHas(pools, given, pool, x, k - 1);
    } else {
      i := k - 1;
    }
  }

  // A CPU of an extended pool goes to some NPU that has this pool.
  lemma SomeoneHas(pools: seq<seq<int>>, i: nat, x: int) returns (j: nat)
    requires i < |pools| && x in pools[i]
    ensures j < |pools| && pools[j] == pools[i] && x in FinalPool(pools, j)
  {
    RankBelow(pools, i);
    if Count(pools, pools[i]) == 1 {
      j := i;
    } else {
      SamePoolIsSplit(pools, pools[i]);
      assert x in Sorted(pools[i]);
      j := MemberHas(pools, Finals(pools), pools[i], x, |pools|);
    }
  }

  lemma TwoDisjoint(pools: seq<seq<int>>, a: nat, b: nat)
    requires FinalsDisjoint(pools) && a < |pools| && b < |pools| && a != b
    ensures Disjoint(FinalPool(pools, a), FinalPool(pools, b))
  {
    if a < b {
      assert Disjoint(FinalPool(pools, a), FinalPool(pools, b));
    } else {
      assert Disjoint(FinalPool(pools, b), FinalPool(pools, a));
    }
  }

  lemma DisjointAreApart(pools: seq<seq<int>>)
    requires FinalsDisjoint(pools)
    ensures PoolsApart(pools)
  {
    forall i, j, x | 0 <= i < j < |pools| && pools[i] != pools[j] && x in pools[i]
      ensures x !in pools[j]
    {
      if x in pools[j] {
        var a := SomeoneHas(pools, i, x);
        var b := SomeoneHas(pools, j, x);
        TwoDisjoint(pools, a, b);
      }
    }
  }

  lemma DisjointAreCut(pools: seq<seq<int>>)
    requires FinalsDisjoint(pools)
    ensures PoolsCut(pools)
  {
    forall i | 0 <= i < |pools| && Count(pools, pools[i]) >= 2
      ensures CleanCuts(Sorted(pools[i]), Count(pools, pools[i]))
    {
      assert MembersDisjoint(pools, pools[i]);
      SamePoolIsSplit(pools, pools[i]);
    }
  }

  lemma TwoFinals(pools: seq<seq<int>>, i: nat, j: nat)
    requires PoolsApart(pools) && PoolsCut(pools) && i < j < |pools|
    ensures Disjoint(FinalPool(pools, i), FinalPool(pools, j))
  {
    if pools[i] == pools[j] {
      TwoMembers(pools, i, j);
      SamePoolIsSplit(pools, pools[i]);
      MembersApart(pools, pools[i], i, j);
    } else {
      FinalsApart(pools, i, j);
    }
  }

  // All NPUs get different CPUs exactly when different pools are apart and equal ones cut cleanly.
  lemma FinalsDisjointWhen(pools: seq<seq<int>>)
    ensures FinalsDisjoint(pools) <==> PoolsApart(pools) && PoolsCut(pools)
  {
    if FinalsDisjoint(pools) {
      DisjointAreApart(pools);
      DisjointAreCut(pools);
    }
    if PoolsApart(pools) && PoolsCut(pools) {
      forall i, j | 0 <= i < j < |pools|
        ensures Disjoint(FinalPool(pools, i), FinalPool(pools, j))
      {
        TwoFinals(pools, i, j);
      }
    }
  }

  // ---------- All processes of a host ----------

  // The extended pools of a host's candidates; they do not depend on who sees which NPU.
  ghost function HostPools(info: DeviceInfo, numa: Numa): seq<seq<int>>
    requires TopoPools(info, numa).Ok?
  {
    ExtendAll(info, numa, Candidates(info, |info.allLogic|)).value.0
  }

  // Processes that see p and q give different NPUs different CPUs, if they succeed.
  ghost predicate ProcessesApart(info: DeviceInfo, numa: Numa, p: seq<int>, q: seq<int>) {
    var a, b := info.(running := p), info.(running := q);
    a.Valid() && b.Valid() && TopoPools(a, numa).Ok? && TopoPools(b, numa).Ok? ==>
      PairsApart(TopoPools(a, numa).value, TopoPools(b, numa).value)
  }

  ghost predicate PairsApart(a: Pools, b: Pools) {
    forall i, j :: 0 <= i < |a| && 0 <= j < |b| && a[i].0 != b[j].0 ==> Disjoint(a[i].1, b[j].1)
  }

  lemma FinalsOfTwo(pools: seq<seq<int>>, npus: seq<int>, m: int, n: int)
    requires FinalsDisjoint(pools) && |npus| == |pools| && m in npus && n in npus && m != n
    ensures Disjoint(FinalPool(pools, IndexOf(npus, m)), FinalPool(pools, IndexOf(npus, n)))
  {
    TwoDisjoint(pools, IndexOf(npus, m), IndexOf(npus, n));
  }

  lemma DisjointForAll(info: DeviceInfo, numa: Numa, p: seq<int>, q: seq<int>)
    requires TopoPools(info, numa).Ok? && FinalsDisjoint(HostPools(info, numa))
    ensures ProcessesApart(info, numa, p, q)
  {
    var a, b := info.(running := p), info.(running := q);
    if a.Valid() && b.Valid() && TopoPools(a, numa).Ok? && TopoPools(b, numa).Ok? {
      SameCandidates(info, a, numa);
      SameCandidates(info, b, numa);
      var x, y := TopoPools(a, numa).value, TopoPools(b, numa).value;
      forall i, j | 0 <= i < |x| && 0 <= j < |y| && x[i].0 != y[j].0
        ensures Disjoint(x[i].1, y[j].1)
      {
        FinalsOfTwo(HostPools(info, numa), Candidates(info, |info.allLogic|), p[i], q[j]);
      }
    }
  }

  lemma {:induction false} CandidatesAre(info: DeviceInfo, k: nat)
    requires k <= |info.allLogic|
    ensures forall npu :: npu in Candidates(info, k) ==> IsCandidate(info, npu) && npu in info.allLogic
  {
    if k == 0 {
    } else {
      CandidatesAre(info, k - 1);
    }
  }

  // A process that sees one candidate alone has the same candidates.
  lemma AloneSameCandidates(info: DeviceInfo, numa: Numa, npu: int)
    requires TopoPools(info, numa).Ok? && npu in Candidates(info, |info.allLogic|)
    ensures Candidates(info.(running := [npu]), |info.allLogic|) == Candidates(info, |info.allLogic|)
  {
    var n, alone := |info.allLogic|, info.(running := [npu]);
    forall m | m in Candidates(info, n)
      ensures Overlaps(info, m)
    {
      ExtendAllOverlap(info, numa, Candidates(info, n), m);
    }
    CandidatesAre(alone, n);
    forall m | m in Candidates(alone, n)
      ensures Overlaps(alone, m)
    {
      assert AffinityOf(info, m) == AffinityOf(alone, m);
      assert IsCandidate(alone, m);
      assert m == npu ==> Overlaps(info, m);
    }
    CandidatesOverlap(info, alone, n);
  }

  lemma OneVisible(npus: seq<int>, pools: seq<seq<int>>, k: nat)
    requires Distinct(npus) && |npus| == |pools| && k < |npus|
    ensures KeepVisible([npus[k]], npus, pools) == Ok([(npus[k], FinalPool(pools, k))])
  {
    assert IndexOf(npus, npus[k]) == k;
    assert KeepVisible([npus[k]], npus, pools).value == [(npus[k], FinalPool(pools, k))];
  }

  lemma AloneSucceeds(info: DeviceInfo, numa: Numa, k: nat)
    requires info.Valid() && TopoPools(info, numa).Ok? && k < |Candidates(info, |info.allLogic|)|
    ensures var npu := Candidates(info, |info.allLogic|)[k];
            && info.(running := [npu]).Valid()
            && TopoPools(info.(running := [npu]), numa) == Ok([(npu, FinalPool(HostPools(info, numa), k))])
  {
    var npus := Candidates(info, |info.allLogic|);
    var npu := npus[k];
    CandidatesAre(info, |info.allLogic|);
    CandidatesDistinct(info, |info.allLogic|);
    AloneSameCandidates(info, numa, npu);
    ExtendAllSame(info, info.(running := [npu]), numa, npus);
    OneVisible(npus, HostPools(info, numa), k);
  }

  lemma ApartForAll(info: DeviceInfo, numa: Numa)
    requires info.Valid() && TopoPools(info, numa).Ok? && forall p, q :: ProcessesApart(info, numa, p, q)
    ensures FinalsDisjoint(HostPools(info, numa))
  {
    var npus, pools := Candidates(info, |info.allLogic|), HostPools(info, numa);
    CandidatesDistinct(info, |info.allLogic|);
    forall i, j | 0 <= i < j < |pools|
      ensures Disjoint(FinalPool(pools, i), FinalPool(pools, j))
    {
      AloneSucceeds(info, numa, i);
      AloneSucceeds(info, numa, j);
      assert ProcessesApart(info, numa, [npus[i]], [npus[j]]);
      assert PairsApart([(npus[i], FinalPool(pools, i))], [(npus[j], FinalPool(pools, j))]);
      PairApart(npus[i], FinalPool(pools, i), npus[j], FinalPool(pools, j));
    }
  }

  lemma PairApart(m: int, a: seq<int>, n: int, b: seq<int>)
    requires PairsApart([(m, a)], [(n, b)]) && m != n
    ensures Disjoint(a, b)
  {
    var x, y := [(m, a)], [(n, b)];
    assert x[0].0 != y[0].0;
  }

  // On a host where topology mode works, no two processes ever give one CPU to two NPUs, whichever NPUs
  // they see, exactly when different extended pools have no common CPU and shared ones are cut cleanly.
  lemma HostExclusiveWhen(info: DeviceInfo, numa: Numa)
    requires info.Valid() && TopoPools(info, numa).Ok?
    ensures (forall p, q :: ProcessesApart(info, numa, p, q)) <==>
            PoolsApart(HostPools(info, numa)) && PoolsCut(HostPools(info, numa))
  {
    FinalsDisjointWhen(HostPools(info, numa));
    if forall p, q :: ProcessesApart(info, numa, p, q) {
      ApartForAll(info, numa);
    }
    if FinalsDisjoint(HostPools(info, numa)) {
      forall p, q
        ensures ProcessesApart(info, numa, p, q)
      {
        DisjointForAll(info, numa, p, q);
      }
    }
  }

  // ---------- Extended pools from affinity and NUMA nodes ----------

  // Nodes are numbered from 0 without a gap, so the next node always exists.
  ghost predicate NodesNumbered(numa: Numa) {
    forall n :: 0 <= n < |numa.nodeCpus| ==> n in numa.nodeCpus
  }

  ghost predicate OnOneNode(numa: Numa, cpus: seq<int>) {
    && cpus != [] && (forall i :: 0 <= i < |cpus| ==> cpus[i] in numa.cpuNode)
    && forall i :: 0 <= i < |cpus| ==> numa.cpuNode[cpus[i]] == numa.cpuNode[cpus[0]]
  }

  // x is an allowed CPU of the NPU's affinity, or, when those lie on one node, of the node after it.
  ghost predicate Reaches(info: DeviceInfo, numa: Numa, npu: int, x: int) {
    var base := BaseCpus(info, npu);
    || x in base
    || (&& OnOneNode(numa, base) && |numa.nodeCpus| > 0
        && var next := (numa.cpuNode[base[0]] + 1) % |numa.nodeCpus|;
           next in numa.nodeCpus && x in numa.nodeCpus[next] && x in info.allowed)
  }

  lemma OneReach(info: DeviceInfo, numa: Numa, npu: int, x: int)
    requires NodesNumbered(numa) && ExtendOne(numa, info, npu).Ok?
    ensures ExtendOne(numa, info, npu).value.1 == numa
    ensures x in ExtendOne(numa, info, npu).value.0 <==> Reaches(info, numa, npu, x)
  {
    var base := BaseCpus(info, npu);
    if OnOneNode(numa, base) {
      var more := numa.nodeCpus[(numa.cpuNode[base[0]] + 1) % |numa.nodeCpus|];
      FilterHas(more, Elements(info.allowed));
      assert ExtendOne(numa, info, npu).value.0 == SortedSet(base + Filter(more, Elements(info.allowed)));
    }
  }

  // On such a host the extended pool of an NPU holds exactly the CPUs it reaches.
  lemma {:induction false} PoolIsReach(info: DeviceInfo, numa: Numa, npus: seq<int>, i: nat, x: int)
    requires NodesNumbered(numa) && ExtendAll(info, numa, npus).Ok? && i < |npus|
    ensures ExtendAll(info, numa, npus).value.1 == numa
    ensures x in ExtendAll(info, numa, npus).value.0[i] <==> Reaches(info, numa, npus[i], x)
  {
    var init, last := npus[..|npus| - 1], npus[|npus| - 1];
    if init != [] {
      PoolIsReach(info, numa, init, if i < |init| then i else 0, x);
    }
    OneReach(info, numa, last, x);
  }

  // No CPU is reached by both.
  ghost predicate ReachApart(info: DeviceInfo, numa: Numa, m: int, n: int) {
    forall x :: Reaches(info, numa, m, x) ==> !Reaches(info, numa, n, x)
  }

  lemma TwoReach(info: DeviceInfo, numa: Numa, npus: seq<int>, i: nat, j: nat)
    requires NodesNumbered(numa) && ExtendAll(info, numa, npus).Ok? && i < |npus| && j < |npus|
    ensures var pools := ExtendAll(info, numa, npus).value.0;
            Disjoint(pools[i], pools[j]) <==> ReachApart(info, numa, npus[i], npus[j])
  {
    forall x
      ensures var pools := ExtendAll(info, numa, npus).value.0;
              && (x in pools[i] <==> Reaches(info, numa, npus[i], x))
              && (x in pools[j] <==> Reaches(info, numa, npus[j], x))
    {
      PoolIsReach(info, numa, npus, i, x);
      PoolIsReach(info, numa, npus, j, x);
    }
  }

  // Whether different pools are apart can be read off the affinities and the nodes.
  lemma ApartByReach(info: DeviceInfo, numa: Numa)
    requires TopoPools(info, numa).Ok? && NodesNumbered(numa)
    ensures var npus, pools := Candidates(info, |info.allLogic|), HostPools(info, numa);
            PoolsApart(pools) <==>
            forall i, j :: 0 <= i < j < |npus| && pools[i] != pools[j] ==> ReachApart(info, numa, npus[i], npus[j])
  {
    var npus, pools := Candidates(info, |info.allLogic|), HostPools(info, numa);
    forall i, j | 0 <= i < j < |npus|
      ensures Disjoint(pools[i], pools[j]) <==> ReachApart(info, numa, npus[i], npus[j])
    {
      TwoReach(info, numa, npus, i, j);
    }
  }

  lemma NoRepeatsCut(info: DeviceInfo, numa: Numa)
    requires TopoPools(info, numa).Ok?
    requires forall npu :: npu in Candidates(info, |info.allLogic|) ==> Distinct(AffinityOf(info, npu))
    ensures PoolsCut(HostPools(info, numa))
  {
    var npus, pools := Candidates(info, |info.allLogic|), HostPools(info, numa);
    forall i | 0 <= i < |pools|
      ensures CleanCuts(Sorted(pools[i]), Count(pools, pools[i]))
    {
      assert npus[i] in npus;
      ExtendAllNoRepeats(info, numa, npus, i);
      SortedDistinct(pools[i]);
      IncreasingCutsClean(Sorted(pools[i]), Count(pools, pools[i]));
    }
  }

  // With nodes numbered from 0 and no CPU listed twice, no two processes ever give one CPU to two NPUs
  // exactly when NPUs with different extended pools reach no common CPU.
  lemma HostExclusiveByReach(info: DeviceInfo, numa: Numa)
    requires info.Valid() && TopoPools(info, numa).Ok? && NodesNumbered(numa)
    requires forall npu :: npu in Candidates(info, |info.allLogic|) ==> Distinct(AffinityOf(info, npu))
    ensures var npus, pools := Candidates(info, |info.allLogic|), HostPools(info, numa);
            (forall p, q :: ProcessesApart(info, numa, p, q)) <==>
            forall i, j :: 0 <= i < j < |npus| && pools[i] != pools[j] ==> ReachApart(info, numa, npus[i], npus[j])
  {
    HostExclusiveWhen(info, numa);
    NoRepeatsCut(info, numa);
    ApartByReach(info, numa);
  }

  // ---------- Neighbouring nodes ----------

  lemma NextNodeJoins(numa: Numa, allowed: seq<int>, cpus: seq<int>, next: int)
    requires OnOneNode(numa, cpus) && |numa.nodeCpus| > 0
    requires next == (numa.cpuNode[cpus[0]] + 1) % |numa.nodeCpus| && next in numa.nodeCpus
    requires forall k :: 0 <= k < |numa.nodeCpus[next]| ==> numa.nodeCpus[next][k] in allowed
    requires Increasing(cpus + numa.nodeCpus[next])
    ensures Extend(numa, allowed, cpus) == Ok((cpus + numa.nodeCpus[next], numa))
  {
    FilterAll(numa.nodeCpus[next], Elements(allowed));
    SortedSetOfIncreasing(cpus + numa.nodeCpus[next]);
  }

  lemma TwoLonePools(p: seq<int>, q: seq<int>)
    requires p != q
    ensures FinalPool([p, q], 0) == p && FinalPool([p, q], 1) == q
  {
    var pools := [p, q];
    assert pools[..1] == [p] && [p][..0] == [];
    assert Count([p], p) == 1 && Count([p], q) == 0;
  }

  // NPU 0 on the first and NPU 1 on the second of three nodes of five CPUs, none listed twice.
  const NEIGHBOURS := DeviceInfo(Range(0, 15), [0, 1], map n | 0 <= n < 2 :: Range(5 * n, 5), [0, 1])
  const THREE_NODES := Numa(map c | 0 <= c < 15 :: c / 5, map n | 0 <= n < 3 :: Range(5 * n, 5))

  lemma ThreeNodes()
    ensures |THREE_NODES.nodeCpus| == 3 && NodesNumbered(THREE_NODES)
  {
    assert THREE_NODES.nodeCpus.Keys == {0, 1, 2};
  }

  lemma RangeIn(lo: nat, n: nat, k: nat, m: nat)
    requires lo + n <= m && k < n
    ensures Range(lo, n)[k] in Range(0, m)
  {
    assert Range(0, m)[lo + k] == Range(lo, n)[k];
  }

  lemma OnNode(n: nat)
    requires n < 3
    ensures forall k :: 0 <= k < 5 ==> Range(5 * n, 5)[k] in NEIGHBOURS.allowed
    ensures OnOneNode(THREE_NODES, Range(5 * n, 5)) && THREE_NODES.cpuNode[Range(5 * n, 5)[0]] == n
    ensures THREE_NODES.nodeCpus[n] == Range(5 * n, 5)
  {
    forall k | 0 <= k < 5
      ensures Range(5 * n, 5)[k] in NEIGHBOURS.allowed
    {
      RangeIn(5 * n, 5, k, 15);
    }
  }

  lemma NeighbourExtends(npu: nat)
    requires npu < 2
    ensures ExtendOne(THREE_NODES, NEIGHBOURS, npu) == Ok((Range(5 * npu, 10), THREE_NODES))
  {
    ThreeNodes();
    OnNode(npu);
    OnNode(npu + 1);
    FilterAll(Range(5 * npu, 5), Elements(NEIGHBOURS.allowed));
    NextNodeJoins(THREE_NODES, NEIGHBOURS.allowed, Range(5 * npu, 5), npu + 1);
    assert Range(5 * npu, 5) + Range(5 * npu + 5, 5) == Range(5 * npu, 10);
  }

  lemma NeighbourPools()
    ensures TopoPools(NEIGHBOURS, THREE_NODES) == Ok([(0, Range(0, 10)), (1, Range(5, 10))])
  {
    NeighbourExtends(0);
    NeighbourExtends(1);
    PoolsOfTwo(NEIGHBOURS, THREE_NODES, Range(0, 10), Range(5, 10));
    assert Range(0, 10)[0] != Range(5, 10)[0];
    TwoLonePools(Range(0, 10), Range(5, 10));
  }

  lemma NeighboursValid()
    ensures NEIGHBOURS.Valid()
  {
    assert NEIGHBOURS.allLogic == NEIGHBOURS.running == [0, 1];
  }

  // Each is extended by the node after its own, so CPUs 5 to 9 go to both NPUs.
  lemma NeighboursShareANode()
    ensures NEIGHBOURS.Valid() && NodesNumbered(THREE_NODES)
    ensures TopoPools(NEIGHBOURS, THREE_NODES) == Ok([(0, Range(0, 10)), (1, Range(5, 10))])
    ensures !Exclusive([(0, Range(0, 10))], [(1, Range(5, 10))])
  {
    NeighboursValid();
    ThreeNodes();
    NeighbourPools();
    var p, q := [(0, Range(0, 10))], [(1, Range(5, 10))];
    assert RoleCpus(p[0].1, Acl)[0] == 8 && RoleCpus(q[0].1, Main)[1] == 8;
    assert 8 in RoleCpus(p[0].1, Acl) && 8 in RoleCpus(q[0].1, Main);
  }
}
