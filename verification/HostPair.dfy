// Partitioning the endpoints of a host pair by NUMA nodes and storing one matching per partition.
module HostPair {
  import opened Text
  import opened Seqs
  import opened Assignment
  import opened Topology

  // ---------- Partition keys ----------

  function KeyOf(srcNuma: int, dstNuma: int): string {
    ShowInt(srcNuma) + "-" + ShowInt(dstNuma)
  }

  function ExtraKey(key: string): string {
    key + "_extra"
  }

  // The source node, a dash, the destination node.
  lemma KeyReads(s: int, d: int)
    ensures ShowInt(s) + "-" <= KeyOf(s, d) && KeyOf(s, d)[|ShowInt(s)| + 1..] == ShowInt(d)
  {
    assert KeyOf(s, d)[|ShowInt(s)| + 1..] == ShowInt(d);
  }

  lemma ShowIntShape(x: int)
    ensures ShowInt(x) != []
    ensures forall i :: 0 < i < |ShowInt(x)| ==> IsDigit(ShowInt(x)[i])
    ensures IsDigit(ShowInt(x)[|ShowInt(x)| - 1])
  {
  }

  lemma DashNotEarlier(a: string, b: string, a': string, b': string)
    requires a != [] && a + "-" + b == a' + "-" + b'
    requires forall i :: 0 < i < |a'| ==> IsDigit(a'[i])
    ensures |a| >= |a'|
  {
    assert (a + "-" + b)[|a|] == '-';
  }

  // The text key names one pair of NUMA nodes, and no partition's plain key is another's extra key.
  lemma KeysDoNotCollide(s: int, d: int, s': int, d': int)
    ensures KeyOf(s, d) == KeyOf(s', d') <==> s == s' && d == d'
    ensures ExtraKey(KeyOf(s, d)) == ExtraKey(KeyOf(s', d')) <==> s == s' && d == d'
    ensures KeyOf(s, d) != ExtraKey(KeyOf(s', d'))
  {
    var a, b, a', b' := ShowInt(s), ShowInt(d), ShowInt(s'), ShowInt(d');
    ShowIntShape(s);
    ShowIntShape(s');
    ShowIntShape(d);
    var k, k' := KeyOf(s, d), KeyOf(s', d');
    assert k[|k| - 1] == b[|b| - 1];
    assert ExtraKey(k')[|ExtraKey(k')| - 1] == 'a';
    assert ExtraKey(k)[..|k|] == k && ExtraKey(k')[..|k'|] == k';
    if k == k' {
      DashNotEarlier(a, b, a', b');
      DashNotEarlier(a', b', a, b);
      assert a == k[..|a|] == a';
      assert b == k[|a| + 1..] == b';
      ShowIntInjective(s, s');
      ShowIntInjective(d, d');
    }
  }

  // ---------- Groups ----------

  // The endpoints with a finite latency whose key this is, in order.
  ghost function Group(endpoints: seq<Endpoint>, key: string): (g: seq<Endpoint>)
    ensures AllFinite(g)
  {
    if endpoints == [] then []
    else
      var e := endpoints[|endpoints| - 1];
      var before := Group(endpoints[..|endpoints| - 1], key);
      if e.latency.Finite? && KeyOf(e.srcNuma, e.dstNuma) == key then before + [e] else before
  }

  lemma {:induction false} GroupMembers(endpoints: seq<Endpoint>, key: string)
    ensures forall e :: e in Group(endpoints, key) <==>
              e in endpoints && e.latency.Finite? && KeyOf(e.srcNuma, e.dstNuma) == key
  {
    if endpoints == [] {
    } else {
      GroupMembers(endpoints[..|endpoints| - 1], key);
      assert endpoints == endpoints[..|endpoints| - 1] + [endpoints[|endpoints| - 1]];
    }
  }

  // A partition holds the endpoints of finite latency from its source node to its destination node.
  lemma PartitionMembers(endpoints: seq<Endpoint>, s: int, d: int)
    ensures forall e :: e in Group(endpoints, KeyOf(s, d)) <==>
              e in endpoints && e.latency.Finite? && e.srcNuma == s && e.dstNuma == d
  {
    GroupMembers(endpoints, KeyOf(s, d));
    forall e | e in endpoints
      ensures KeyOf(e.srcNuma, e.dstNuma) == KeyOf(s, d) <==> e.srcNuma == s && e.dstNuma == d
    {
      KeysDoNotCollide(e.srcNuma, e.dstNuma, s, d);
    }
  }

  // They keep their order: the group of a list in two parts is that of the first, then that of the second.
  lemma {:induction false} GroupOfParts(a: seq<Endpoint>, b: seq<Endpoint>, key: string)
    ensures Group(a + b, key) == Group(a, key) + Group(b, key)
  {
    if b == [] {
      assert a + b == a;
    } else {
      var init, e := b[..|b| - 1], b[|b| - 1];
      GroupOfParts(a, init, key);
      GroupSnoc(init, e, key);
      GroupSnoc(a + init, e, key);
      Rejoin(a, init, [e]);
      assert init + [e] == b;
      Rejoin(Group(a, key), Group(init, key), Own(e, key));
    }
  }

  lemma Rejoin(a: seq<Endpoint>, b: seq<Endpoint>, c: seq<Endpoint>)
    ensures a + b + c == a + (b + c)
  {
  }

  ghost function Own(e: Endpoint, key: string): seq<Endpoint> {
    if e.latency.Finite? && KeyOf(e.srcNuma, e.dstNuma) == key then [e] else []
  }

  lemma GroupSnoc(a: seq<Endpoint>, e: Endpoint, key: string)
    ensures Group(a + [e], key) == Group(a, key) + Own(e, key)
  {
    assert (a + [e])[..|a|] == a;
  }

  // Dictionary of endpoint lists, keys in insertion order.
  datatype Partition = Partition(keys: seq<string>, groups: map<string, seq<Endpoint>>)

  ghost predicate Partitions(p: Partition, endpoints: seq<Endpoint>) {
    && Distinct(p.keys)
    && (forall k :: k in p.groups <==> k in p.keys)
    && (forall k :: k in p.keys <==> Group(endpoints, k) != [])
    && (forall k :: k in p.groups ==> p.groups[k] == Group(endpoints, k))
  }

  lemma GroupStep(endpoints: seq<Endpoint>, i: nat, key: string)
    requires i < |endpoints|
    ensures Group(endpoints[..i + 1], key) == Group(endpoints[..i], key) +
            (if endpoints[i].latency.Finite? && KeyOf(endpoints[i].srcNuma, endpoints[i].dstNuma) == key
             then [endpoints[i]] else [])
  {
    assert endpoints[..i + 1][..i] == endpoints[..i];
  }

  function AddTo(p: Partition, key: string, ep: Endpoint): Partition
    requires forall k :: k in p.keys ==> k in p.groups
  {
    if key in p.groups then p.(groups := p.groups[key := p.groups[key] + [ep]])
    else Partition(p.keys + [key], p.groups[key := [ep]])
  }

  lemma AddToPartition(p: Partition, before: seq<Endpoint>, after: seq<Endpoint>, key: string, ep: Endpoint)
    requires Partitions(p, before)
    requires forall k :: Group(after, k) == Group(before, k) + (if k == key then [ep] else [])
    ensures Partitions(AddTo(p, key, ep), after)
  {
    var q := AddTo(p, key, ep);
    AddToKeys(p, key, ep);
    forall k
      ensures k in q.keys <==> Group(after, k) != []
      ensures k in q.groups ==> q.groups[k] == Group(after, k)
    {
      assert Group(after, k) == Group(before, k) + (if k == key then [ep] else []);
      if k != key {
        assert Group(before, k) + [] == Group(before, k);
      }
    }
  }

  lemma AddToKeys(p: Partition, key: string, ep: Endpoint)
    requires Distinct(p.keys) && forall k :: k in p.groups <==> k in p.keys
    ensures var q := AddTo(p, key, ep);
            && Distinct(q.keys) && (forall k :: k in q.groups <==> k in q.keys)
            && (forall k :: k in q.keys <==> k == key || k in p.keys)
  {
  }

  // A latency of None makes isfinite raise a TypeError.
  method BuildPartitionMap(endpoints: seq<Endpoint>) returns (r: Result<Partition, string>)
    ensures r.Ok? <==> forall e :: e in endpoints ==> !e.latency.Null?
    ensures r.Ok? ==> Partitions(r.value, endpoints)
  {
    var p := Partition([], map[]);
    for i := 0 to |endpoints|
      invariant Partitions(p, endpoints[..i])
      invariant forall e :: e in endpoints[..i] ==> !e.latency.Null?
    {
      var ep := endpoints[i];
      forall k {
        GroupStep(endpoints, i, k);
      }
      assert endpoints[..i + 1] == endpoints[..i] + [ep];
      if ep.latency.Null? {
        return Err("TypeError");
      }
      if ep.latency.Finite? {
        var key := KeyOf(ep.srcNuma, ep.dstNuma);
        AddToPartition(p, endpoints[..i], endpoints[..i + 1], key, ep);
        p := AddTo(p, key, ep);
      }
    }
    assert endpoints[..|endpoints|] == endpoints;
    return Ok(p);
  }

  // ---------- One partition ----------

  // The endpoints none of whose devices is used.
  function Unused(part: seq<Endpoint>, usedSrc: set<string>, usedDst: set<string>): (r: seq<Endpoint>)
    ensures forall e :: e in r ==> e in part && e.srcDev !in usedSrc && e.dstDev !in usedDst
    ensures usedSrc == {} && usedDst == {} ==> r == part
  {
    if part == [] then []
    else
      var rest := Unused(part[1..], usedSrc, usedDst);
      assert part == [part[0]] + part[1..];
      if part[0].srcDev !in usedSrc && part[0].dstDev !in usedDst then [part[0]] + rest else rest
  }

  lemma {:induction false} SameSize(xs: seq<string>, ys: seq<string>, y: string)
    requires Distinct(xs) && Distinct(ys) && |xs| >= |ys| && y in ys
    requires forall x :: x in xs ==> x in ys
    ensures y in xs
  {
    if xs == [] {
    } else {
      var x, xs' := xs[|xs| - 1], xs[..|xs| - 1];
      assert x in xs;
      var i := IndexOf(ys, x);
      var ys' := ys[..i] + ys[i + 1..];
      assert forall z :: z in ys' <==> z in ys && z != x by {
        assert ys == ys[..i] + [x] + ys[i + 1..];
      }
      assert Distinct(ys');
      if y != x {
        SameSize(xs', ys', y);
      }
    }
  }

  lemma CoveredSources(part: seq<Endpoint>, m: seq<Endpoint>, e: Endpoint)
    requires Matching(part, m) && CoversAll(part, m) && e in part
    ensures exists i :: 0 <= i < |m| && m[i].srcDev == e.srcDev
  {
    var xs := SrcNames(m);
    forall x | x in xs
      ensures x in SrcDevices(part)
    {
      var i :| 0 <= i < |m| && m[i].srcDev == x;
      assert LastMeasured(part, m[i].srcDev, m[i].dstDev) == Some(m[i]);
    }
    assert forall i :: 0 <= i < |xs| ==> xs[i] == m[i].srcDev;
    SameSize(xs, SrcDevices(part), e.srcDev);
  }

  lemma NothingLeft(part: seq<Endpoint>, m: seq<Endpoint>, usedSrc: set<string>, usedDst: set<string>)
    requires Matching(part, m) && CoversAll(part, m)
    requires forall i :: 0 <= i < |m| ==> m[i].srcDev in usedSrc
    ensures Unused(part, usedSrc, usedDst) == []
  {
    var r := Unused(part, usedSrc, usedDst);
    if r != [] {
      var e := r[0];
      assert e in r;
      CoveredSources(part, m, e);
    }
  }

  lemma NoMatchingOfNothing(m: seq<Endpoint>)
    requires Matching([], m)
    ensures m == []
  {
    assert |m| > 0 ==> LastMeasured([], m[0].srcDev, m[0].dstDev).None?;
  }

  // A measured pair alone is a matching, so a best matching of a non-empty group has a pair.
  lemma BestIsNotEmpty(part: seq<Endpoint>, best: seq<Endpoint>)
    requires part != [] && AllFinite(part) && BestMatching(part, best)
    ensures best != []
  {
    var e := part[0];
    assert e in part;
    var one := [LastMeasured(part, e.srcDev, e.dstDev).value];
    assert Matching(part, one);
    MatchingIsFinite(part, one);
  }

  // What one partition contributes: a complete matching under its plain key, or a partial one under
  // its extra key, never both; under comparable latencies exactly one of them, and the best there is.
  ghost predicate PartitionStored(part: seq<Endpoint>, plain: Option<seq<Endpoint>>, extra: Option<seq<Endpoint>>)
    requires AllFinite(part)
  {
    && (plain.None? || extra.None?)
    && (plain.Some? ==> plain.value != [] && Matching(part, plain.value) && CoversAll(part, plain.value))
    && (extra.Some? ==> extra.value != [] && Matching(part, extra.value))
    && (Comparable(part) ==>
          && (plain.Some? <==> HasPerfectMatching(part))
          && (extra.Some? <==> !HasPerfectMatching(part))
          && (plain.Some? ==> BestMatching(part, plain.value))
          && (extra.Some? ==> BestMatching(part, extra.value)))
  }

  method SolvePartition(part: seq<Endpoint>, solver: Matrix -> seq<int>)
    returns (plain: Option<seq<Endpoint>>, extra: Option<seq<Endpoint>>)
    requires AllFinite(part) && part != [] && SolvesAssignment(solver)
    ensures PartitionStored(part, plain, extra)
  {
    var optimal := SolvePartitionGroup(part, false, solver);
    plain := if optimal != [] then Some(optimal) else None;
    var usedSrc := set e | e in optimal :: e.srcDev;
    var usedDst := set e | e in optimal :: e.dstDev;
    var extras := Unused(part, usedSrc, usedDst);
    var extraOpt := SolvePartitionGroup(extras, true, solver);
    extra := if extraOpt != [] then Some(extraOpt) else None;
    if optimal != [] {
      assert forall i :: 0 <= i < |optimal| ==> optimal[i] in optimal;
      NothingLeft(part, optimal, usedSrc, usedDst);
      NoMatchingOfNothing(extraOpt);
    } else {
      assert extras == part;
      if Comparable(part) {
        BestIsNotEmpty(part, extraOpt);
      }
    }
  }

  // ---------- process_host_pair ----------

  ghost function Lookup(m: map<string, seq<Endpoint>>, k: string): Option<seq<Endpoint>> {
    if k in m then Some(m[k]) else None
  }

  // Every partition has its entry and there are no other entries.
  ghost predicate AllStored(endpoints: seq<Endpoint>, result: map<string, seq<Endpoint>>) {
    && (forall s: int, d: int :: Group(endpoints, KeyOf(s, d)) != [] ==>
          PartitionStored(Group(endpoints, KeyOf(s, d)), Lookup(result, KeyOf(s, d)),
                          Lookup(result, ExtraKey(KeyOf(s, d)))))
    && (forall k :: k in result ==> exists s: int, d: int ::
          Group(endpoints, KeyOf(s, d)) != [] && (k == KeyOf(s, d) || k == ExtraKey(KeyOf(s, d))))
  }

  // The plain and extra keys of the partitions are all different.
  ghost predicate KeysApart(keys: seq<string>, extras: seq<string>) {
    && |keys| == |extras| && Distinct(keys) && Distinct(extras)
    && (forall i, j :: 0 <= i < |keys| && 0 <= j < |keys| ==> keys[i] != extras[j])
  }

  ghost predicate OnlyUpTo(keys: seq<string>, extras: seq<string>, i: nat, result: map<string, seq<Endpoint>>)
    requires i <= |keys| == |extras|
  {
    forall k :: k in result ==> exists j :: 0 <= j < i && (k == keys[j] || k == extras[j])
  }

  // The partitions under the first i keys are stored and nothing else is.
  ghost predicate StoredUpTo(endpoints: seq<Endpoint>, keys: seq<string>, extras: seq<string>, i: nat,
                             result: map<string, seq<Endpoint>>)
    requires i <= |keys| == |extras|
  {
    && (forall j :: 0 <= j < i ==>
          PartitionStored(Group(endpoints, keys[j]), Lookup(result, keys[j]), Lookup(result, extras[j])))
    && OnlyUpTo(keys, extras, i, result)
  }

  ghost function Stored(result: map<string, seq<Endpoint>>, key: string, extraKey: string,
                        plain: Option<seq<Endpoint>>, extra: Option<seq<Endpoint>>): map<string, seq<Endpoint>>
  {
    var r := if plain.Some? then result[key := plain.value] else result;
    if extra.Some? then r[extraKey := extra.value] else r
  }

  lemma StoreLookups(keys: seq<string>, extras: seq<string>, i: nat, result: map<string, seq<Endpoint>>,
                     plain: Option<seq<Endpoint>>, extra: Option<seq<Endpoint>>)
    requires KeysApart(keys, extras) && i < |keys| && OnlyUpTo(keys, extras, i, result)
    ensures var r := Stored(result, keys[i], extras[i], plain, extra);
            && OnlyUpTo(keys, extras, i + 1, r)
            && Lookup(r, keys[i]) == plain && Lookup(r, extras[i]) == extra
            && forall j :: 0 <= j < i ==>
                 Lookup(r, keys[j]) == Lookup(result, keys[j]) && Lookup(r, extras[j]) == Lookup(result, extras[j])
  {
    assert keys[i] !in result && extras[i] !in result;
  }

  lemma StoreStep(endpoints: seq<Endpoint>, keys: seq<string>, extras: seq<string>, i: nat,
                  result: map<string, seq<Endpoint>>, plain: Option<seq<Endpoint>>, extra: Option<seq<Endpoint>>)
    requires KeysApart(keys, extras) && i < |keys| && StoredUpTo(endpoints, keys, extras, i, result)
    requires PartitionStored(Group(endpoints, keys[i]), plain, extra)
    ensures StoredUpTo(endpoints, keys, extras, i + 1, Stored(result, keys[i], extras[i], plain, extra))
  {
    StoreLookups(keys, extras, i, result, plain, extra);
  }

  lemma StoredIsAll(endpoints: seq<Endpoint>, keys: seq<string>, extras: seq<string>,
                    result: map<string, seq<Endpoint>>)
    requires KeysApart(keys, extras) && StoredUpTo(endpoints, keys, extras, |keys|, result)
    requires forall i :: 0 <= i < |keys| ==> extras[i] == ExtraKey(keys[i])
    requires forall k :: k in keys <==> Group(endpoints, k) != []
    ensures AllStored(endpoints, result)
  {
    forall s: int, d: int | Group(endpoints, KeyOf(s, d)) != []
      ensures PartitionStored(Group(endpoints, KeyOf(s, d)), Lookup(result, KeyOf(s, d)),
                              Lookup(result, ExtraKey(KeyOf(s, d))))
    {
      var j := IndexOf(keys, KeyOf(s, d));
      assert keys[j] == KeyOf(s, d);
    }
    forall k | k in result
      ensures exists s: int, d: int ::
          Group(endpoints, KeyOf(s, d)) != [] && (k == KeyOf(s, d) || k == ExtraKey(KeyOf(s, d)))
    {
      var j :| 0 <= j < |keys| && (k == keys[j] || k == extras[j]);
      assert keys[j] in keys;
      var s, d := KeyIsNuma(endpoints, keys[j]);
    }
  }

  // The key of a non-empty group is the key of a NUMA pair.
  lemma KeyIsNuma(endpoints: seq<Endpoint>, key: string) returns (s: int, d: int)
    requires Group(endpoints, key) != []
    ensures key == KeyOf(s, d)
  {
    var e := Group(endpoints, key)[0];
    GroupMembers(endpoints, key);
    assert e in Group(endpoints, key);
    s, d := e.srcNuma, e.dstNuma;
  }

  lemma NumaKeysApart(endpoints: seq<Endpoint>, keys: seq<string>, extras: seq<string>)
    requires Distinct(keys) && forall k :: k in keys ==> Group(endpoints, k) != []
    requires |keys| == |extras| && forall i :: 0 <= i < |keys| ==> extras[i] == ExtraKey(keys[i])
    ensures KeysApart(keys, extras)
  {
    forall i, j | 0 <= i < |keys| && 0 <= j < |keys|
      ensures keys[i] != extras[j]
      ensures i < j ==> extras[i] != extras[j]
    {
      var s, d := KeyIsNuma(endpoints, keys[i]);
      var s', d' := KeyIsNuma(endpoints, keys[j]);
      KeysDoNotCollide(s, d, s', d');
    }
  }

  class HostRecord {
    var endpoints: seq<Endpoint>
    var partitionMatchings: map<string, seq<Endpoint>>

    constructor (endpoints: seq<Endpoint>)
      ensures this.endpoints == endpoints && partitionMatchings == map[]
    {
      this.endpoints := endpoints;
      partitionMatchings := map[];
    }

    method ProcessHostPair(solver: Matrix -> seq<int>) returns (ok: bool)
      requires SolvesAssignment(solver)
      modifies this`partitionMatchings
      ensures ok <==> forall e :: e in endpoints ==> !e.latency.Null?
      ensures !ok ==> partitionMatchings == old(partitionMatchings)
      ensures ok ==> AllStored(endpoints, partitionMatchings)
    {
      var built := BuildPartitionMap(endpoints);
      if built.Err? {
        return false;
      }
      var p := built.value;
      var result: map<string, seq<Endpoint>> := map[];
      ghost var extras := seq(|p.keys|, i requires 0 <= i < |p.keys| => ExtraKey(p.keys[i]));
      NumaKeysApart(endpoints, p.keys, extras);
      for i := 0 to |p.keys|
        invariant StoredUpTo(endpoints, p.keys, extras, i, result)
      {
        var key := p.keys[i];
        var plain, extra := SolvePartition(p.groups[key], solver);
        StoreStep(endpoints, p.keys, extras, i, result, plain, extra);
        if plain.Some? {
          result := result[key := plain.value];
        }
        if extra.Some? {
          result := result[ExtraKey(key) := extra.value];
        }
      }
      StoredIsAll(endpoints, p.keys, extras, result);
      partitionMatchings := result;
      return true;
    }
  }
}
