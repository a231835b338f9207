// Cutting a sorted CPU list into one slice per NPU, and a slice into roles.
module CpuSlices {
  import opened Arith
  import opened Ints
  import opened Seqs

  const MIN_CPUS_PER_NPU := 5

  // ---------- Global slices ----------

  function GlobalStart(cpus: nat, total: nat, npu: nat): nat
    requires total > 0
  {
    npu * (cpus / total) + Min(npu, cpus % total)
  }

  lemma GlobalStartStep(cpus: nat, total: nat, npu: nat)
    requires npu < total
    ensures GlobalStart(cpus, total, npu + 1) ==
            GlobalStart(cpus, total, npu) + cpus / total + (if npu < cpus % total then 1 else 0)
  {
  }

  lemma {:induction false} GlobalStartMonotone(cpus: nat, total: nat, a: nat, b: nat)
    requires a <= b <= total && total > 0
    ensures GlobalStart(cpus, total, a) <= GlobalStart(cpus, total, b)
  {
    if a == b {
    } else {
      GlobalStartMonotone(cpus, total, a, b - 1);
      GlobalStartStep(cpus, total, b - 1);
    }
  }

  lemma GlobalEnd(cpus: nat, total: nat)
    requires total > 0
    ensures GlobalStart(cpus, total, total) == cpus
  {
  }

  lemma GlobalBounds(cpus: nat, total: nat, npu: nat)
    requires npu < total
    ensures GlobalStart(cpus, total, npu) <= GlobalStart(cpus, total, npu + 1) <= cpus
  {
    GlobalStartStep(cpus, total, npu);
    GlobalStartMonotone(cpus, total, npu + 1, total);
    GlobalEnd(cpus, total);
  }

  // allowed[start:start + take] with the remainder spread over the first NPUs.
  function GlobalSlice(cpus: seq<int>, total: nat, npu: nat): (r: seq<int>)
    requires npu < total
    ensures |cpus| / total <= |r| <= |cpus| / total + 1
  {
    GlobalBounds(|cpus|, total, npu);
    GlobalStartStep(|cpus|, total, npu);
    var start := GlobalStart(|cpus|, total, npu);
    var take := |cpus| / total + (if npu < |cpus| % total then 1 else 0);
    cpus[start..start + take]
  }

  function GlobalSlices(cpus: seq<int>, total: nat): (parts: seq<seq<int>>)
    ensures |parts| == total && forall a :: 0 <= a < total ==> parts[a] == GlobalSlice(cpus, total, a)
  {
    seq(total, a requires 0 <= a < total => GlobalSlice(cpus, total, a))
  }

  // The slices of NPUs 0 .. total-1, in order, are the whole list.
  lemma GlobalSlicesPartition(cpus: seq<int>, total: nat)
    requires total > 0
    ensures Joined(GlobalSlices(cpus, total), total) == cpus
  {
    var cuts := seq(total + 1, a requires 0 <= a <= total => GlobalStart(|cpus|, total, a));
    var parts := GlobalSlices(cpus, total);
    forall a | 0 <= a < total
      ensures Between(cpus, cuts, parts, a)
    {
      GlobalSliceIs(cpus, total, a);
    }
    GlobalEnd(|cpus|, total);
    CutsJoin(cpus, cuts, parts, total);
  }

  lemma GlobalSliceIs(cpus: seq<int>, total: nat, npu: nat)
    requires npu < total
    ensures var lo, hi := GlobalStart(|cpus|, total, npu), GlobalStart(|cpus|, total, npu + 1);
            lo <= hi <= |cpus| && GlobalSlice(cpus, total, npu) == cpus[lo..hi]
  {
    GlobalBounds(|cpus|, total, npu);
    GlobalStartStep(|cpus|, total, npu);
  }

  lemma GlobalAt(cpus: seq<int>, total: nat, npu: nat, x: int) returns (k: nat)
    requires npu < total && x in GlobalSlice(cpus, total, npu)
    ensures GlobalStart(|cpus|, total, npu) <= k < GlobalStart(|cpus|, total, npu + 1) <= |cpus| && cpus[k] == x
  {
    GlobalBounds(|cpus|, total, npu);
    GlobalStartStep(|cpus|, total, npu);
    var s := GlobalSlice(cpus, total, npu);
    var j :| 0 <= j < |s| && s[j] == x;
    k := GlobalStart(|cpus|, total, npu) + j;
  }

  // Any CPU of an earlier NPU's slice is below any CPU of a later one's.
  lemma GlobalSlicesApart(cpus: seq<int>, total: nat, a: nat, b: nat, x: int, y: int)
    requires Increasing(cpus) && a < b < total
    requires x in GlobalSlice(cpus, total, a) && y in GlobalSlice(cpus, total, b)
    ensures x < y
  {
    var i := GlobalAt(cpus, total, a, x);
    var j := GlobalAt(cpus, total, b, y);
    GlobalStartMonotone(|cpus|, total, a + 1, b);
  }

  // ---------- Even shares of a pool ----------

  function ShareStart(cpus: nat, n: nat, i: nat): nat
    requires i <= n && n > 0
  {
    if i < n then i * (cpus / n) else cpus
  }

  lemma ShareBounds(cpus: nat, n: nat, i: nat)
    requires i < n
    ensures ShareStart(cpus, n, i) <= ShareStart(cpus, n, i + 1) <= cpus
  {
    var per := cpus / n;
    assert n * per <= cpus;
    assert i * per + per == (i + 1) * per <= n * per by {
      MulMonotone(i + 1, n, per);
    }
  }

  // cpu_list[i * per : (i + 1) * per], the last share taking the rest.
  function Share(cpus: seq<int>, n: nat, i: nat): seq<int>
    requires i < n
  {
    ShareBounds(|cpus|, n, i);
    cpus[ShareStart(|cpus|, n, i)..ShareStart(|cpus|, n, i + 1)]
  }

  function Shares(cpus: seq<int>, n: nat): (parts: seq<seq<int>>)
    ensures |parts| == n && forall i :: 0 <= i < n ==> parts[i] == Share(cpus, n, i)
  {
    seq(n, i requires 0 <= i < n => Share(cpus, n, i))
  }

  lemma SharesPartition(cpus: seq<int>, n: nat)
    requires n > 0
    ensures Joined(Shares(cpus, n), n) == cpus
  {
    var cuts := seq(n + 1, i requires 0 <= i <= n => ShareStart(|cpus|, n, i));
    var parts := Shares(cpus, n);
    forall i | 0 <= i < n
      ensures Between(cpus, cuts, parts, i)
    {
      ShareIs(cpus, n, i, cuts[i], cuts[i + 1]);
    }
    CutsJoin(cpus, cuts, parts, n);
  }

  lemma {:induction false} ShareStartMonotone(cpus: nat, n: nat, a: nat, b: nat)
    requires a <= b <= n && n > 0
    ensures ShareStart(cpus, n, a) <= ShareStart(cpus, n, b)
  {
    if a == b {
    } else {
      ShareStartMonotone(cpus, n, a, b - 1);
      ShareBounds(cpus, n, b - 1);
    }
  }

  ghost predicate Disjoint(a: seq<int>, b: seq<int>) {
    forall x :: x in a ==> x !in b
  }

  // No repeated CPU straddles a cut between two shares.
  ghost predicate CleanCuts(cpus: seq<int>, n: nat) {
    forall i :: 0 < i < n && 0 < i * (|cpus| / n) < |cpus| ==> cpus[i * (|cpus| / n) - 1] < cpus[i * (|cpus| / n)]
  }

  lemma ShareAt(cpus: seq<int>, n: nat, i: nat, x: int) returns (k: nat)
    requires i < n && x in Share(cpus, n, i)
    ensures ShareStart(|cpus|, n, i) <= k < ShareStart(|cpus|, n, i + 1) <= |cpus| && cpus[k] == x
  {
    ShareBounds(|cpus|, n, i);
    var j :| 0 <= j < |Share(cpus, n, i)| && Share(cpus, n, i)[j] == x;
    k := ShareStart(|cpus|, n, i) + j;
  }

  // Shares are pairwise disjoint exactly when no repeated CPU straddles a cut.
  lemma SharesDisjoint(cpus: seq<int>, n: nat)
    requires Ordered(cpus) && n > 0
    ensures (forall a, b :: 0 <= a < b < n ==> Disjoint(Share(cpus, n, a), Share(cpus, n, b))) <==> CleanCuts(cpus, n)
  {
    if CleanCuts(cpus, n) {
      forall a, b, x | 0 <= a < b < n && x in Share(cpus, n, a)
        ensures x !in Share(cpus, n, b)
      {
        if x in Share(cpus, n, b) {
          SharesApart(cpus, n, a, b, x, x);
        }
      }
    } else {
      var per := |cpus| / n;
      var i :| 0 < i < n && 0 < i * per < |cpus| && cpus[i * per - 1] >= cpus[i * per];
      StraddledCut(cpus, n, i);
    }
  }

  lemma SharesApart(cpus: seq<int>, n: nat, a: nat, b: nat, x: int, y: int)
    requires Ordered(cpus) && a < b < n && CleanCuts(cpus, n)
    requires x in Share(cpus, n, a) && y in Share(cpus, n, b)
    ensures x < y
  {
    var i := ShareAt(cpus, n, a, x);
    var j := ShareAt(cpus, n, b, y);
    var cut := ShareStart(|cpus|, n, a + 1);
    ShareStartMonotone(|cpus|, n, a + 1, b);
    assert cut == (a + 1) * (|cpus| / n);
    assert cpus[i] <= cpus[cut - 1] && cpus[cut] <= cpus[j];
  }

  lemma StraddledCut(cpus: seq<int>, n: nat, i: nat)
    requires Ordered(cpus) && 0 < i < n && 0 < i * (|cpus| / n) < |cpus|
    requires cpus[i * (|cpus| / n) - 1] >= cpus[i * (|cpus| / n)]
    ensures !Disjoint(Share(cpus, n, i - 1), Share(cpus, n, i))
  {
    var per := |cpus| / n;
    var cut := i * per;
    CutStarts(|cpus|, n, i, per);
    ShareIs(cpus, n, i - 1, cut - per, cut);
    ShareIs(cpus, n, i, cut, ShareStart(|cpus|, n, i + 1));
    PartsTouch(cpus, cut - per, cut, ShareStart(|cpus|, n, i + 1));
  }

  lemma ShareIs(cpus: seq<int>, n: nat, i: nat, lo: nat, hi: nat)
    requires i < n && ShareStart(|cpus|, n, i) == lo && ShareStart(|cpus|, n, i + 1) == hi
    ensures lo <= hi <= |cpus| && Share(cpus, n, i) == cpus[lo..hi]
  {
    ShareBounds(|cpus|, n, i);
  }

  lemma PartsTouch(cpus: seq<int>, lo: nat, cut: nat, hi: nat)
    requires lo < cut < hi <= |cpus| && cpus[cut - 1] == cpus[cut]
    ensures !Disjoint(cpus[lo..cut], cpus[cut..hi])
  {
    var s, t := cpus[lo..cut], cpus[cut..hi];
    var x := cpus[cut];
    assert s[cut - lo - 1] == x && t[0] == x;
    assert x in s && x in t;
  }

  lemma CutStarts(cpus: nat, n: nat, i: nat, per: nat)
    requires 0 < i < n && per == cpus / n && 0 < i * per < cpus
    ensures per > 0
    ensures ShareStart(cpus, n, i - 1) == i * per - per
    ensures ShareStart(cpus, n, i) == i * per < ShareStart(cpus, n, i + 1)
  {
    assert per > 0 by {
      assert per == 0 ==> i * per == 0;
    }
    assert (i - 1) * per == i * per - per;
    assert (i + 1) * per == i * per + per;
  }

  lemma IncreasingCutsClean(cpus: seq<int>, n: nat)
    requires Increasing(cpus)
    ensures CleanCuts(cpus, n)
  {
  }

  // ---------- Roles ----------

  datatype Role = Irq | Main | Acl | Release

  // pool[0], pool[1]; pool[2:-2]; pool[-2]; pool[-1]
  function RoleCpus(pool: seq<int>, role: Role): seq<int>
    requires |pool| >= MIN_CPUS_PER_NPU
  {
    match role
    case Irq => pool[..2]
    case Main => pool[2..|pool| - 2]
    case Acl => [pool[|pool| - 2]]
    case Release => [pool[|pool| - 1]]
  }

  // The four roles are the whole pool, and no CPU has two of them.
  lemma RolesSplitPool(pool: seq<int>)
    requires |pool| >= MIN_CPUS_PER_NPU
    ensures RoleCpus(pool, Irq) + RoleCpus(pool, Main) + RoleCpus(pool, Acl) + RoleCpus(pool, Release) == pool
    ensures RoleCpus(pool, Main) != []
    ensures Distinct(pool) ==> forall r, s, x :: x in RoleCpus(pool, r) && x in RoleCpus(pool, s) ==> r == s
  {
    forall r, s, x | Distinct(pool) && x in RoleCpus(pool, r) && x in RoleCpus(pool, s)
      ensures r == s
    {
      var i := RoleAt(pool, r, x);
      var j := RoleAt(pool, s, x);
      assert i == j;
    }
  }

  ghost function RoleStart(n: nat, role: Role): nat
    requires n >= MIN_CPUS_PER_NPU
  {
    match role case Irq => 0 case Main => 2 case Acl => n - 2 case Release => n - 1
  }

  lemma RoleAt(pool: seq<int>, role: Role, x: int) returns (k: nat)
    requires |pool| >= MIN_CPUS_PER_NPU && x in RoleCpus(pool, role)
    ensures k < |pool| && pool[k] == x
    ensures RoleStart(|pool|, role) <= k < RoleStart(|pool|, role) + |RoleCpus(pool, role)|
  {
    var j :| 0 <= j < |RoleCpus(pool, role)| && RoleCpus(pool, role)[j] == x;
    k := RoleStart(|pool|, role) + j;
  }

  lemma RoleInPool(pool: seq<int>, role: Role, x: int)
    requires |pool| >= MIN_CPUS_PER_NPU && x in RoleCpus(pool, role)
    ensures x in pool
  {
    var k := RoleAt(pool, role, x);
  }
}
