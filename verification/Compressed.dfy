// Compressed KV positions: the cumsum / repeat formula, the per-request loop it stands for, and what
// it emits for one request over a whole run.
module Compressed {
  import opened Text
  import opened Arith
  import opened Seqs

  // ---------- The array operations of the formula ----------

  function Sum(counts: seq<nat>): nat {
    if counts == [] then 0 else Sum(counts[..|counts| - 1]) + counts[|counts| - 1]
  }

  // counts[i] copies of a[i], in order
  function Repeat(a: seq<int>, counts: seq<nat>): (r: seq<int>)
    requires |a| == |counts|
    ensures |r| == Sum(counts)
  {
    if a == [] then []
    else Repeat(a[..|a| - 1], counts[..|a| - 1]) + seq(counts[|a| - 1], _ => a[|a| - 1])
  }

  // np.repeat: a single count serves every element, otherwise the lengths must agree.
  function NumpyRepeat(a: seq<int>, counts: seq<nat>): Option<seq<int>> {
    if |a| == |counts| then Some(Repeat(a, counts))
    else if |counts| == 1 then Some(Repeat(a, seq(|a|, _ => counts[0])))
    else None
  }

  // A single count n repeats every element n times.
  lemma SingleCount(a: seq<int>, n: nat, k: nat)
    requires |a| != 1 && k < |a| * n
    ensures NumpyRepeat(a, [n]).Some? && |NumpyRepeat(a, [n]).value| == |a| * n
    ensures n > 0 && k / n < |a| && NumpyRepeat(a, [n]).value[k] == a[k / n]
  {
    var counts := seq(|a|, _ => n);
    RowOfFlat(k, |a|, n);
    SumOfSame(counts, n);
    RepeatAt(a, n, counts, k);
  }

  lemma {:induction false} SumOfSame(counts: seq<nat>, n: nat)
    requires forall i :: 0 <= i < |counts| ==> counts[i] == n
    ensures Sum(counts) == |counts| * n
  {
    if counts == [] {
    } else {
      var m := |counts| - 1;
      SumOfSame(counts[..m], n);
      assert m * n + n == (m + 1) * n;
    }
  }

  lemma {:induction false} RepeatAt(a: seq<int>, n: nat, counts: seq<nat>, k: nat)
    requires |counts| == |a| && (forall i :: 0 <= i < |counts| ==> counts[i] == n) && k < Sum(counts)
    ensures n > 0 && k / n < |a| && Repeat(a, counts)[k] == a[k / n]
  {
    var m := |a| - 1;
    SumOfSame(counts, n);
    SumOfSame(counts[..m], n);
    RowOfFlat(k, |a|, n);
    if k < Sum(counts[..m]) {
      RepeatAt(a[..m], n, counts[..m], k);
    } else {
      LastRow(k, m, n);
    }
  }

  lemma LastRow(k: nat, m: nat, n: nat)
    requires m * n <= k < (m + 1) * n && n > 0
    ensures k / n == m
  {
    assert (m + 1) * n == m * n + n;
    DivModUnique(m, k - m * n, n);
  }

  function CumSum(counts: seq<nat>): (r: seq<nat>)
    ensures |r| == |counts|
  {
    if counts == [] then [] else CumSum(counts[..|counts| - 1]) + [Sum(counts)]
  }

  function PrefixOffsets(counts: seq<nat>): (r: seq<nat>)
    ensures |r| == if counts == [] then 1 else |counts|
  {
    [0] + CumSum(if counts == [] then [] else counts[..|counts| - 1])
  }

  lemma {:induction false} CumSumAt(counts: seq<nat>, i: nat)
    requires i < |counts|
    ensures CumSum(counts)[i] == Sum(counts[..i + 1])
  {
    var n := |counts| - 1;
    if i < n {
      CumSumAt(counts[..n], i);
      assert counts[..n][..i + 1] == counts[..i + 1];
    } else {
      assert counts[..i + 1] == counts;
    }
  }

  lemma PrefixOffsetsAt(counts: seq<nat>, i: nat)
    requires i < |counts|
    ensures PrefixOffsets(counts)[i] == Sum(counts[..i])
  {
    if i > 0 {
      CumSumAt(counts[..|counts| - 1], i - 1);
      assert counts[..|counts| - 1][..i] == counts[..i];
    }
  }

  // pos_starts - prefix_offsets; for no request the one offset broadcasts away
  function Shifts(starts: seq<int>, counts: seq<nat>): (r: seq<int>)
    requires |starts| == |counts|
    ensures |r| == |starts|
  {
    seq(|starts|, i requires 0 <= i < |starts| => starts[i] - PrefixOffsets(counts)[i])
  }

  function VectorPositions(starts: seq<int>, counts: seq<nat>): (r: seq<int>)
    requires |starts| == |counts|
    ensures |r| == Sum(counts)
  {
    var shifts := Repeat(Shifts(starts, counts), counts);
    seq(Sum(counts), i requires 0 <= i < Sum(counts) => i + shifts[i])
  }

  // ---------- The loop it stands for ----------

  // Request by request, its new positions one after the other.
  function LoopPositions(starts: seq<int>, counts: seq<nat>): (r: seq<int>)
    requires |starts| == |counts|
    ensures |r| == Sum(counts)
  {
    if starts == [] then []
    else
      var n := |starts| - 1;
      LoopPositions(starts[..n], counts[..n]) + Range(starts[n], counts[n])
  }

  lemma ShiftsPrefix(starts: seq<int>, counts: seq<nat>, n: nat)
    requires |starts| == |counts| == n + 1
    ensures Shifts(starts, counts)[..n] == Shifts(starts[..n], counts[..n])
    ensures Shifts(starts, counts)[n] == starts[n] - Sum(counts[..n])
  {
    forall i | 0 <= i < n
      ensures Shifts(starts, counts)[i] == Shifts(starts[..n], counts[..n])[i]
    {
      PrefixOffsetsAt(counts, i);
      PrefixOffsetsAt(counts[..n], i);
      assert counts[..n][..i] == counts[..i];
    }
    PrefixOffsetsAt(counts, n);
  }

  lemma {:induction false} VectorIsLoop(starts: seq<int>, counts: seq<nat>)
    requires |starts| == |counts|
    ensures VectorPositions(starts, counts) == LoopPositions(starts, counts)
  {
    if starts == [] {
    } else {
      var n := |starts| - 1;
      var s, c := starts[..n], counts[..n];
      VectorIsLoop(s, c);
      ShiftsPrefix(starts, counts, n);
      var shifts := Repeat(Shifts(starts, counts), counts);
      assert shifts == Repeat(Shifts(s, c), c) + seq(counts[n], _ => starts[n] - Sum(c));
      assert VectorPositions(starts, counts) == VectorPositions(s, c) + Range(starts[n], counts[n]);
    }
  }

  // ---------- One step ----------

  // Ratios 0 and 1 (and below) mean no compression.
  function CompressedLen(n: nat, ratio: int): nat {
    if ratio > 1 then
      DivModParts(n, ratio);
      n / ratio
    else n
  }

  lemma CompressedLenMonotone(m: nat, n: nat, ratio: int)
    requires m <= n
    ensures CompressedLen(m, ratio) <= CompressedLen(n, ratio)
  {
    if ratio > 1 {
      DivMonotone(m, n, ratio);
    }
  }

  function NewCount(computed: nat, scheduled: nat, ratio: int): nat {
    CompressedLenMonotone(computed, computed + scheduled, ratio);
    CompressedLen(computed + scheduled, ratio) - CompressedLen(computed, ratio)
  }

  function Starts(computed: seq<nat>, ratio: int): seq<int> {
    seq(|computed|, i requires 0 <= i < |computed| => CompressedLen(computed[i], ratio))
  }

  function NewCounts(computed: seq<nat>, scheduled: seq<nat>, ratio: int): seq<nat>
    requires |computed| == |scheduled|
  {
    seq(|computed|, i requires 0 <= i < |computed| => NewCount(computed[i], scheduled[i], ratio))
  }

  datatype Error = AssertionError | ValueError

  datatype Lists = Lists(positions: seq<seq<int>>, reqIndices: seq<seq<int>>, newCounts: seq<seq<nat>>)

  predicate AllNonNegative(a: seq<int>) {
    forall i :: 0 <= i < |a| ==> a[i] >= 0
  }

  function AsNats(a: seq<int>): (r: seq<nat>)
    requires AllNonNegative(a)
    ensures r == a
  {
    seq(|a|, i requires 0 <= i < |a| => a[i])
  }

  // What one cache group gets: the loop's positions, and each request's index once per new position.
  predicate IsGroup(computed: seq<nat>, scheduled: seq<nat>, arrange: seq<int>, ratio: int,
                    positions: seq<int>, reqIndices: seq<int>, counts: seq<nat>)
    requires |computed| == |scheduled| && (|arrange| == |computed| || |computed| == 1)
  {
    && counts == NewCounts(computed, scheduled, ratio)
    && positions == LoopPositions(Starts(computed, ratio), counts)
    && reqIndices == Repeat(arrange, if |arrange| == |counts| then counts else seq(|arrange|, _ => counts[0]))
  }

  method CompressGroup(computed: seq<nat>, scheduled: seq<nat>, arrange: seq<int>, ratio: int)
    returns (positions: seq<int>, reqIndices: Option<seq<int>>, counts: seq<nat>)
    requires |computed| == |scheduled|
    ensures reqIndices.None? <==> |arrange| != |computed| && |computed| != 1
    ensures reqIndices.Some? ==> IsGroup(computed, scheduled, arrange, ratio, positions, reqIndices.value, counts)
  {
    counts := NewCounts(computed, scheduled, ratio);
    positions := VectorPositions(Starts(computed, ratio), counts);
    VectorIsLoop(Starts(computed, ratio), counts);
    reqIndices := NumpyRepeat(arrange, counts);
  }

  predicate ValidCounts(computed: seq<int>, scheduled: seq<int>) {
    |computed| == |scheduled| && AllNonNegative(computed) && AllNonNegative(scheduled)
  }

  // None stands for the triple of Nones returned when compression is off.
  method GetCompressedPosAndIndices(computed: seq<int>, scheduled: seq<int>, arrange: seq<int>,
                                    useCompress: bool, ratios: seq<int>)
    returns (r: Result<Option<Lists>, Error>)
    ensures !useCompress ==> r == Ok(None)
    ensures useCompress && !ValidCounts(computed, scheduled) ==> r == Err(AssertionError)
    ensures useCompress ==>
              (r == Err(AssertionError) <==>
                 || |computed| != |scheduled|
                 || (exists i :: 0 <= i < |computed| && computed[i] < 0)
                 || (exists i :: 0 <= i < |scheduled| && scheduled[i] < 0))
    ensures useCompress && ValidCounts(computed, scheduled) ==>
              if ratios != [] && |arrange| != |computed| && |computed| != 1 then r == Err(ValueError)
              else
                && r.Ok? && r.value.Some?
                && var lists := r.value.value;
                && |lists.positions| == |lists.reqIndices| == |lists.newCounts| == |ratios|
                && forall g :: 0 <= g < |ratios| ==>
                     IsGroup(computed, scheduled, arrange, ratios[g],
                             lists.positions[g], lists.reqIndices[g], lists.newCounts[g])
  {
    if !useCompress {
      return Ok(None);
    }
    if |computed| != |scheduled| || !AllNonNegative(computed) || !AllNonNegative(scheduled) {
      return Err(AssertionError);
    }
    var before, now := AsNats(computed), AsNats(scheduled);
    var positionsList, reqIndicesList, countsList := [], [], [];
    for g := 0 to |ratios|
      invariant g > 0 ==> |arrange| == |computed| || |computed| == 1
      invariant |positionsList| == |reqIndicesList| == |countsList| == g
      invariant forall h :: 0 <= h < g ==>
                  IsGroup(before, now, arrange, ratios[h], positionsList[h], reqIndicesList[h], countsList[h])
    {
      var positions, reqIndices, counts := CompressGroup(before, now, arrange, ratios[g]);
      if reqIndices.None? {
        return Err(ValueError);
      }
      reqIndicesList := reqIndicesList + [reqIndices.value];
      positionsList := positionsList + [positions];
      countsList := countsList + [counts];
    }
    r := Ok(Some(Lists(positionsList, reqIndicesList, countsList)));
  }

  // ---------- Whole runs ----------

  // A step of the scheduler: the requests in the batch, with what was computed before and is scheduled now.
  datatype Step = Step(ids: seq<int>, computed: seq<nat>, scheduled: seq<nat>)

  ghost predicate IsStep(b: Step) {
    && |b.ids| == |b.computed| == |b.scheduled|
    && forall i, j :: 0 <= i < j < |b.ids| ==> b.ids[i] != b.ids[j]
  }

  // The positions whose request index is i.
  ghost function EmittedTo(positions: seq<int>, reqs: seq<int>, i: int): seq<int>
    requires |positions| == |reqs|
  {
    if positions == [] then []
    else
      var n := |positions| - 1;
      EmittedTo(positions[..n], reqs[..n], i) + (if reqs[n] == i then [positions[n]] else [])
  }

  lemma {:induction false} EmittedSplits(p: seq<int>, q: seq<int>, a: seq<int>, b: seq<int>, i: int)
    requires |p| == |a| && |q| == |b|
    ensures EmittedTo(p + q, a + b, i) == EmittedTo(p, a, i) + EmittedTo(q, b, i)
  {
    if q == [] {
      assert p + q == p && a + b == a;
    } else {
      var n := |q| - 1;
      EmittedSplits(p, q[..n], a, b[..n], i);
      assert (p + q)[..|p| + n] == p + q[..n] && (a + b)[..|a| + n] == a + b[..n];
    }
  }

  lemma {:induction false} EmittedRow(positions: seq<int>, reqs: seq<int>, i: int, own: bool)
    requires |positions| == |reqs|
    requires forall k :: 0 <= k < |reqs| ==> (reqs[k] == i) == own
    ensures EmittedTo(positions, reqs, i) == if own then positions else []
  {
    if positions == [] {
    } else {
      var n := |positions| - 1;
      EmittedRow(positions[..n], reqs[..n], i, own);
      assert positions == positions[..n] + [positions[n]];
    }
  }

  lemma IndicesOfLast(counts: seq<nat>, n: nat)
    requires |counts| == n + 1
    ensures Repeat(Range(0, n + 1), counts) == Repeat(Range(0, n), counts[..n]) + seq(counts[n], _ => n)
  {
    assert Range(0, n + 1)[..n] == Range(0, n);
  }

  lemma EmittedLast(p: seq<int>, row: seq<int>, a: seq<int>, own: seq<int>, n: int, i: int)
    requires |p| == |a| && |row| == |own| && forall k :: 0 <= k < |own| ==> own[k] == n
    ensures EmittedTo(p + row, a + own, i) == EmittedTo(p, a, i) + (if i == n then row else [])
  {
    EmittedSplits(p, row, a, own, i);
    EmittedRow(row, own, i, i == n);
  }

  // What goes to request i after the rows of the first n requests and the row of request n.
  lemma EmittedGrows(starts: seq<int>, counts: seq<nat>, n: nat, i: nat, before: seq<int>)
    requires |starts| == |counts| == n + 1
    requires before == if i < n then Range(starts[i], counts[i]) else []
    ensures before + (if i == n then Range(starts[n], counts[n]) else []) ==
            if i < n + 1 then Range(starts[i], counts[i]) else []
  {
  }

  // Element for element, the request indices pick out each request's own range.
  lemma {:induction false} EmittedToRequest(starts: seq<int>, counts: seq<nat>, i: nat)
    requires |starts| == |counts|
    ensures EmittedTo(LoopPositions(starts, counts), Repeat(Range(0, |counts|), counts), i) ==
            if i < |counts| then Range(starts[i], counts[i]) else []
  {
    if starts == [] {
    } else {
      var n := |starts| - 1;
      var s, c, row, own := starts[..n], counts[..n], Range(starts[n], counts[n]), seq(counts[n], _ => n);
      EmittedToRequest(s, c, i);
      IndicesOfLast(counts, n);
      var p, a := LoopPositions(s, c), Repeat(Range(0, n), c);
      assert LoopPositions(starts, counts) == p + row;
      EmittedLast(p, row, a, own, n, i);
      EmittedGrows(starts, counts, n, i, EmittedTo(p, a, i));
    }
  }

  // What a cache group gets, read back by request: with the requests numbered from 0, those entries whose
  // index is i are the new compressed positions of request i.
  lemma GroupEmits(computed: seq<nat>, scheduled: seq<nat>, ratio: int, positions: seq<int>, reqIndices: seq<int>,
                   counts: seq<nat>, i: nat)
    requires |computed| == |scheduled| && i < |computed|
    requires IsGroup(computed, scheduled, Range(0, |computed|), ratio, positions, reqIndices, counts)
    ensures |positions| == |reqIndices| && |counts| == |computed|
    ensures counts[i] == NewCount(computed[i], scheduled[i], ratio)
    ensures EmittedTo(positions, reqIndices, i) ==
            Range(CompressedLen(computed[i], ratio), NewCount(computed[i], scheduled[i], ratio))
  {
    EmittedToRequest(Starts(computed, ratio), counts, i);
  }

  // What one step emits for request id.
  ghost function Emitted(b: Step, ratio: int, id: int): seq<int>
    requires IsStep(b)
  {
    var counts := NewCounts(b.computed, b.scheduled, ratio);
    if id in b.ids then
      EmittedTo(VectorPositions(Starts(b.computed, ratio), counts), Repeat(Range(0, |b.ids|), counts),
                IndexOf(b.ids, id))
    else []
  }

  lemma EmittedIsRange(b: Step, ratio: int, i: nat)
    requires IsStep(b) && i < |b.ids|
    ensures Emitted(b, ratio, b.ids[i]) ==
            Range(Starts(b.computed, ratio)[i], NewCounts(b.computed, b.scheduled, ratio)[i])
  {
    var starts, counts := Starts(b.computed, ratio), NewCounts(b.computed, b.scheduled, ratio);
    assert IndexOf(b.ids, b.ids[i]) == i;
    VectorIsLoop(starts, counts);
    EmittedToRequest(starts, counts, i);
  }

  ghost predicate IsRun(run: seq<Step>) {
    forall t :: 0 <= t < |run| ==> IsStep(run[t])
  }

  // What each step of a run emits for the request.
  ghost function Pieces(run: seq<Step>, ratio: int, id: int): (pieces: seq<seq<int>>)
    requires IsRun(run)
    ensures |pieces| == |run|
  {
    seq(|run|, t requires 0 <= t < |run| => Emitted(run[t], ratio, id))
  }

  ghost function Emissions(run: seq<Step>, ratio: int, id: int): seq<int>
    requires IsRun(run)
  {
    Joined(Pieces(run, ratio, id), |run|)
  }

  ghost function ScheduledIn(b: Step, id: int): nat
    requires IsStep(b)
  {
    if id in b.ids then b.scheduled[IndexOf(b.ids, id)] else 0
  }

  // Tokens scheduled for the request in the first k steps.
  ghost function Scheduled(run: seq<Step>, id: int, k: nat): nat
    requires IsRun(run) && k <= |run|
  {
    if k == 0 then 0 else Scheduled(run, id, k - 1) + ScheduledIn(run[k - 1], id)
  }

  // The scheduler's side: a request that starts with c0 cached tokens is always presented with
  // exactly the tokens it was scheduled before. It may sit out any number of steps.
  ghost predicate Follows(run: seq<Step>, id: int, c0: nat)
    requires IsRun(run)
  {
    forall t :: 0 <= t < |run| ==> PresentsAt(run, id, c0, t)
  }

  ghost predicate PresentsAt(run: seq<Step>, id: int, c0: nat, t: nat)
    requires IsRun(run) && t < |run|
  {
    Presents(run[t], id, c0 + Scheduled(run, id, t))
  }

  ghost predicate Presents(b: Step, id: int, done: nat)
    requires IsStep(b)
  {
    forall i :: 0 <= i < |b.ids| && b.ids[i] == id ==> b.computed[i] == done
  }

  // One step moves the compressed length of the request on by what it emits.
  lemma StepEmits(b: Step, ratio: int, id: int, done: nat)
    requires IsStep(b) && Presents(b, id, done)
    ensures Emitted(b, ratio, id) == Range(CompressedLen(done, ratio), NewCount(done, ScheduledIn(b, id), ratio))
  {
    if id in b.ids {
      EmittedIsRange(b, ratio, IndexOf(b.ids, id));
    }
  }

  // Two chunks after c0 cached tokens give what one chunk of both gives.
  lemma ChunksJoin(c0: nat, a: nat, b: nat, ratio: int)
    ensures Range(CompressedLen(c0, ratio), NewCount(c0, a, ratio))
            + Range(CompressedLen(c0 + a, ratio), NewCount(c0 + a, b, ratio))
            == Range(CompressedLen(c0, ratio), NewCount(c0, a + b, ratio))
  {
    assert c0 + (a + b) == c0 + a + b;
  }

  // Piece t holds the positions between the compressed lengths after done[t] and done[t + 1] tokens.
  ghost predicate IsChunk(pieces: seq<seq<int>>, done: seq<nat>, c0: nat, ratio: int, t: nat)
    requires |done| == |pieces| + 1 && t < |pieces|
  {
    && done[t] <= done[t + 1]
    && pieces[t] == Range(CompressedLen(c0 + done[t], ratio), NewCount(c0 + done[t], done[t + 1] - done[t], ratio))
  }

  lemma {:induction false} AllChunksJoin(pieces: seq<seq<int>>, done: seq<nat>, c0: nat, ratio: int, k: nat)
    requires |done| == |pieces| + 1 && done[0] == 0 && k <= |pieces|
    requires forall t :: 0 <= t < |pieces| ==> IsChunk(pieces, done, c0, ratio, t)
    ensures Joined(pieces, k) == Range(CompressedLen(c0, ratio), NewCount(c0, done[k], ratio))
  {
    if k == 0 {
      NothingNew(c0, ratio);
    } else {
      AllChunksJoin(pieces, done, c0, ratio, k - 1);
      assert IsChunk(pieces, done, c0, ratio, k - 1);
      ChunksJoin(c0, done[k - 1], done[k] - done[k - 1], ratio);
    }
  }

  ghost function Totals(run: seq<Step>, id: int): (done: seq<nat>)
    requires IsRun(run)
    ensures |done| == |run| + 1 && forall k :: 0 <= k <= |run| ==> done[k] == Scheduled(run, id, k)
  {
    seq(|run| + 1, k requires 0 <= k <= |run| => Scheduled(run, id, k))
  }

  lemma PieceEmits(run: seq<Step>, ratio: int, id: int, c0: nat, t: nat)
    requires IsRun(run) && Follows(run, id, c0) && t < |run|
    ensures var done := c0 + Scheduled(run, id, t);
            Pieces(run, ratio, id)[t] ==
            Range(CompressedLen(done, ratio), NewCount(done, ScheduledIn(run[t], id), ratio))
    ensures Scheduled(run, id, t + 1) == Scheduled(run, id, t) + ScheduledIn(run[t], id)
  {
    assert PresentsAt(run, id, c0, t);
    StepEmits(run[t], ratio, id, c0 + Scheduled(run, id, t));
  }

  lemma ChunkFrom(pieces: seq<seq<int>>, done: seq<nat>, c0: nat, ratio: int, t: nat, d: nat, n: nat)
    requires |done| == |pieces| + 1 && t < |pieces| && done[t] == d && done[t + 1] == d + n
    requires pieces[t] == Range(CompressedLen(c0 + d, ratio), NewCount(c0 + d, n, ratio))
    ensures IsChunk(pieces, done, c0, ratio, t)
  {
    assert done[t + 1] - done[t] == n;
  }

  lemma ChunkAt(run: seq<Step>, ratio: int, id: int, c0: nat, t: nat)
    requires IsRun(run) && Follows(run, id, c0) && t < |run|
    ensures IsChunk(Pieces(run, ratio, id), Totals(run, id), c0, ratio, t)
  {
    PieceEmits(run, ratio, id, c0, t);
    ChunkFrom(Pieces(run, ratio, id), Totals(run, id), c0, ratio, t, Scheduled(run, id, t), ScheduledIn(run[t], id));
  }

  // However the tokens are chunked, batched and interleaved, every compressed position of the request
  // is emitted exactly once and in order.
  lemma EachPositionOnce(run: seq<Step>, ratio: int, id: int, c0: nat)
    requires IsRun(run) && Follows(run, id, c0)
    ensures Emissions(run, ratio, id) ==
            Range(CompressedLen(c0, ratio), NewCount(c0, Scheduled(run, id, |run|), ratio))
  {
    var pieces, done := Pieces(run, ratio, id), Totals(run, id);
    forall t | 0 <= t < |run|
      ensures IsChunk(pieces, done, c0, ratio, t)
    {
      ChunkAt(run, ratio, id, c0, t);
    }
    AllChunksJoin(pieces, done, c0, ratio, |run|);
  }

  lemma NothingNew(c0: nat, ratio: int)
    ensures Range(CompressedLen(c0, ratio), NewCount(c0, 0, ratio)) == []
  {
  }

  // From scratch: 0, 1, ..., T / ratio - 1, or 0, ..., T - 1 when the ratio is 0 or 1.
  lemma FromScratch(run: seq<Step>, ratio: int, id: int)
    requires IsRun(run) && Follows(run, id, 0)
    ensures ratio > 1 ==> Emissions(run, ratio, id) == Range(0, Scheduled(run, id, |run|) / ratio)
    ensures ratio <= 1 ==> Emissions(run, ratio, id) == Range(0, Scheduled(run, id, |run|))
  {
    EachPositionOnce(run, ratio, id, 0);
    assert ratio > 1 ==> 0 / ratio == 0;
  }
}
