// ACL graph capture sizes: how many fit the stream budget, and the sample taken when they do not.
module GraphSizes {
  import opened Text
  import opened Arith
  import opened Ints

  const MAX_CAPTURE_SIZE := 1800
  const CP_ADDITIONAL_STREAM_NUM := 100

  datatype Settings = Settings(
    layers: nat, draftLayers: Option<nat>, dp: nat, tp: nat, aiv: bool, expertParallel: bool,
    multistream: bool, moe: bool, pcp: nat, dcp: nat)

  // ---------- The budget ----------

  function One(b: bool): nat {
    if b then 1 else 0
  }

  function Resources(c: Settings): (r: nat)
    ensures r > 0
  {
    c.layers + 1 + (if c.draftLayers.Some? then c.draftLayers.value + 1 else 0)
  }

  function CommGroups(c: Settings): nat {
    One(c.dp > 1) + One(c.tp > 1)
  }

  function Factor(c: Settings): (r: nat)
    ensures r > 0
  {
    if c.aiv then 1 + CommGroups(c) + One(c.expertParallel) + One(c.multistream) + One(c.moe && c.dp > 1)
    else 1 + CommGroups(c) * 2
  }

  // Streams set aside before the rest is divided among graphs.
  function Reserved(c: Settings): nat {
    if c.aiv then (if c.moe then 0 else Factor(c) * Resources(c))
    else CP_ADDITIONAL_STREAM_NUM * One(c.pcp > 1) + CP_ADDITIONAL_STREAM_NUM * One(c.dcp > 1) + 40 * CommGroups(c)
  }

  // floor(available / resources / factor), over exact numbers
  function MaxSizes(c: Settings): int {
    (MAX_CAPTURE_SIZE - Reserved(c)) / (Resources(c) * Factor(c))
  }

  lemma FloorFits(total: int, unit: nat, n: int)
    requires unit > 0
    ensures n <= total / unit <==> n * unit <= total
  {
    var q, r := total / unit, total % unit;
    assert total == q * unit + r;
    if n <= q {
      MulMonotone(n, q, unit);
    } else {
      MulMonotone(q + 1, n, unit);
      assert (q + 1) * unit == q * unit + unit;
    }
  }

  // The streams one unit of a graph takes. Without AIV: 1, 3 or 5 for no, one or two of data and tensor
  // parallelism. With AIV: one, and one more for each of data, tensor and expert parallelism and overlapped
  // shared experts; a model with experts counts data parallelism twice.
  ghost function StreamsPerUnit(c: Settings): nat {
    if !c.aiv then
      if c.dp <= 1 && c.tp <= 1 then 1 else if c.dp > 1 && c.tp > 1 then 5 else 3
    else
      (if c.dp <= 1 then 1 else if c.moe then 3 else 2) + (if c.tp > 1 then 1 else 0)
      + (if c.expertParallel then 1 else 0) + (if c.multistream then 1 else 0)
  }

  // A graph has one unit per layer and one more, for the model and for the draft model.
  ghost function StreamsPerGraph(c: Settings): nat {
    (match c.draftLayers case Some(k) => c.layers + k + 2 case None => c.layers + 1) * StreamsPerUnit(c)
  }

  // Set aside without AIV: 40 streams for each of data and tensor parallelism, 100 for each kind of context
  // parallelism. With AIV: one graph for a dense model, nothing for a model with experts.
  ghost function SetAside(c: Settings): nat {
    if c.aiv && c.moe then 0
    else if c.aiv then StreamsPerGraph(c)
    else (if c.dp > 1 then 40 else 0) + (if c.tp > 1 then 40 else 0)
         + (if c.pcp > 1 then 100 else 0) + (if c.dcp > 1 then 100 else 0)
  }

  // n graphs and what is set aside stay within 1800 streams.
  ghost predicate WithinStreams(c: Settings, n: int) {
    n * StreamsPerGraph(c) + SetAside(c) <= 1800
  }

  lemma StreamsAre(c: Settings)
    ensures Factor(c) == StreamsPerUnit(c)
    ensures Resources(c) * Factor(c) == StreamsPerGraph(c) && Reserved(c) == SetAside(c)
  {
    assert Factor(c) * Resources(c) == Resources(c) * Factor(c);
  }

  // n sizes are admitted exactly when their streams and the reservation stay within 1800.
  lemma BudgetIsExact(c: Settings, n: int)
    ensures n <= MaxSizes(c) <==> n * (Resources(c) * Factor(c)) + Reserved(c) <= MAX_CAPTURE_SIZE
  {
    MulAtLeast(Resources(c), Factor(c));
    FloorFits(MAX_CAPTURE_SIZE - Reserved(c), Resources(c) * Factor(c), n);
  }

  lemma StreamsAreExact(c: Settings, n: int)
    ensures n <= MaxSizes(c) <==> WithinStreams(c, n)
  {
    BudgetIsExact(c, n);
    StreamsAre(c);
  }

  // 48 layers on four tensor-parallel ranks: 11 sizes, 1800 - 40 over 49 units of three streams.
  lemma FortyEightLayers()
    ensures MaxSizes(Settings(48, None, 1, 4, false, false, false, false, 1, 1)) == 11
  {
    BudgetIsExact(Settings(48, None, 1, 4, false, false, false, false, 1, 1), 11);
    BudgetIsExact(Settings(48, None, 1, 4, false, false, false, false, 1, 1), 12);
  }

  // ---------- Half-to-even rounding ----------

  function RoundHalfEven(p: nat, q: nat): nat
    requires q > 0
  {
    DivModParts(p, q);
    var f, r := p / q, p % q;
    if 2 * r < q || (2 * r == q && f % 2 == 0) then f else f + 1
  }

  // Within half of the exact quotient, on either side.
  lemma RoundedNear(p: nat, q: nat)
    requires q > 0
    ensures 2 * p - q <= 2 * (RoundHalfEven(p, q) * q) <= 2 * p + q
  {
    DivModParts(p, q);
    var f := p / q;
    assert (f + 1) * q == f * q + q;
  }

  // k is nearest to p / q, and even when p / q lies halfway between two integers.
  ghost predicate NearestEven(k: int, p: int, q: int) {
    && 2 * p - q <= 2 * (k * q) <= 2 * p + q
    && (2 * (k * q) == 2 * p - q || 2 * (k * q) == 2 * p + q ==> k % 2 == 0)
  }

  lemma RoundedIsNearest(p: nat, q: nat)
    requires q > 0
    ensures NearestEven(RoundHalfEven(p, q), p, q)
  {
    RoundedNear(p, q);
    DivModParts(p, q);
    var f, r := p / q, p % q;
    assert (f + 1) * q == f * q + q;
  }

  // There is only one such number.
  lemma NearestIsUnique(j: int, k: int, p: int, q: int)
    requires q > 0 && NearestEven(j, p, q) && NearestEven(k, p, q) && j <= k
    ensures j == k
  {
    assert k * q == j * q + (k - j) * q;
    if j + 2 <= k {
      MulMonotone(2, k - j, q);
    }
  }

  lemma RoundedExact(k: nat, q: nat)
    requires q > 0
    ensures RoundHalfEven(k * q, q) == k
  {
    DivModUnique(k, 0, q);
  }

  // Steps longer than one never round to the same number.
  lemma RoundedApart(p: nat, d: nat, q: nat)
    requires 0 < q < d
    ensures RoundHalfEven(p, q) < RoundHalfEven(p + d, q)
  {
    var a, b := RoundHalfEven(p, q), RoundHalfEven(p + d, q);
    RoundedNear(p, q);
    RoundedNear(p + d, q);
    if b <= a {
      MulMonotone(b, a, q);
    }
  }

  // ---------- The sample ----------

  // round(i * step) with step = (n - 1) / (m - 1)
  function Index(i: nat, n: nat, m: nat): nat
    requires m >= 2 && n >= 1
  {
    RoundHalfEven(i * (n - 1), m - 1)
  }

  ghost predicate IsSample(indices: seq<nat>, n: nat, m: nat) {
    && |indices| == m
    && (forall i :: 0 <= i < m ==> indices[i] < n)
    && (forall i, j :: 0 <= i < j < m ==> indices[i] < indices[j])
    && m > 0 && indices[0] == 0 && indices[m - 1] == n - 1
  }

  // Index i is the integer nearest to i steps of (n - 1) / (m - 1), the even one of two.
  ghost predicate EvenlySpaced(indices: seq<nat>, n: nat, m: nat) {
    |indices| == m && forall i :: 0 <= i < m ==> NearestEven(indices[i], i * (n - 1), m - 1)
  }

  lemma IndexSteps(i: nat, n: nat, m: nat)
    requires 2 <= m < n
    ensures Index(i, n, m) < Index(i + 1, n, m)
  {
    assert (i + 1) * (n - 1) == i * (n - 1) + (n - 1);
    RoundedApart(i * (n - 1), n - 1, m - 1);
  }

  lemma {:induction false} IndexIncreases(i: nat, j: nat, n: nat, m: nat)
    requires 2 <= m < n && i < j
    ensures Index(i, n, m) < Index(j, n, m)
    decreases j
  {
    IndexSteps(j - 1, n, m);
    if i == j - 1 {
    } else {
      IndexIncreases(i, j - 1, n, m);
    }
  }

  lemma EndIndices(n: nat, m: nat)
    requires 2 <= m < n
    ensures Index(0, n, m) == 0 && Index(m - 1, n, m) == n - 1
  {
    RoundedExact(0, m - 1);
    assert (m - 1) * (n - 1) == (n - 1) * (m - 1);
    RoundedExact(n - 1, m - 1);
  }

  lemma IndexInRange(i: nat, n: nat, m: nat)
    requires 2 <= m < n && i < m
    ensures Index(i, n, m) < n
  {
    EndIndices(n, m);
    if i < m - 1 {
      IndexIncreases(i, m - 1, n, m);
    }
  }

  lemma IndicesAreEven(indices: seq<nat>, n: nat, m: nat)
    requires 2 <= m < n && |indices| == m && forall i :: 0 <= i < m ==> indices[i] == Index(i, n, m)
    ensures EvenlySpaced(indices, n, m)
  {
    forall i | 0 <= i < m
      ensures NearestEven(indices[i], i * (n - 1), m - 1)
    {
      RoundedIsNearest(i * (n - 1), m - 1);
    }
  }

  // The rounded indices are strictly increasing, in range, and already start at 0 and end at n - 1.
  lemma IndicesAreASample(indices: seq<nat>, n: nat, m: nat)
    requires 2 <= m < n && |indices| == m && forall i :: 0 <= i < m ==> indices[i] == Index(i, n, m)
    ensures IsSample(indices, n, m)
  {
    EndIndices(n, m);
    forall i | 0 <= i < m
      ensures indices[i] < n
    {
      IndexInRange(i, n, m);
    }
    forall i, j | 0 <= i < j < m
      ensures indices[i] < indices[j]
    {
      IndexIncreases(i, j, n, m);
    }
  }

  function Sample(sizes: seq<int>, m: nat): seq<int>
    requires 2 <= m < |sizes|
  {
    seq(m, i requires 0 <= i < m => SampledAt(sizes, m, i))
  }

  function SampledAt(sizes: seq<int>, m: nat, i: nat): int
    requires 2 <= m < |sizes| && i < m
  {
    IndexInRange(i, |sizes|, m);
    sizes[Index(i, |sizes|, m)]
  }

  // A subsequence of exactly m of the sizes, with the same least and greatest; strictly increasing
  // when the sizes were.
  lemma SampleOfOrdered(sizes: seq<int>, m: nat)
    requires 2 <= m < |sizes| && Ordered(sizes)
    ensures |Sample(sizes, m)| == m && Ordered(Sample(sizes, m))
    ensures Sample(sizes, m)[0] == sizes[0] && Sample(sizes, m)[m - 1] == sizes[|sizes| - 1]
    ensures Increasing(sizes) ==> Increasing(Sample(sizes, m))
    ensures exists indices: seq<nat> ::
              && IsSample(indices, |sizes|, m) && EvenlySpaced(indices, |sizes|, m)
              && forall i :: 0 <= i < m ==> Sample(sizes, m)[i] == sizes[indices[i]]
  {
    var n := |sizes|;
    var indices := seq(m, k requires 0 <= k < m => Index(k, n, m));
    IndicesAreASample(indices, n, m);
    IndicesAreEven(indices, n, m);
    assert forall i :: 0 <= i < m ==> Sample(sizes, m)[i] == sizes[indices[i]];
  }

  // Three of six sizes: the middle index is halfway between 2 and 3, and rounds to the even one.
  lemma ThreeOfSix(sizes: seq<int>)
    requires |sizes| == 6
    ensures Sample(sizes, 3) == [sizes[0], sizes[2], sizes[5]]
  {
    RoundedIsNearest(5, 2);
    EndIndices(6, 3);
    assert Index(1, 6, 3) == 2;
  }

  // ---------- The configuration ----------

  datatype Error = TypeError | ZeroDivisionError | IndexError | ValueError | AssertionError

  class CompilationConfig {
    var captureSizes: Option<seq<int>>
    var maxCaptureSize: Option<int>

    constructor (captureSizes: Option<seq<int>>, maxCaptureSize: Option<int>)
      ensures this.captureSizes == captureSizes && this.maxCaptureSize == maxCaptureSize
    {
      this.captureSizes, this.maxCaptureSize := captureSizes, maxCaptureSize;
    }

    // post_init_cudagraph_sizes
    method PostInit() returns (r: Result<(), Error>)
      requires captureSizes.Some?
      modifies this`captureSizes
      ensures captureSizes == Some(Sorted(old(captureSizes).value))
      ensures var s := captureSizes.value;
              r == if s != [] && Some(s[|s| - 1]) != maxCaptureSize then Err(AssertionError) else Ok(())
    {
      captureSizes := Some(Sorted(captureSizes.value));
      var s := captureSizes.value;
      if s != [] && Some(s[|s| - 1]) != maxCaptureSize {
        return Err(AssertionError);
      }
      return Ok(());
    }

    // A maximum that disagrees with configured sizes is an error; with no sizes configured it is cut.
    method UpdateCudagraphCaptureSizes(sizes: seq<int>) returns (r: Result<(), Error>)
      modifies this
      ensures var last := if sizes == [] then 0 else sizes[|sizes| - 1];
              if old(captureSizes).Some? && old(maxCaptureSize).Some? && old(maxCaptureSize).value != last then
                r == Err(ValueError) && captureSizes == old(captureSizes) && maxCaptureSize == old(maxCaptureSize)
              else
                && captureSizes == Some(Sorted(sizes)) && maxCaptureSize == Some(last)
                && r == if sizes != [] && Sorted(sizes)[|sizes| - 1] != last then Err(AssertionError) else Ok(())
    {
      var validMax := if sizes != [] then sizes[|sizes| - 1] else 0;
      if maxCaptureSize.Some? && maxCaptureSize.value != validMax {
        if captureSizes.Some? {
          return Err(ValueError);
        }
      }
      maxCaptureSize := Some(validMax);
      captureSizes := Some(sizes);
      r := PostInit();
    }

    method SampleSizes(original: seq<int>, m: nat) returns (sampled: seq<int>)
      requires 2 <= m < |original|
      ensures sampled == Sample(original, m)
    {
      var n := |original|;
      var indices: seq<nat> := [];
      for i := 0 to m
        invariant |indices| == i && forall k :: 0 <= k < i ==> indices[k] == Index(k, n, m)
      {
        indices := indices + [RoundHalfEven(i * (n - 1), m - 1)];
      }
      IndicesAreASample(indices, n, m);
      ghost var rounded := indices;
      indices := indices[0 := 0][m - 1 := n - 1];
      assert indices == rounded;
      sampled := [];
      for i := 0 to m
        invariant |sampled| == i && forall k :: 0 <= k < i ==> sampled[k] == SampledAt(original, m, k)
      {
        sampled := sampled + [original[indices[i]]];
      }
    }

    // update_aclgraph_sizes; without a model configuration the cleared sizes stay cleared.
    method UpdateAclgraphSizes(hasModelConfig: bool, c: Settings) returns (r: Result<(), Error>)
      modifies this
      ensures !hasModelConfig ==> r == Ok(()) && captureSizes == None && maxCaptureSize == old(maxCaptureSize)
      ensures hasModelConfig && old(captureSizes).None? ==>
                r == Err(TypeError) && captureSizes == None && maxCaptureSize == old(maxCaptureSize)
      ensures hasModelConfig && old(captureSizes).Some? ==>
                Updated(old(captureSizes).value, old(maxCaptureSize), c, captureSizes, maxCaptureSize, r)
    {
      var original := captureSizes;
      captureSizes := None;
      if !hasModelConfig {
        return Ok(());
      }
      var limit := MaxSizes(c);
      if original.None? {
        return Err(TypeError);
      }
      var n := |original.value|;
      if limit < n {
        if limit == 1 {
          return Err(ZeroDivisionError);
        }
        if limit <= 0 {
          return Err(IndexError);
        }
        var sampled := SampleSizes(original.value, limit);
        ghost var indices := seq(limit, k requires 0 <= k < limit => Index(k, n, limit));
        IndicesAreASample(indices, n, limit);
        assert sampled[limit - 1] == original.value[indices[limit - 1]];
        r := UpdateCudagraphCaptureSizes(sampled);
      } else {
        captureSizes := original;
        r := Ok(());
      }
    }
  }

  // The configuration after an update of the given sizes.
  ghost predicate Updated(sizes: seq<int>, max: Option<int>, c: Settings,
                          newSizes: Option<seq<int>>, newMax: Option<int>, r: Result<(), Error>) {
    var m := MaxSizes(c);
    if m >= |sizes| then
      r == Ok(()) && newSizes == Some(sizes) && newMax == max
    else if m < 2 then
      && r == Err(if m == 1 then ZeroDivisionError else IndexError)
      && newSizes == None && newMax == max
    else
      var s := Sorted(Sample(sizes, m));
      && newSizes == Some(s) && newMax == Some(sizes[|sizes| - 1])
      && r == if s[|s| - 1] == sizes[|sizes| - 1] then Ok(()) else Err(AssertionError)
  }

  // From ordered sizes the update succeeds exactly when all fit or at least two do; then the sizes
  // kept are within the budget, and the greatest is still the greatest.
  lemma UpdateMeansBudget(sizes: seq<int>, max: Option<int>, c: Settings,
                          newSizes: Option<seq<int>>, newMax: Option<int>, r: Result<(), Error>)
    requires Ordered(sizes) && Updated(sizes, max, c, newSizes, newMax, r)
    ensures r.Ok? <==> MaxSizes(c) >= |sizes| || MaxSizes(c) >= 2
    ensures r.Ok? ==>
              && newSizes.Some?
              && |newSizes.value| == (if MaxSizes(c) < |sizes| then MaxSizes(c) else |sizes|)
              && |newSizes.value| * (Resources(c) * Factor(c)) + Reserved(c) <= MAX_CAPTURE_SIZE
              && newMax == (if MaxSizes(c) < |sizes| then Some(sizes[|sizes| - 1]) else max)
              && Ordered(newSizes.value)
              && (sizes != [] ==> newSizes.value != [] && newSizes.value[|newSizes.value| - 1] == sizes[|sizes| - 1])
  {
    var m := MaxSizes(c);
    if m >= |sizes| {
      BudgetIsExact(c, |sizes|);
    } else if m >= 2 {
      SampleOfOrdered(sizes, m);
      SortedOfOrdered(Sample(sizes, m));
      BudgetIsExact(c, m);
    }
  }

  // The sizes kept are as many as the streams allow: they fit, and if some were dropped one more would not.
  lemma UpdateFillsStreams(sizes: seq<int>, max: Option<int>, c: Settings,
                           newSizes: Option<seq<int>>, newMax: Option<int>, r: Result<(), Error>)
    requires Ordered(sizes) && Updated(sizes, max, c, newSizes, newMax, r) && r.Ok?
    ensures newSizes.Some? && WithinStreams(c, |newSizes.value|)
    ensures |newSizes.value| < |sizes| ==> !WithinStreams(c, |newSizes.value| + 1)
  {
    UpdateMeansBudget(sizes, max, c, newSizes, newMax, r);
    StreamsAreExact(c, |newSizes.value|);
    StreamsAreExact(c, |newSizes.value| + 1);
  }

  // 161 resources a graph, two communication groups, both context-parallel reservations: one size fits,
  // and the step of the sample divides by zero.
  const ONE_FITS := Settings(160, None, 2, 8, false, false, false, false, 2, 2)

  lemma OneSizeFails(newSizes: Option<seq<int>>, newMax: Option<int>, r: Result<(), Error>)
    requires Updated([1, 2, 4], Some(4), ONE_FITS, newSizes, newMax, r)
    ensures MaxSizes(ONE_FITS) == 1 && r == Err(ZeroDivisionError) && newSizes == None && newMax == Some(4)
  {
    BudgetIsExact(ONE_FITS, 1);
    BudgetIsExact(ONE_FITS, 2);
  }

  // With 401 resources a graph none fits, and the sample has no first index.
  const NONE_FITS := ONE_FITS.(layers := 400)

  lemma NoSizeFails(newSizes: Option<seq<int>>, newMax: Option<int>, r: Result<(), Error>)
    requires Updated([1, 2, 4], Some(4), NONE_FITS, newSizes, newMax, r)
    ensures MaxSizes(NONE_FITS) == 0 && r == Err(IndexError) && newSizes == None && newMax == Some(4)
  {
    BudgetIsExact(NONE_FITS, 0);
    BudgetIsExact(NONE_FITS, 1);
  }
}
