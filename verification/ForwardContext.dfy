// Padding and the shared MC2 mask of a forward context, in both model-runner generations.
module ForwardContext {
  import opened Text
  import opened Arith
  import MoeComm

  datatype Inputs = Inputs(
    numTokens: Option<nat>,        // num_tokens passed by the caller
    attnTokens: Option<nat>,       // num_actual_tokens of the attention metadata, if there is any
    numActual: Option<nat>,        // num_actual_tokens passed by the caller (first generation only)
    moe: bool, drafterMoe: bool, isDraft: bool,
    spEnabled: bool, flashcomm2: bool,
    dpWorldSize: nat, tokensAcrossDp: Option<seq<nat>>)

  datatype Padding = Padding(padSize: int, paddedLength: Option<nat>, maxTokensAcrossDp: Option<nat>,
                             paddedNumTokens: Option<nat>, numActual: Option<nat>)

  lemma RoundUpIsLeast(n: nat, tp: nat, k: nat)
    requires tp > 0
    ensures n <= RoundUp(n, tp) < n + tp && RoundUp(n, tp) % tp == 0
    ensures n <= k * tp ==> RoundUp(n, tp) <= k * tp
  {
    var q := (n + tp - 1) / tp;
    DivModParts(n + tp - 1, tp);
    DivModUnique(q, 0, tp);
    if n <= k * tp {
      QuotientAtMost(q, (n + tp - 1) % tp, k, tp - 1 - (k * tp - n), tp);
      MulMonotone(q, k, tp);
    }
  }

  // ---------- The fields both generations are meant to compute ----------

  function FlashComm(x: Inputs, tp: nat): bool {
    var v1 :=
      if (if x.isDraft then x.drafterMoe else x.moe) then x.spEnabled && x.numTokens.Some?
      else if x.isDraft then false
      else x.spEnabled && x.numTokens.Some? && x.numTokens.value > 1000;
    v1 || (x.flashcomm2 && tp > 1 && x.numTokens.Some?)
  }

  function OrElse(a: Option<nat>, b: Option<nat>): Option<nat> {
    if a.Some? then a else b
  }

  predicate SharesCounts(x: Inputs) {
    x.dpWorldSize > 1 && x.tokensAcrossDp.Some?
  }

  function PaddingOf(x: Inputs, tp: nat): Padding
    requires tp > 0
  {
    var n := OrElse(x.numTokens, x.attnTokens);
    if SharesCounts(x) then
      var m := MaxOf(x.tokensAcrossDp.value);
      Padding(if FlashComm(x, tp) then RoundUp(m, tp) - n.value else 0,
              if FlashComm(x, tp) then Some(RoundUp(m, tp)) else None,
              Some(m),
              if n.Some? then Some(RoundUp(m, tp)) else None,
              if n.Some? then OrElse(x.numActual, n) else None)
    else
      Padding(if FlashComm(x, tp) then RoundUp(n.value, tp) - n.value else 0,
              None, n,
              if n.Some? then Some(RoundUp(n.value, tp)) else None,
              if n.Some? then OrElse(x.numActual, n) else None)
  }

  // Flash-comm needs a token count. The first version is on for sequence parallelism with experts, and for
  // a dense target model above 1000 tokens; the second wherever it is enabled on several ranks.
  lemma FlashCommWhen(x: Inputs, tp: nat)
    ensures FlashComm(x, tp) <==>
            && x.numTokens.Some?
            && (|| (x.flashcomm2 && tp > 1)
                || (x.spEnabled && x.isDraft && x.drafterMoe)
                || (x.spEnabled && !x.isDraft && (x.moe || x.numTokens.value > 1000)))
  {
  }

  // m is the least multiple of tp that holds n.
  ghost predicate IsPadded(m: nat, n: nat, tp: nat)
    requires tp > 0
  {
    n <= m < n + tp && m % tp == 0
  }

  // Without shared counts a rank pads its own tokens: the padded count is the least multiple of tp that
  // holds them, and the pad is what is missing to it exactly when flash-comm is on. The tokens are those
  // given by the caller, or else those of the attention metadata; without either nothing is padded.
  lemma OwnPadding(x: Inputs, tp: nat)
    requires tp > 0 && (x.dpWorldSize <= 1 || x.tokensAcrossDp.None?)
    ensures var p := PaddingOf(x, tp);
            && p.paddedLength == None
            && (forall n :: x.numTokens == Some(n) || (x.numTokens.None? && x.attnTokens == Some(n)) ==>
                  && p.maxTokensAcrossDp == Some(n)
                  && p.paddedNumTokens.Some? && IsPadded(p.paddedNumTokens.value, n, tp)
                  && p.padSize == (if FlashComm(x, tp) then p.paddedNumTokens.value - n else 0))
            && (x.numTokens.None? && x.attnTokens.None? ==>
                  p == Padding(0, None, None, None, None))
  {
    var n := OrElse(x.numTokens, x.attnTokens);
    if n.Some? {
      RoundUpIsLeast(n.value, tp, 0);
    }
  }

  // With shared counts the largest of them is padded instead; the pad completes the rank's own tokens.
  lemma SharedPadding(x: Inputs, tp: nat)
    requires tp > 0 && x.dpWorldSize > 1 && x.tokensAcrossDp.Some? && x.tokensAcrossDp.value != []
    ensures var p := PaddingOf(x, tp);
            && p.maxTokensAcrossDp.Some? && p.maxTokensAcrossDp.value in x.tokensAcrossDp.value
            && (forall i :: 0 <= i < |x.tokensAcrossDp.value| ==>
                  x.tokensAcrossDp.value[i] <= p.maxTokensAcrossDp.value)
            && (p.paddedNumTokens.Some? <==> x.numTokens.Some? || x.attnTokens.Some?)
            && (p.paddedNumTokens.Some? ==> IsPadded(p.paddedNumTokens.value, p.maxTokensAcrossDp.value, tp))
            && (p.paddedLength.Some? <==> FlashComm(x, tp))
            && (FlashComm(x, tp) ==>
                  p.paddedLength == p.paddedNumTokens && p.padSize == p.paddedNumTokens.value - x.numTokens.value)
            && (!FlashComm(x, tp) ==> p.padSize == 0)
  {
    RoundUpIsLeast(MaxOf(x.tokensAcrossDp.value), tp, 0);
  }

  // The tokens the mask marks: the caller's actual count, or else the caller's count, or else that of the
  // attention metadata.
  ghost predicate Marks(x: Inputs, actual: nat) {
    || (x.numActual == Some(actual) && (x.numTokens.Some? || x.attnTokens.Some?))
    || (x.numActual.None? && x.numTokens == Some(actual))
    || (x.numActual.None? && x.numTokens.None? && x.attnTokens == Some(actual))
  }

  lemma ActualIsMarked(x: Inputs, tp: nat, actual: nat)
    requires tp > 0
    ensures PaddingOf(x, tp).numActual == Some(actual) <==> Marks(x, actual)
  {
  }

  function ModularPad(n: nat, tp: nat): int
    requires tp > 0
  {
    (tp - n % tp) % tp
  }

  // The modular pad completes n to a multiple of tp.
  lemma PadCompletes(n: nat, tp: nat)
    requires tp > 0
    ensures ModularPad(n, tp) == RoundUp(n, tp) - n
  {
    var q, r := n / tp, n % tp;
    DivModParts(n, tp);
    if r == 0 {
      DivModUnique(1, 0, tp);
      DivModUnique(q, tp - 1, tp);
    } else {
      DivModUnique(0, tp - r, tp);
      NextMultiple(q, r, tp);
    }
  }

  lemma NextMultiple(q: nat, r: nat, tp: nat)
    requires 0 < r < tp
    ensures RoundUp(q * tp + r, tp) == q * tp + tp
  {
    assert q * tp + r + tp - 1 == (q + 1) * tp + (r - 1);
    DivModUnique(q + 1, r - 1, tp);
  }

  // With flash-comm on and shared counts, every rank reaches the same length: the least multiple of
  // tp that holds every rank's tokens; its own pad is what is missing to it.
  lemma RanksPadAlike(x: Inputs, y: Inputs, tp: nat, r: nat, s: nat)
    requires tp > 0 && SharesCounts(x) && y == x.(numTokens := y.numTokens)
    requires r < |x.tokensAcrossDp.value| && s < |x.tokensAcrossDp.value|
    requires x.numTokens == Some(x.tokensAcrossDp.value[r]) && y.numTokens == Some(x.tokensAcrossDp.value[s])
    requires FlashComm(x, tp) && FlashComm(y, tp)
    ensures PaddingOf(x, tp).paddedLength == PaddingOf(y, tp).paddedLength == PaddingOf(x, tp).paddedNumTokens
    ensures PaddingOf(x, tp).paddedLength.Some? && PaddingOf(x, tp).paddedLength.value % tp == 0
    ensures PaddingOf(x, tp).padSize >= 0
    ensures x.numTokens.value + PaddingOf(x, tp).padSize == PaddingOf(x, tp).paddedLength.value
    ensures y.numTokens.value + PaddingOf(y, tp).padSize == PaddingOf(x, tp).paddedLength.value
    ensures forall k: nat :: (forall i :: 0 <= i < |x.tokensAcrossDp.value| ==> x.tokensAcrossDp.value[i] <= k * tp) ==>
              PaddingOf(x, tp).paddedLength.value <= k * tp
  {
    var tokens := x.tokensAcrossDp.value;
    var m := MaxOf(tokens);
    RoundUpIsLeast(m, tp, 0);
    forall k: nat | forall i :: 0 <= i < |tokens| ==> tokens[i] <= k * tp
      ensures RoundUp(m, tp) <= k * tp
    {
      var i :| 0 <= i < |tokens| && tokens[i] == m;
      RoundUpIsLeast(m, tp, k);
    }
  }

  // ---------- What the first-generation runner passes to each rank ----------

  // The inputs of rank r, from the counts of all ranks. Counts are exchanged for models with experts
  // only: a dense model has no data-parallel metadata.
  function ContextOf(c: MoeComm.Config, base: Inputs, padded: bool, tokens: seq<nat>, r: nat): Result<Inputs, string>
    requires r < |tokens| && |tokens| > 1
  {
    match MoeComm.Across(c, base.isDraft, padded, tokens, r)
    case Err(e) => Err(e)
    case Ok(across) =>
      Ok(base.(numTokens := Some(across[r]), tokensAcrossDp := Some(across), dpWorldSize := |tokens|))
  }

  ghost predicate SameModel(c: MoeComm.Config, base: Inputs) {
    c.moe && base.moe && base.drafterMoe == c.drafterMoe
  }

  // With experts, flash-comm does not depend on the count.
  predicate FlashOn(base: Inputs, tp: nat) {
    (base.spEnabled && (base.isDraft ==> base.drafterMoe)) || (base.flashcomm2 && tp > 1)
  }

  lemma FlashOnIs(base: Inputs, tp: nat)
    requires base.moe && base.numTokens.Some?
    ensures FlashComm(base, tp) <==> FlashOn(base, tp)
  {
    FlashCommWhen(base, tp);
  }

  // What rank r's padding is rounded from, and that it is not negative.
  lemma RankPads(c: MoeComm.Config, base: Inputs, padded: bool, tokens: seq<nat>, r: nat, tp: nat)
    requires tp > 0 && r < |tokens| && |tokens| > 1 && SameModel(c, base) && FlashOn(base, tp)
    requires ContextOf(c, base, padded, tokens, r).Ok?
    ensures MoeComm.Seen(c, base.isDraft, tokens, r).Ok?
    ensures var x := ContextOf(c, base, padded, tokens, r).value;
            var p := PaddingOf(x, tp);
            && p.paddedLength == p.paddedNumTokens == Some(RoundUp(MoeComm.Seen(c, base.isDraft, tokens, r).value, tp))
            && p.paddedLength.value % tp == 0 && p.padSize >= 0
            && tokens[r] <= x.numTokens.value && x.numTokens.value + p.padSize == p.paddedLength.value
  {
    var x := ContextOf(c, base, padded, tokens, r).value;
    MoeComm.SeenIsLargest(c, base.isDraft, padded, tokens, r);
    assert FlashComm(x, tp) && SharesCounts(x);
    RoundUpIsLeast(MaxOf(x.tokensAcrossDp.value), tp, 0);
  }

  // With flash-comm on, two ranks reach the same padded length exactly when the all-reduce was not
  // skipped or their own counts round up alike; a failing skip test fails on both.
  lemma RanksAgreeOnLength(c: MoeComm.Config, base: Inputs, padded: bool, tokens: seq<nat>, r: nat, s: nat, tp: nat)
    requires tp > 0 && r < |tokens| && s < |tokens| && |tokens| > 1 && SameModel(c, base) && FlashOn(base, tp)
    ensures ContextOf(c, base, padded, tokens, r).Ok? <==> MoeComm.Skips(c, base.isDraft).Ok?
    ensures ContextOf(c, base, padded, tokens, s).Ok? <==> MoeComm.Skips(c, base.isDraft).Ok?
    ensures MoeComm.Skips(c, base.isDraft).Ok? ==>
              var p := PaddingOf(ContextOf(c, base, padded, tokens, r).value, tp);
              var q := PaddingOf(ContextOf(c, base, padded, tokens, s).value, tp);
              && (p.paddedLength == q.paddedLength <==>
                    (MoeComm.Skips(c, base.isDraft) == Ok(true) ==> RoundUp(tokens[r], tp) == RoundUp(tokens[s], tp)))
              && (p.paddedNumTokens == q.paddedNumTokens <==> p.paddedLength == q.paddedLength)
  {
    if MoeComm.Skips(c, base.isDraft).Ok? {
      RankPads(c, base, padded, tokens, r, tp);
      RankPads(c, base, padded, tokens, s, tp);
    }
  }

  // Fused MC2 on A3 skips the all-reduce: ranks with 8 and 16 tokens and tp 4 pad to 8 and to 16.
  lemma SkippingSplitsLengths()
    ensures var base := Inputs(None, None, None, true, true, false, true, false, 2, None);
            var x := ContextOf(MoeComm.FUSED_A3, base, true, [8, 16], 0);
            var y := ContextOf(MoeComm.FUSED_A3, base, true, [8, 16], 1);
            && MoeComm.Skips(MoeComm.FUSED_A3, false) == Ok(true) && x.Ok? && y.Ok?
            && PaddingOf(x.value, 4).paddedLength == Some(8) && PaddingOf(y.value, 4).paddedLength == Some(16)
  {
    var base := Inputs(None, None, None, true, true, false, true, false, 2, None);
    assert MoeComm.Skips(MoeComm.FUSED_A3, false) == Ok(true);
    RankPads(MoeComm.FUSED_A3, base, true, [8, 16], 0, 4);
    RankPads(MoeComm.FUSED_A3, base, true, [8, 16], 1, 4);
  }

  // ---------- Rounding before the exchange ----------

  // The capacity both generations set.
  function CapacityOf(hasCaptureSizes: bool, maxCaptureSize: nat, maxReqs: nat, decodeLen: nat, tp: nat): nat
    requires tp > 0
  {
    RoundUp(if hasCaptureSizes then maxCaptureSize else Min(maxReqs * decodeLen, 512), tp)
  }

  // A rank with n scheduled tokens may enter the exchange with m: n is rounded up to tp under sequence
  // parallelism, and a count within the largest captured graph may be padded to a captured size.
  ghost predicate RoundsTo(c: MoeComm.Config, sp: bool, tp: nat, n: nat, m: nat)
    requires tp > 0
  {
    var even, largest := if sp then RoundUp(n, tp) else n, if c.hasCaptureSizes then c.maxCaptureSize else 0;
    if even <= largest then even <= m <= largest else m == even
  }

  ghost predicate AllRounded(c: MoeComm.Config, sp: bool, tp: nat, tokens: seq<nat>, rounded: seq<nat>)
    requires tp > 0
  {
    |rounded| == |tokens| && forall i :: 0 <= i < |tokens| ==> RoundsTo(c, sp, tp, tokens[i], rounded[i])
  }

  // For every batch within the scheduler's limit, ranks pick the same collective by the rounded counts,
  // which can exceed that limit.
  ghost predicate RoundedRanksAgree(c: MoeComm.Config, isDraft: bool, sp: bool, tp: nat)
    requires tp > 0
  {
    forall tokens: seq<nat>, rounded: seq<nat>, r: nat, s: nat |
      && r < |rounded| && s < |rounded| && MoeComm.Within(tokens, c.maxBatchedTokens)
      && AllRounded(c, sp, tp, tokens, rounded) ::
      MoeComm.PickAlike(c, isDraft, rounded, r, s)
  }

  // Rounding to tp does not cross a capacity that is a multiple of tp.
  lemma RoundUpKeepsSide(n: nat, tp: nat, m: nat)
    requires tp > 0
    ensures n <= RoundUp(m, tp) <==> RoundUp(n, tp) <= RoundUp(m, tp)
  {
    RoundUpIsLeast(n, tp, (m + tp - 1) / tp);
  }

  lemma RoundedKeepsSide(c: MoeComm.Config, maxReqs: nat, decodeLen: nat, sp: bool, tp: nat, n: nat, m: nat)
    requires tp > 0 && RoundsTo(c, sp, tp, n, m)
    ensures var capacity := CapacityOf(c.hasCaptureSizes, c.maxCaptureSize, maxReqs, decodeLen, tp);
            n <= capacity <==> m <= capacity
  {
    var most := if c.hasCaptureSizes then c.maxCaptureSize else Min(maxReqs * decodeLen, 512);
    RoundUpKeepsSide(n, tp, most);
    RoundUpIsLeast(n, tp, 0);
    RoundUpIsLeast(most, tp, 0);
  }

  lemma SameSideSame(c: MoeComm.Config, isDraft: bool, n: nat, m: nat)
    requires c.capacity.Some? ==> (n <= c.capacity.value <==> m <= c.capacity.value)
    ensures MoeComm.Select(n, c, isDraft) == MoeComm.Select(m, c, isDraft)
  {
  }

  // The capacity is unset or as the runner sets it.
  ghost predicate CapacitySet(c: MoeComm.Config, maxReqs: nat, decodeLen: nat, tp: nat)
    requires tp > 0
  {
    c.capacity.Some? ==>
      c.capacity.value == CapacityOf(c.hasCaptureSizes, c.maxCaptureSize, maxReqs, decodeLen, tp)
  }

  lemma RoundedPicks(c: MoeComm.Config, isDraft: bool, maxReqs: nat, decodeLen: nat, sp: bool, tp: nat,
                     tokens: seq<nat>, rounded: seq<nat>, r: nat, s: nat)
    requires tp > 0 && CapacitySet(c, maxReqs, decodeLen, tp) && AllRounded(c, sp, tp, tokens, rounded)
    requires r < |tokens| && s < |tokens|
    ensures MoeComm.PickAlike(c, isDraft, rounded, r, s) <==> MoeComm.PickAlike(c, isDraft, tokens, r, s)
  {
    if MoeComm.Skips(c, isDraft) == Ok(true) {
      RoundedKeepsSide(c, maxReqs, decodeLen, sp, tp, tokens[r], rounded[r]);
      SameSideSame(c, isDraft, tokens[r], rounded[r]);
      RoundedKeepsSide(c, maxReqs, decodeLen, sp, tp, tokens[s], rounded[s]);
      SameSideSame(c, isDraft, tokens[s], rounded[s]);
    } else {
      MoeComm.ReducedPicks(c, isDraft, tokens, r, s);
      MoeComm.ReducedPicks(c, isDraft, rounded, r, s);
    }
  }

  // Padding for sequence parallelism alone.
  function EvenCounts(tokens: seq<nat>, sp: bool, tp: nat): seq<nat>
    requires tp > 0
  {
    seq(|tokens|, i requires 0 <= i < |tokens| => if sp then RoundUp(tokens[i], tp) else tokens[i])
  }

  // With the capacity set as the runner sets it, rounding before the exchange changes nothing about
  // agreement: ranks agree by rounded counts exactly when they do by the scheduled ones.
  lemma RoundingKeepsAgreement(c: MoeComm.Config, isDraft: bool, maxReqs: nat, decodeLen: nat, sp: bool, tp: nat)
    requires tp > 0 && CapacitySet(c, maxReqs, decodeLen, tp)
    ensures RoundedRanksAgree(c, isDraft, sp, tp) <==> MoeComm.RanksAgree(c, isDraft, c.maxBatchedTokens)
  {
    if RoundedRanksAgree(c, isDraft, sp, tp) {
      forall tokens: seq<nat>, r: nat, s: nat |
          r < |tokens| && s < |tokens| && MoeComm.Within(tokens, c.maxBatchedTokens)
        ensures MoeComm.PickAlike(c, isDraft, tokens, r, s)
      {
        var rounded := EvenCounts(tokens, sp, tp);
        assert AllRounded(c, sp, tp, tokens, rounded);
        RoundedPicks(c, isDraft, maxReqs, decodeLen, sp, tp, tokens, rounded, r, s);
      }
    }
    if MoeComm.RanksAgree(c, isDraft, c.maxBatchedTokens) {
      forall tokens: seq<nat>, rounded: seq<nat>, r: nat, s: nat |
          && r < |rounded| && s < |rounded| && MoeComm.Within(tokens, c.maxBatchedTokens)
          && AllRounded(c, sp, tp, tokens, rounded)
        ensures MoeComm.PickAlike(c, isDraft, rounded, r, s)
      {
        RoundedPicks(c, isDraft, maxReqs, decodeLen, sp, tp, tokens, rounded, r, s);
      }
    }
  }

  // ---------- The shared mask ----------

  // mask = reserved[:padded]; mask[:actual] = True; mask[actual:] = False
  function Masked(buffer: seq<bool>, padded: nat, actual: nat): (r: seq<bool>)
    ensures |r| == |buffer|
  {
    seq(|buffer|, i requires 0 <= i < |buffer| => if i < padded then i < actual else buffer[i])
  }

  function MaskedBy(buffer: seq<bool>, p: Padding): seq<bool> {
    if p.paddedNumTokens.Some? && p.numActual.Some? then Masked(buffer, p.paddedNumTokens.value, p.numActual.value)
    else buffer
  }

  // After a context is entered: below the padded count a bit says whether its token is actual, later bits
  // are untouched, and without a token count all are.
  ghost predicate Marked(x: Inputs, padded: Option<nat>, before: seq<bool>, after: seq<bool>) {
    && |after| == |before|
    && (x.numTokens.None? && x.attnTokens.None? ==> after == before)
    && (forall actual: nat, i | Marks(x, actual) && 0 <= i < |after| ::
          after[i] == if padded.Some? && i < padded.value then i < actual else before[i])
  }

  lemma MaskIsMarked(x: Inputs, tp: nat, buffer: seq<bool>)
    requires tp > 0
    ensures Marked(x, PaddingOf(x, tp).paddedNumTokens, buffer, MaskedBy(buffer, PaddingOf(x, tp)))
  {
    var p := PaddingOf(x, tp);
    var after := MaskedBy(buffer, p);
    forall actual: nat, i | Marks(x, actual) && 0 <= i < |after|
      ensures after[i] == if p.paddedNumTokens.Some? && i < p.paddedNumTokens.value then i < actual else buffer[i]
    {
      ActualIsMarked(x, tp, actual);
    }
  }

  // The mask a context sees: a slice of the buffer, cut at its end.
  function View(buffer: seq<bool>, padded: nat): seq<bool> {
    buffer[..Min(padded, |buffer|)]
  }

  datatype Use = Use(padded: nat, actual: nat)

  ghost function AfterUses(buffer: seq<bool>, uses: seq<Use>): (r: seq<bool>)
    ensures |r| == |buffer|
  {
    if uses == [] then buffer
    else Masked(AfterUses(buffer, uses[..|uses| - 1]), uses[|uses| - 1].padded, uses[|uses| - 1].actual)
  }

  ghost function TrueBits(mask: seq<bool>): nat {
    if mask == [] then 0 else TrueBits(mask[..|mask| - 1]) + (if mask[|mask| - 1] then 1 else 0)
  }

  lemma {:induction false} PrefixBits(mask: seq<bool>, actual: nat)
    requires forall i :: 0 <= i < |mask| ==> mask[i] == (i < actual)
    ensures TrueBits(mask) == Min(actual, |mask|)
  {
    if mask == [] {
    } else {
      PrefixBits(mask[..|mask| - 1], actual);
    }
  }

  // However often the buffer was used before, the mask of the current context is true exactly on its
  // first tokens; it marks all of them exactly when the slice is long enough.
  lemma MaskIsNeverStale(buffer: seq<bool>, uses: seq<Use>)
    requires uses != []
    ensures var u := uses[|uses| - 1];
            var mask := View(AfterUses(buffer, uses), u.padded);
            && |mask| == Min(u.padded, |buffer|)
            && (forall i :: 0 <= i < |mask| ==> mask[i] == (i < u.actual))
            && (TrueBits(mask) == u.actual <==> u.actual <= u.padded && u.actual <= |buffer|)
  {
    var u := uses[|uses| - 1];
    PrefixBits(View(AfterUses(buffer, uses), u.padded), u.actual);
  }

  // A context entered inside another one writes the same buffer. The outer mask is intact afterwards
  // exactly when the two agree on the tokens both slices cover.
  lemma OuterMaskSurvives(buffer: seq<bool>, outer: Use, inner: Use)
    ensures var both := Min(Min(outer.padded, inner.padded), |buffer|);
            View(AfterUses(buffer, [outer, inner]), outer.padded) == View(AfterUses(buffer, [outer]), outer.padded) <==>
            Min(outer.actual, both) == Min(inner.actual, both)
  {
    var one, two := Masked(buffer, outer.padded, outer.actual), AfterUses(buffer, [outer, inner]);
    assert [outer, inner][..1] == [outer] && [outer][..0] == [];
    assert AfterUses(buffer, [outer]) == one && two == Masked(one, inner.padded, inner.actual);
    InnerWrite(buffer, one, two, outer, inner);
  }

  // An inner context with one token over an outer one with three.
  lemma InnerOverwrites()
    ensures var buffer, outer, inner := [false, false, false, false], Use(4, 3), Use(4, 1);
            && View(AfterUses(buffer, [outer]), 4) == [true, true, true, false]
            && View(AfterUses(buffer, [outer, inner]), 4) == [true, false, false, false]
  {
    var outer, inner := Use(4, 3), Use(4, 1);
    assert [outer, inner][..1] == [outer] && [outer][..0] == [];
  }

  lemma InnerWrite(buffer: seq<bool>, one: seq<bool>, two: seq<bool>, outer: Use, inner: Use)
    requires one == Masked(buffer, outer.padded, outer.actual) && two == Masked(one, inner.padded, inner.actual)
    ensures var both := Min(Min(outer.padded, inner.padded), |buffer|);
            View(two, outer.padded) == View(one, outer.padded) <==> Min(outer.actual, both) == Min(inner.actual, both)
  {
    var both := Min(Min(outer.padded, inner.padded), |buffer|);
    var a, b := View(one, outer.padded), View(two, outer.padded);
    if Min(outer.actual, both) == Min(inner.actual, both) {
      assert forall i :: 0 <= i < |a| ==> a[i] == b[i];
    } else {
      var i := Min(outer.actual, inner.actual);
      assert a[i] != b[i];
    }
  }

  // ---------- The two generations, and the module globals they share ----------

  class Runner {
    const tp: nat
    var reservedMask: array?<bool>
    var tokensCapacity: Option<nat>

    constructor (tp: nat)
      requires tp > 0
      ensures this.tp == tp && reservedMask == null && tokensCapacity == None
    {
      this.tp, reservedMask, tokensCapacity := tp, null, None;
    }

    // Set once; later calls change nothing.
    method SetMc2TokensCapacity(hasCaptureSizes: bool, maxCaptureSize: nat, maxReqs: nat, decodeLen: nat)
      requires tp > 0
      modifies this`tokensCapacity
      ensures old(tokensCapacity).Some? ==> tokensCapacity == old(tokensCapacity)
      ensures old(tokensCapacity).None? ==>
                tokensCapacity == Some(CapacityOf(hasCaptureSizes, maxCaptureSize, maxReqs, decodeLen, tp))
    {
      if tokensCapacity.Some? {
        return;
      }
      var maxTokens := if hasCaptureSizes then maxCaptureSize else Min(maxReqs * decodeLen, 512);
      var perRank := (maxTokens + tp - 1) / tp;
      tokensCapacity := Some(perRank * tp);
    }

    // Allocated once, for a model with experts only.
    method SetMc2Mask(moe: bool, maxBatchedTokens: nat)
      modifies this`reservedMask
      ensures old(reservedMask) != null || !moe ==> reservedMask == old(reservedMask)
      ensures old(reservedMask) == null && moe ==>
                && reservedMask != null && fresh(reservedMask) && reservedMask.Length == maxBatchedTokens
                && forall i :: 0 <= i < maxBatchedTokens ==> !reservedMask[i]
    {
      if reservedMask != null {
        return;
      }
      if moe {
        reservedMask := new bool[maxBatchedTokens](_ => false);
      } else {
        reservedMask := null;
      }
    }

    method WriteMask(mask: array<bool>, padded: nat, actual: nat)
      modifies mask
      ensures mask[..] == Masked(old(mask[..]), padded, actual)
    {
      var len := Min(padded, mask.Length);
      forall i | 0 <= i < Min(actual, len) {
        mask[i] := true;
      }
      forall i | actual <= i < len {
        mask[i] := false;
      }
    }

    // set_ascend_forward_context
    method EnterV1(x: Inputs) returns (p: Padding)
      requires tp > 0 && (x.tokensAcrossDp.Some? ==> x.tokensAcrossDp.value != [])
      modifies reservedMask
      ensures p == PaddingOf(x, tp)
      ensures reservedMask != null ==> reservedMask[..] == MaskedBy(old(reservedMask[..]), p)
      ensures reservedMask != null ==> Marked(x, p.paddedNumTokens, old(reservedMask[..]), reservedMask[..])
    {
      if reservedMask != null {
        MaskIsMarked(x, tp, reservedMask[..]);
      }
      var numTokens, numActual := x.numTokens, x.numActual;
      var contextMoe := if x.isDraft then x.drafterMoe else x.moe;
      var flashV1;
      if contextMoe {
        flashV1 := x.spEnabled && numTokens.Some?;
      } else if x.isDraft {
        flashV1 := false;
      } else {
        flashV1 := x.spEnabled && numTokens.Some? && numTokens.value > 1000;
      }
      var flashV2 := x.flashcomm2 && tp > 1 && numTokens.Some?;
      var padSize: int, paddedLength: Option<nat> := 0, None;
      if flashV1 || flashV2 {
        PadCompletes(numTokens.value, tp);
        padSize := ModularPad(numTokens.value, tp);
      }
      if numTokens.None? && x.attnTokens.Some? {
        numTokens := x.attnTokens;
      }
      var maxTokens: Option<nat>;
      if x.dpWorldSize > 1 && x.tokensAcrossDp.Some? {
        var m := MaxOf(x.tokensAcrossDp.value);
        maxTokens := Some(m);
        if flashV1 || flashV2 {
          paddedLength := Some(RoundUp(m, tp));
          padSize := paddedLength.value - numTokens.value;
        }
      } else {
        maxTokens := numTokens;
      }
      var paddedNumTokens: Option<nat> := None;
      if numTokens.Some? {
        if numActual.None? {
          numActual := numTokens;
        }
        paddedNumTokens := Some(RoundUp(maxTokens.value, tp));
        if reservedMask != null {
          WriteMask(reservedMask, paddedNumTokens.value, numActual.value);
        }
      }
      p := Padding(padSize, paddedLength, maxTokens, paddedNumTokens, if numTokens.Some? then numActual else None);
    }

    // set_additional_forward_context: no draft model, and the actual count is num_tokens.
    method EnterV2(x: Inputs) returns (p: Padding)
      requires tp > 0 && (x.tokensAcrossDp.Some? ==> x.tokensAcrossDp.value != [])
      modifies reservedMask
      ensures p == PaddingOf(x.(isDraft := false, numActual := None), tp)
      ensures reservedMask != null ==> reservedMask[..] == MaskedBy(old(reservedMask[..]), p)
      ensures reservedMask != null ==>
                Marked(x.(numActual := None), p.paddedNumTokens, old(reservedMask[..]), reservedMask[..])
    {
      if reservedMask != null {
        MaskIsMarked(x.(isDraft := false, numActual := None), tp, reservedMask[..]);
      }
      var numTokens := x.numTokens;
      var flashV1;
      if x.moe {
        flashV1 := x.spEnabled && numTokens.Some?;
      } else {
        flashV1 := x.spEnabled && numTokens.Some? && numTokens.value > 1000;
      }
      var flashV2 := x.flashcomm2 && tp > 1 && numTokens.Some?;
      var padSize: int, paddedLength: Option<nat> := 0, None;
      if flashV1 || flashV2 {
        PadCompletes(numTokens.value, tp);
        padSize := ModularPad(numTokens.value, tp);
      }
      if numTokens.None? && x.attnTokens.Some? {
        numTokens := x.attnTokens;
      }
      var maxTokens := numTokens;
      if x.dpWorldSize > 1 && x.tokensAcrossDp.Some? {
        maxTokens := Some(MaxOf(x.tokensAcrossDp.value));
        if flashV1 || flashV2 {
          paddedLength := Some(RoundUp(maxTokens.value, tp));
          padSize := paddedLength.value - numTokens.value;
        }
      }
      var paddedNumTokens: Option<nat> := None;
      if numTokens.Some? {
        paddedNumTokens := Some(RoundUp(maxTokens.value, tp));
        if reservedMask != null {
          WriteMask(reservedMask, paddedNumTokens.value, numTokens.value);
        }
      }
      p := Padding(padSize, paddedLength, maxTokens, paddedNumTokens, numTokens);
    }
  }
}
