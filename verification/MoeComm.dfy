// Which collective each data-parallel rank picks for a mixture-of-experts layer, and when ranks that
// do not compare token counts still pick the same one.
module MoeComm {
  import opened Text
  import opened Arith

  datatype Soc = A2 | A3 | Soc310P | A5 | OtherSoc

  datatype CommType = AllGather | Mc2 | AllToAll | FusedMc2

  // What the choice reads besides the token count. The MC2 capacity is None until it has been set.
  datatype Config = Config(
    moe: bool, drafterMoe: bool, soc: Soc, expertParallel: bool, epWorldSize: nat, capacity: Option<int>,
    numExperts: nat, worldSizeAcrossDp: nat, pipelineSize: nat, expertsPerToken: nat,
    fusedMc2: int, gmmCombineDecode: bool, w8a8Dynamic: bool,
    hierarchical: bool, kvConsumer: bool, recomputeScheduler: bool,
    hasCaptureSizes: bool, maxCaptureSize: nat, maxBatchedTokens: nat, maxSeqs: nat, decodeMaxSeqs: nat,
    speculativeTokens: Option<nat>)

  // ---------- select_moe_comm_method ----------

  type Choice = Result<Option<CommType>, string>

  function SelectA2(n: int, c: Config): Choice {
    if c.pipelineSize == 0 || c.worldSizeAcrossDp / c.pipelineSize == 0 then Err("ZeroDivisionError")
    else
      var ep := c.worldSizeAcrossDp / c.pipelineSize;
      if c.numExperts / ep <= 24 && ep >= 16 then
        if c.capacity.None? then Err("TypeError")
        else if n <= c.capacity.value then Ok(Some(Mc2)) else Ok(Some(AllGather))
      else Ok(Some(AllGather))
  }

  function SelectA3(n: int, c: Config, isDraft: bool): Choice {
    var ffnCombine := c.epWorldSize <= 32 && !isDraft;
    if c.capacity.None? then Err("TypeError")
    else if n <= c.capacity.value then
      var fused :=
        if c.fusedMc2 == 1 then ffnCombine
        else if c.fusedMc2 == 2 then c.gmmCombineDecode && c.w8a8Dynamic
        else c.fusedMc2 != 0;
      Ok(Some(if fused then FusedMc2 else Mc2))
    else
      var fused :=
        if c.fusedMc2 == 1 then ffnCombine
        else if c.fusedMc2 == 2 then false
        else c.fusedMc2 != 0;
      Ok(Some(if fused then FusedMc2 else AllToAll))
  }

  function SelectA5(n: int, c: Config): Choice {
    if c.capacity.None? then Err("TypeError")
    else if n <= c.capacity.value && c.worldSizeAcrossDp > 1 then Ok(Some(Mc2))
    else if c.worldSizeAcrossDp <= c.expertsPerToken then Ok(Some(AllGather))
    else Ok(Some(AllToAll))
  }

  function Select(n: int, c: Config, isDraft: bool): Choice {
    if !c.moe then Ok(None)
    else if !c.expertParallel || c.epWorldSize == 1 then Ok(Some(AllGather))
    else
      match c.soc
      case A2 => SelectA2(n, c)
      case A3 => SelectA3(n, c, isDraft)
      case Soc310P => Ok(Some(AllGather))
      case A5 => SelectA5(n, c)
      case OtherSoc => Err("ValueError")
  }

  // ---------- Which collective, from the configuration ----------

  // Experts are spread over several ranks.
  predicate Spread(c: Config) {
    c.moe && c.expertParallel && c.epWorldSize != 1
  }

  predicate Fits(n: int, c: Config) {
    c.capacity.Some? && n <= c.capacity.value
  }

  predicate Exceeds(n: int, c: Config) {
    c.capacity.Some? && n > c.capacity.value
  }

  // On A2, MC2 needs at least 16 ranks per pipeline stage and at most 24 whole experts on each.
  predicate WideEnough(c: Config) {
    && c.pipelineSize > 0 && 16 * c.pipelineSize <= c.worldSizeAcrossDp
    && c.numExperts < 25 * (c.worldSizeAcrossDp / c.pipelineSize)
  }

  // On A3, the fused kernel for counts above the capacity: never for setting 2, and for setting 1 only on
  // the target model with up to 32 ranks.
  predicate FusedPrefill(c: Config, isDraft: bool) {
    c.fusedMc2 !in {0, 2} && (c.fusedMc2 == 1 ==> c.epWorldSize <= 32 && !isDraft)
  }

  // Within the capacity setting 2 fuses as well, if the model and its quantisation allow it.
  predicate FusedDecode(c: Config, isDraft: bool) {
    FusedPrefill(c, isDraft) || (c.fusedMc2 == 2 && c.gmmCombineDecode && c.w8a8Dynamic)
  }

  lemma WideEnoughIs(c: Config)
    requires c.pipelineSize > 0 && c.worldSizeAcrossDp / c.pipelineSize > 0
    ensures WideEnough(c) <==>
            var ep := c.worldSizeAcrossDp / c.pipelineSize;
            c.numExperts / ep <= 24 && ep >= 16
  {
    var ep := c.worldSizeAcrossDp / c.pipelineSize;
    QuotientBelow(c.numExperts, ep, 25);
    QuotientBelow(c.worldSizeAcrossDp, c.pipelineSize, 16);
  }

  lemma QuotientBelow(a: nat, d: nat, k: nat)
    requires d > 0
    ensures a / d < k <==> a < k * d
  {
    DivModParts(a, d);
    if a / d < k {
      MulMonotone(a / d + 1, k, d);
      assert (a / d + 1) * d == (a / d) * d + d;
    } else {
      MulMonotone(k, a / d, d);
    }
  }

  // Nothing is selected exactly for a model without experts.
  lemma SelectsNothing(n: int, c: Config, isDraft: bool)
    ensures Select(n, c, isDraft) == Ok(None) <==> !c.moe
  {
  }

  lemma SelectsMc2(n: int, c: Config, isDraft: bool)
    ensures Select(n, c, isDraft) == Ok(Some(Mc2)) <==>
            && Spread(c) && Fits(n, c)
            && match c.soc
               case A2 => WideEnough(c)
               case A3 => !FusedDecode(c, isDraft)
               case A5 => c.worldSizeAcrossDp > 1
               case _ => false
  {
    if c.soc == A2 && c.pipelineSize > 0 && c.worldSizeAcrossDp / c.pipelineSize > 0 {
      WideEnoughIs(c);
    }
    NoStage(c);
  }

  // The fused kernel exists on A3 only.
  lemma SelectsFusedMc2(n: int, c: Config, isDraft: bool)
    ensures Select(n, c, isDraft) == Ok(Some(FusedMc2)) <==>
            && Spread(c) && c.soc == A3
            && ((Fits(n, c) && FusedDecode(c, isDraft)) || (Exceeds(n, c) && FusedPrefill(c, isDraft)))
  {
  }

  // All-to-all is what A3 and A5 fall back to where MC2 is out, A5 only with more ranks than experts per
  // token.
  lemma SelectsAllToAll(n: int, c: Config, isDraft: bool)
    ensures Select(n, c, isDraft) == Ok(Some(AllToAll)) <==>
            && Spread(c)
            && ((c.soc == A3 && Exceeds(n, c) && !FusedPrefill(c, isDraft))
                || (c.soc == A5 && c.capacity.Some? && c.worldSizeAcrossDp > c.expertsPerToken
                    && (Exceeds(n, c) || c.worldSizeAcrossDp <= 1)))
  {
  }

  // All-gather serves experts that are not spread, 310P, A2 where MC2 is out, and A5 with at most as many
  // ranks as experts per token.
  lemma SelectsAllGather(n: int, c: Config, isDraft: bool)
    ensures Select(n, c, isDraft) == Ok(Some(AllGather)) <==>
            && c.moe
            && (|| !Spread(c) || c.soc == Soc310P
                || (c.soc == A2 && 0 < c.pipelineSize <= c.worldSizeAcrossDp && (!WideEnough(c) || Exceeds(n, c)))
                || (c.soc == A5 && c.capacity.Some? && c.worldSizeAcrossDp <= c.expertsPerToken
                    && (Exceeds(n, c) || c.worldSizeAcrossDp <= 1)))
  {
    if c.soc == A2 && c.pipelineSize > 0 && c.worldSizeAcrossDp / c.pipelineSize > 0 {
      WideEnoughIs(c);
    }
    NoStage(c);
  }

  lemma NoStage(c: Config)
    ensures c.pipelineSize > 0 ==>
              (c.worldSizeAcrossDp / c.pipelineSize > 0 <==> c.pipelineSize <= c.worldSizeAcrossDp)
  {
    if c.pipelineSize > 0 {
      QuotientBelow(c.worldSizeAcrossDp, c.pipelineSize, 1);
    }
  }

  // The error cases: an unknown device, a capacity that was never set, no rank per pipeline stage.
  lemma SelectsError(n: int, c: Config, isDraft: bool, e: string)
    ensures Select(n, c, isDraft) == Err(e) <==>
            && Spread(c)
            && match c.soc
               case A2 =>
                 || (e == "ZeroDivisionError" && !(0 < c.pipelineSize <= c.worldSizeAcrossDp))
                 || (e == "TypeError" && WideEnough(c) && c.capacity.None?)
               case Soc310P => false
               case OtherSoc => e == "ValueError"
               case _ => e == "TypeError" && c.capacity.None?
  {
    if c.soc == A2 && c.pipelineSize > 0 && c.worldSizeAcrossDp / c.pipelineSize > 0 {
      WideEnoughIs(c);
    }
    NoStage(c);
  }

  // What follows per device, above the capacity.
  lemma AboveCapacity(n: int, c: Config, isDraft: bool)
    requires Spread(c) && Exceeds(n, c) && Select(n, c, isDraft).Ok?
    ensures c.soc == A2 || c.soc == Soc310P ==> Select(n, c, isDraft) == Ok(Some(AllGather))
    ensures c.soc == A3 ==> Select(n, c, isDraft) == Ok(Some(if FusedPrefill(c, isDraft) then FusedMc2 else AllToAll))
    ensures c.soc == A5 ==>
              Select(n, c, isDraft) ==
              Ok(Some(if c.worldSizeAcrossDp <= c.expertsPerToken then AllGather else AllToAll))
  {
    SelectsError(n, c, isDraft, "ZeroDivisionError");
    SelectsError(n, c, isDraft, "ValueError");
    SelectsAllGather(n, c, isDraft);
    SelectsAllToAll(n, c, isDraft);
    SelectsFusedMc2(n, c, isDraft);
  }

  predicate IsMc2(r: Choice) {
    r == Ok(Some(Mc2)) || r == Ok(Some(FusedMc2))
  }

  // ---------- should_skip_allreduce_across_dp_group ----------

  function UniformDecodeLen(c: Config): nat {
    match c.speculativeTokens case None => 1 case Some(k) => 1 + k
  }

  function PotentialMaxTokens(c: Config): nat {
    if c.hasCaptureSizes then Max(c.maxCaptureSize, Min(c.maxBatchedTokens, c.maxSeqs * UniformDecodeLen(c)))
    else Min(Max(c.maxSeqs, c.decodeMaxSeqs) * UniformDecodeLen(c), 512)
  }

  function Skips(c: Config, isDraft: bool): Result<bool, string> {
    if c.hierarchical then Ok(false)
    else if !(if isDraft then c.drafterMoe else c.moe) then Ok(true)
    else if !c.kvConsumer then Ok(false)
    else
      var decode := Select(PotentialMaxTokens(c), c, false);
      var prefill := Select(c.maxBatchedTokens, c, false);
      if decode.Err? then Err(decode.error)
      else if prefill.Err? then Err(prefill.error)
      else Ok(IsMc2(decode) && (IsMc2(prefill) || c.recomputeScheduler))
  }

  // The largest decode batch is the least count that covers the captured graphs and a decode step of all
  // sequences within the scheduler's limit; without graphs, a decode step cut at 512.
  lemma PotentialMaxIsLeast(c: Config, k: nat)
    ensures var len := 1 + (if c.speculativeTokens.Some? then c.speculativeTokens.value else 0);
            PotentialMaxTokens(c) <= k <==>
            if c.hasCaptureSizes then c.maxCaptureSize <= k && (c.maxBatchedTokens <= k || c.maxSeqs * len <= k)
            else 512 <= k || (c.maxSeqs * len <= k && c.decodeMaxSeqs * len <= k)
  {
    var len := UniformDecodeLen(c);
    if c.maxSeqs < c.decodeMaxSeqs {
      MulMonotone(c.maxSeqs, c.decodeMaxSeqs, len);
    } else {
      MulMonotone(c.decodeMaxSeqs, c.maxSeqs, len);
    }
  }

  // n tokens of the target model need an MC2 method.
  predicate NeedsMc2(n: int, c: Config) {
    && Spread(c)
    && match c.soc
       case A2 => WideEnough(c) && Fits(n, c)
       case A3 => Fits(n, c) || (Exceeds(n, c) && FusedPrefill(c, false))
       case A5 => c.worldSizeAcrossDp > 1 && Fits(n, c)
       case _ => false
  }

  lemma NeedsMc2Is(n: int, c: Config)
    ensures IsMc2(Select(n, c, false)) <==> NeedsMc2(n, c)
  {
    SelectsMc2(n, c, false);
    SelectsFusedMc2(n, c, false);
  }

  // Ranks skip exactly without hierarchical communication, and then for a model without experts, or on a
  // KV consumer whose decode needs MC2 and whose prefill does too or may be recomputed. A failing
  // selection matters only there.
  lemma SkipsWhen(c: Config, isDraft: bool)
    ensures var experts := if isDraft then c.drafterMoe else c.moe;
            && (Skips(c, isDraft) == Ok(true) <==>
                  && !c.hierarchical
                  && (!experts || (&& c.kvConsumer && NeedsMc2(PotentialMaxTokens(c), c)
                                   && (NeedsMc2(c.maxBatchedTokens, c) || c.recomputeScheduler))))
            && (Skips(c, isDraft).Err? <==>
                  !c.hierarchical && experts && c.kvConsumer && Select(c.maxBatchedTokens, c, false).Err?)
  {
    NeedsMc2Is(PotentialMaxTokens(c), c);
    NeedsMc2Is(c.maxBatchedTokens, c);
  }

  // ---------- What each rank sees and picks ----------

  // num_tokens_across_dp on rank r of several: its own count repeated when the all-reduce is skipped;
  // otherwise all counts, or the largest one repeated when ranks are padded to each other.
  function Across(c: Config, isDraft: bool, padded: bool, tokens: seq<nat>, r: nat): Result<seq<nat>, string>
    requires r < |tokens|
  {
    match Skips(c, isDraft)
    case Err(e) => Err(e)
    case Ok(skip) =>
      Ok(if skip then seq(|tokens|, _ => tokens[r])
         else if padded || isDraft then seq(|tokens|, _ => MaxOf(tokens))
         else tokens)
  }

  // A rank that skips knows its own count only; otherwise all ranks know all counts, each in its place, or
  // all pad to the largest: with padding, and always for a draft.
  lemma AcrossEntries(c: Config, isDraft: bool, padded: bool, tokens: seq<nat>, r: nat, i: nat)
    requires r < |tokens| && i < |tokens| && Across(c, isDraft, padded, tokens, r).Ok?
    ensures var across := Across(c, isDraft, padded, tokens, r).value;
            && |across| == |tokens|
            && (Skips(c, isDraft) == Ok(true) ==> across[i] == tokens[r])
            && (Skips(c, isDraft) == Ok(false) ==> tokens[i] <= across[i] && across[i] in tokens)
            && (Skips(c, isDraft) == Ok(false) && !padded && !isDraft ==> across[i] == tokens[i])
            && (Skips(c, isDraft) == Ok(false) && padded ==> across[i] == across[r])
            && (Skips(c, isDraft) == Ok(false) && isDraft ==> across[i] == across[r])
  {
  }

  // The count the collective is picked by: its own on a single rank or when the all-reduce is skipped,
  // the largest of all ranks otherwise.
  function Seen(c: Config, isDraft: bool, tokens: seq<nat>, r: nat): Result<nat, string>
    requires r < |tokens|
  {
    if |tokens| == 1 then Ok(tokens[r])
    else
      match Skips(c, isDraft)
      case Err(e) => Err(e)
      case Ok(skip) => Ok(if skip then tokens[r] else MaxOf(tokens))
  }

  // It is the largest entry of the counts the rank was given, padded or not.
  lemma SeenIsLargest(c: Config, isDraft: bool, padded: bool, tokens: seq<nat>, r: nat)
    requires r < |tokens| && |tokens| > 1 && Across(c, isDraft, padded, tokens, r).Ok?
    ensures Seen(c, isDraft, tokens, r) == Ok(MaxOf(Across(c, isDraft, padded, tokens, r).value))
  {
    var across := Across(c, isDraft, padded, tokens, r).value;
    assert MaxOf(across) in across;
  }

  function Picks(c: Config, isDraft: bool, tokens: seq<nat>, r: nat): Choice
    requires r < |tokens|
  {
    match Seen(c, isDraft, tokens, r)
    case Err(e) => Err(e)
    case Ok(n) => Select(n, c, isDraft)
  }

  // No rank has more than b tokens.
  ghost predicate Within(tokens: seq<nat>, b: nat) {
    forall i :: 0 <= i < |tokens| ==> tokens[i] <= b
  }

  ghost predicate PickAlike(c: Config, isDraft: bool, tokens: seq<nat>, r: nat, s: nat)
    requires r < |tokens| && s < |tokens|
  {
    Picks(c, isDraft, tokens, r) == Picks(c, isDraft, tokens, s)
  }

  // For every batch of up to b tokens per rank, all ranks pick the same collective.
  ghost predicate RanksAgree(c: Config, isDraft: bool, b: nat) {
    forall tokens: seq<nat>, r: nat, s: nat | r < |tokens| && s < |tokens| && Within(tokens, b) ::
      PickAlike(c, isDraft, tokens, r, s)
  }

  // ---------- The choice is a threshold in the token count ----------

  lemma OneThreshold(c: Config, isDraft: bool, n: int, m: int)
    requires 0 <= n <= m && Select(0, c, isDraft) == Select(m, c, isDraft)
    ensures Select(n, c, isDraft) == Select(m, c, isDraft)
  {
  }

  // A count that needs MC2 makes every smaller count pick the same method.
  lemma Mc2IsDownwardClosed(c: Config, n: int, m: int)
    requires n <= m && IsMc2(Select(m, c, false))
    ensures Select(n, c, false) == Select(m, c, false)
  {
  }

  lemma AgreeIffOneSide(c: Config, isDraft: bool, b: nat)
    requires Skips(c, isDraft) == Ok(true)
    ensures RanksAgree(c, isDraft, b) <==> Select(0, c, isDraft) == Select(b, c, isDraft)
  {
    if Select(0, c, isDraft) == Select(b, c, isDraft) {
      forall tokens: seq<nat>, r: nat, s: nat | r < |tokens| && s < |tokens| && Within(tokens, b)
        ensures PickAlike(c, isDraft, tokens, r, s)
      {
        OneThreshold(c, isDraft, tokens[r], b);
        OneThreshold(c, isDraft, tokens[s], b);
      }
    } else {
      var tokens: seq<nat> := [0, b];
      assert Within(tokens, b);
      assert !PickAlike(c, isDraft, tokens, 0, 1);
    }
  }

  lemma ReducedPicks(c: Config, isDraft: bool, tokens: seq<nat>, r: nat, s: nat)
    requires Skips(c, isDraft) != Ok(true) && r < |tokens| && s < |tokens|
    ensures PickAlike(c, isDraft, tokens, r, s)
  {
  }

  lemma AgreeWhenReduced(c: Config, isDraft: bool, b: nat)
    requires Skips(c, isDraft) != Ok(true)
    ensures RanksAgree(c, isDraft, b)
  {
    forall tokens: seq<nat>, r: nat, s: nat | r < |tokens| && s < |tokens|
      ensures PickAlike(c, isDraft, tokens, r, s)
    {
      ReducedPicks(c, isDraft, tokens, r, s);
    }
  }

  // The guards of the selection that let an empty batch and one of b tokens differ.
  predicate Separates(c: Config, isDraft: bool, b: nat) {
    && c.moe && c.expertParallel && c.epWorldSize != 1
    && c.capacity.Some? && 0 <= c.capacity.value < b
    && match c.soc
       case A2 =>
         && c.pipelineSize > 0 && c.worldSizeAcrossDp / c.pipelineSize >= 16
         && c.numExperts / (c.worldSizeAcrossDp / c.pipelineSize) <= 24
       case A3 => c.fusedMc2 == 0 || c.fusedMc2 == 2 || (c.fusedMc2 == 1 && (isDraft || c.epWorldSize > 32))
       case A5 => c.worldSizeAcrossDp > 1
       case _ => false
  }

  lemma SeparatesExactly(c: Config, isDraft: bool, b: nat)
    ensures Select(0, c, isDraft) != Select(b, c, isDraft) <==> Separates(c, isDraft, b)
  {
  }

  // ---------- Main results ----------

  // Ranks with up to b tokens of the target model agree on the collective exactly when they compare
  // token counts, or b tokens need MC2, or the model has no experts.
  lemma TargetRanksAgree(c: Config, b: nat)
    ensures RanksAgree(c, false, b) <==> (c.moe && Skips(c, false) == Ok(true) ==> IsMc2(Select(b, c, false)))
    ensures RanksAgree(c, false, b) <==> !(Skips(c, false) == Ok(true) && Separates(c, false, b))
  {
    SeparatesExactly(c, false, b);
    if Skips(c, false) != Ok(true) {
      AgreeWhenReduced(c, false, b);
    } else {
      AgreeIffOneSide(c, false, b);
      if c.moe {
        NothingNeedsMc2(c);
        if IsMc2(Select(b, c, false)) {
          Mc2IsDownwardClosed(c, 0, b);
        }
      }
    }
  }

  // Skipping needs a decode batch to need MC2, so an empty one does too.
  lemma NothingNeedsMc2(c: Config)
    requires c.moe && Skips(c, false) == Ok(true)
    ensures IsMc2(Select(0, c, false))
  {
    Mc2IsDownwardClosed(c, 0, PotentialMaxTokens(c));
  }

  // When skipping is justified by prefill, every pair of counts within the limit gets one MC2 method.
  lemma SkipKeepsMc2(c: Config, n: nat, m: nat)
    requires c.moe && Skips(c, false) == Ok(true) && IsMc2(Select(c.maxBatchedTokens, c, false))
    requires n <= c.maxBatchedTokens && m <= c.maxBatchedTokens
    ensures Select(n, c, false) == Select(m, c, false) && IsMc2(Select(n, c, false))
  {
    Mc2IsDownwardClosed(c, n, c.maxBatchedTokens);
    Mc2IsDownwardClosed(c, m, c.maxBatchedTokens);
  }

  // Whatever prefill needs, ranks that skip agree on decode batches: every count up to the largest one
  // of a decode step gets one MC2 method. This is what the recompute scheduler relies on.
  lemma DecodeRanksAgree(c: Config, b: nat)
    requires c.moe && Skips(c, false) == Ok(true) && b <= PotentialMaxTokens(c)
    ensures RanksAgree(c, false, b)
    ensures forall n: nat :: n <= b ==> Select(n, c, false) == Select(b, c, false) && IsMc2(Select(n, c, false))
  {
    Mc2IsDownwardClosed(c, b, PotentialMaxTokens(c));
    TargetRanksAgree(c, b);
    forall n: nat | n <= b
      ensures Select(n, c, false) == Select(b, c, false)
    {
      Mc2IsDownwardClosed(c, n, b);
    }
  }

  // Ranks running a draft model agree exactly when they compare token counts or no guard separates an
  // empty batch from b tokens for the draft; the skip test itself looks at the target model only.
  lemma DraftRanksAgree(c: Config, b: nat)
    ensures RanksAgree(c, true, b) <==> !(Skips(c, true) == Ok(true) && Separates(c, true, b))
  {
    SeparatesExactly(c, true, b);
    if Skips(c, true) != Ok(true) {
      AgreeWhenReduced(c, true, b);
    } else {
      AgreeIffOneSide(c, true, b);
    }
  }

  const FUSED_A3 := Config(true, true, A3, true, 16, Some(512), 256, 16, 1, 8, 1, true, true, false, true, false,
                           true, 512, 8192, 256, 0, None)

  // Fused MC2 on A3: the test skips the all-reduce, yet draft ranks with 512 and 8192 tokens differ.
  lemma DraftCanSplit()
    ensures Skips(FUSED_A3, true) == Ok(true)
    ensures Picks(FUSED_A3, true, [512, 8192], 0) == Ok(Some(Mc2))
    ensures Picks(FUSED_A3, true, [512, 8192], 1) == Ok(Some(AllToAll))
    ensures !RanksAgree(FUSED_A3, true, 8192)
  {
    DraftRanksAgree(FUSED_A3, 8192);
  }

  const RECOMPUTE_A5 := Config(true, true, A5, true, 16, Some(512), 256, 16, 1, 8, 0, true, true, false, true, true,
                               true, 512, 8192, 256, 0, None)

  // With the recompute scheduler the test skips without prefill needing MC2: ranks can differ, though
  // not on decode batches.
  lemma RecomputeCanSplit()
    ensures Skips(RECOMPUTE_A5, false) == Ok(true)
    ensures Picks(RECOMPUTE_A5, false, [512, 8192], 0) == Ok(Some(Mc2))
    ensures Picks(RECOMPUTE_A5, false, [512, 8192], 1) == Ok(Some(AllToAll))
    ensures PotentialMaxTokens(RECOMPUTE_A5) == 512 && RanksAgree(RECOMPUTE_A5, false, 512)
  {
    DecodeRanksAgree(RECOMPUTE_A5, 512);
  }

  // ---------- The second-generation runner ----------

  // It selects by the rank's own count, which ranks that run eagerly do not pad to each other, whether
  // or not the counts were compared.
  ghost predicate EagerRanksAgree(c: Config, b: nat) {
    forall tokens: seq<nat>, r: nat, s: nat | r < |tokens| && s < |tokens| && Within(tokens, b) ::
      Select(tokens[r], c, false) == Select(tokens[s], c, false)
  }

  // So eager ranks agree exactly when no guard separates an empty batch from b tokens.
  lemma EagerRanksAgreeWhen(c: Config, b: nat)
    ensures EagerRanksAgree(c, b) <==> !Separates(c, false, b)
  {
    SeparatesExactly(c, false, b);
    if Separates(c, false, b) {
      var tokens: seq<nat> := [0, b];
      assert Within(tokens, b);
      assert Select(tokens[0], c, false) != Select(tokens[1], c, false);
    } else {
      forall tokens: seq<nat>, r: nat, s: nat | r < |tokens| && s < |tokens| && Within(tokens, b)
        ensures Select(tokens[r], c, false) == Select(tokens[s], c, false)
      {
        OneThreshold(c, false, tokens[r], b);
        OneThreshold(c, false, tokens[s], b);
      }
    }
  }

  const PLAIN_A3 := Config(true, true, A3, true, 16, Some(512), 256, 16, 1, 8, 0, false, false, false, false, false,
                           true, 512, 8192, 256, 0, None)

  // Plain MC2 on A3, all-reduce not skipped: first-generation ranks agree, eager second-generation
  // ranks with 512 and 8192 tokens do not.
  lemma EagerRanksCanSplit()
    ensures Skips(PLAIN_A3, false) == Ok(false) && RanksAgree(PLAIN_A3, false, 8192)
    ensures Select(512, PLAIN_A3, false) == Ok(Some(Mc2))
    ensures Select(8192, PLAIN_A3, false) == Ok(Some(AllToAll))
    ensures !EagerRanksAgree(PLAIN_A3, 8192)
  {
    AgreeWhenReduced(PLAIN_A3, false, 8192);
    EagerRanksAgreeWhen(PLAIN_A3, 8192);
  }
}
