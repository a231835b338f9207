// FLASHCOMM2: which o_proj group sizes are accepted, and the batch ids reorganised for them.
module Flashcomm2 {
  import opened Text
  import opened Arith

  datatype Error = ValueError | AssertionError | ZeroDivisionError

  // layerSharding is empty when not configured; kvConsumer is None without a KV transfer config.
  datatype Config = Config(size: int, globalTp: nat, layerSharding: seq<string>, oprojTp: int, kvConsumer: Option<bool>)

  function Validate(c: Config): (r: Result<nat, Error>)
    ensures r.Ok? && r.value > 0 <==>
              && 0 < c.size < c.globalTp && c.globalTp % c.size == 0
              && (c.layerSharding == [] || c.layerSharding == ["o_proj"])
              && c.oprojTp <= 0 && c.kvConsumer != Some(true)
    ensures r == Ok(0) <==> c.size <= 0
  {
    if c.size <= 0 then Ok(0)
    else if c.layerSharding != [] && c.layerSharding != ["o_proj"] then Err(ValueError)
    else if c.oprojTp > 0 then Err(AssertionError)
    else if c.globalTp <= c.size then Err(AssertionError)
    else if c.globalTp % c.size != 0 then Err(AssertionError)
    else if c.kvConsumer == Some(true) then Err(AssertionError)
    else Ok(c.size)
  }

  // Rank at position j of group i, for the given number of groups.
  function RankAt(i: nat, j: nat, groups: nat): nat {
    i + j * groups
  }

  ghost predicate IsReorganised(ids: seq<seq<nat>>, groups: nat, size: nat) {
    && |ids| == groups
    && forall i :: 0 <= i < groups ==> |ids[i]| == size && IsGroup(ids[i], i, groups)
  }

  ghost predicate IsGroup(ranks: seq<nat>, i: nat, groups: nat) {
    forall j :: 0 <= j < |ranks| ==> ranks[j] == RankAt(i, j, groups)
  }

  method ReorganizedBatchIds(globalTp: nat, size: nat) returns (r: Result<seq<seq<nat>>, Error>)
    ensures size == 0 ==> r == Err(ZeroDivisionError)
    ensures size > 0 ==> r.Ok? && globalTp / size >= 0 && IsReorganised(r.value, globalTp / size, size)
  {
    if size == 0 {
      return Err(ZeroDivisionError);
    }
    DivModParts(globalTp, size);
    var groups: nat := globalTp / size;
    var ids: seq<seq<nat>> := [];
    for i := 0 to groups
      invariant |ids| == i
      invariant forall k :: 0 <= k < i ==> |ids[k]| == size && IsGroup(ids[k], k, groups)
    {
      var ranks: seq<nat> := [];
      for j := 0 to size
        invariant |ranks| == j && IsGroup(ranks, i, groups)
      {
        ranks := ranks + [RankAt(i, j, groups)];
      }
      ids := ids + [ranks];
    }
    r := Ok(ids);
  }

  // Rank r sits at group r mod G, position r div G, and nowhere else.
  lemma RankHasOnePlace(ids: seq<seq<nat>>, groups: nat, size: nat, r: nat)
    requires IsReorganised(ids, groups, size) && r < groups * size
    ensures groups > 0 && 0 <= r % groups < groups && 0 <= r / groups < size
    ensures ids[r % groups][r / groups] == r
    ensures forall i, j :: 0 <= i < groups && 0 <= j < size && ids[i][j] == r ==> i == r % groups && j == r / groups
  {
    assert groups * size == size * groups;
    RowOfFlat(r, size, groups);
    DivModParts(r, groups);
    assert ids[r % groups][r / groups] == RankAt(r % groups, r / groups, groups);
    forall i, j | 0 <= i < groups && 0 <= j < size && ids[i][j] == r
      ensures i == r % groups && j == r / groups
    {
      assert ids[i][j] == RankAt(i, j, groups);
      DivModUnique(j, i, groups);
    }
  }

  // No other rank appears.
  lemma RankInRange(ids: seq<seq<nat>>, groups: nat, size: nat, i: nat, j: nat)
    requires IsReorganised(ids, groups, size) && i < groups && j < size
    ensures ids[i][j] < groups * size
  {
    assert ids[i][j] == RankAt(i, j, groups);
    RowBound(j, i, size, groups);
    assert size * groups == groups * size;
  }

  ghost predicate HasRank(ids: seq<seq<nat>>, r: nat) {
    exists i, j :: 0 <= i < |ids| && 0 <= j < |ids[i]| && ids[i][j] == r
  }

  // For an accepted size the groups hold each rank of the tensor-parallel group exactly once.
  lemma AcceptedIsAPartition(c: Config, ids: seq<seq<nat>>, r: nat)
    requires Validate(c).Ok? && Validate(c).value > 0 && r < c.globalTp
    requires c.globalTp / c.size >= 0 && IsReorganised(ids, c.globalTp / c.size, c.size)
    ensures var groups := c.globalTp / c.size;
            && groups > 0 && 0 <= r % groups < |ids| && 0 <= r / groups < |ids[r % groups]|
            && ids[r % groups][r / groups] == r
            && (forall i, j :: 0 <= i < |ids| && 0 <= j < |ids[i]| && ids[i][j] == r ==>
                  i == r % groups && j == r / groups)
            && (forall i, j :: 0 <= i < |ids| && 0 <= j < |ids[i]| ==> ids[i][j] < c.globalTp)
  {
    var groups, size: nat := c.globalTp / c.size, c.size;
    DivModParts(c.globalTp, size);
    RankHasOnePlace(ids, groups, size, r);
    forall i, j | 0 <= i < |ids| && 0 <= j < |ids[i]|
      ensures ids[i][j] < c.globalTp
    {
      RankInRange(ids, groups, size, i, j);
    }
  }

  // Why the validator asks for divisibility: otherwise, and only then, the last rank is missing.
  lemma LastRankPresentWhen(globalTp: nat, size: nat, ids: seq<seq<nat>>)
    requires globalTp > 0 && size > 0 && globalTp / size >= 0 && IsReorganised(ids, globalTp / size, size)
    ensures HasRank(ids, globalTp - 1) <==> globalTp % size == 0
  {
    var groups: nat := globalTp / size;
    DivModParts(globalTp, size);
    if globalTp % size == 0 {
      RankHasOnePlace(ids, groups, size, globalTp - 1);
    } else if HasRank(ids, globalTp - 1) {
      var i, j :| 0 <= i < |ids| && 0 <= j < |ids[i]| && ids[i][j] == globalTp - 1;
      RankInRange(ids, groups, size, i, j);
    }
  }
}
