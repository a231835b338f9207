// The NPU lists a process reads from npu-smi: all logical ids, and those it runs on.
module Devices {
  import opened Text
  import opened Seqs
  import opened Ints
  import opened CpuPools

  // A line of the NPU map, split into words.
  datatype Row = Row(npu: string, chip: string, logic: string)

  // NPU and chip to logical id. A later line for the same chip replaces an earlier one.
  type NpuMap = seq<((string, string), nat)>

  predicate IsNumber(s: string) {
    s != [] && AllDigits(s)
  }

  // Exactly the texts of digits are numbers, and the text of a number reads as that number.
  lemma NumbersRead(n: nat, s: string)
    ensures IsNumber(ShowNat(n)) && NatValue(ShowNat(n)) == n
    ensures IsNumber(s) <==> |s| > 0 && forall i :: 0 <= i < |s| ==> '0' <= s[i] <= '9'
  {
    ShowNatValue(n);
  }

  function AddRow(m: NpuMap, row: Row): NpuMap {
    if !IsNumber(row.logic) then m
    else
      var i, entry := KeyIndex(m, (row.npu, row.chip)), ((row.npu, row.chip), NatValue(row.logic));
      if i >= 0 then m[i := entry] else m + [entry]
  }

  function MapOf(rows: seq<Row>): NpuMap {
    if rows == [] then [] else AddRow(MapOf(rows[..|rows| - 1]), rows[|rows| - 1])
  }

  function IdsOf(m: NpuMap): (ids: seq<int>)
    ensures |ids| == |m|
  {
    seq(|m|, i requires 0 <= i < |m| => m[i].1)
  }

  // The ids of the listed processes' chips; None if a chip is not in the map.
  function ChipIds(m: NpuMap, processes: seq<(string, string)>): Option<seq<int>> {
    if processes == [] then Some([])
    else
      var before, p := ChipIds(m, processes[..|processes| - 1]), processes[|processes| - 1];
      if before.None? || !IsNumber(p.0) || !IsNumber(p.1) then before
      else
        var i := KeyIndex(m, p);
        if i < 0 then None else Some(before.value + [m[i].1])
  }

  // The visible devices, when configured, restrict the ids; no id left is an error.
  function RunningOf(m: NpuMap, processes: seq<(string, string)>, visible: Option<seq<int>>): Result<seq<int>, string> {
    var ids := ChipIds(m, processes);
    if ids.None? then Err("no logical id")
    else
      var kept := if visible.Some? then Filter(ids.value, Elements(visible.value)) else ids.value;
      if kept == [] then Err("no running NPU") else Ok(SortedSet(kept))
  }

  // ---------- The loops ----------

  method GetNpuMapInfo(rows: seq<Row>) returns (m: NpuMap)
    ensures m == MapOf(rows)
  {
    m := [];
    for i := 0 to |rows|
      invariant m == MapOf(rows[..i])
    {
      assert rows[..i + 1][..i] == rows[..i];
      m := AddRow(m, rows[i]);
    }
    assert rows[..|rows|] == rows;
  }

  method GetAllLogicNpus(m: NpuMap) returns (ids: seq<int>)
    ensures ids == SortedSet(IdsOf(m))
  {
    var found := [];
    for i := 0 to |m|
      invariant found == IdsOf(m)[..i]
    {
      found := found + [m[i].1];
    }
    assert IdsOf(m)[..|m|] == IdsOf(m);
    ids := SortedSet(found);
  }

  lemma {:induction false} ChipMissing(m: NpuMap, processes: seq<(string, string)>, i: nat)
    requires i <= |processes| && ChipIds(m, processes[..i]).None?
    ensures ChipIds(m, processes).None?
    decreases |processes| - i
  {
    if i == |processes| {
      assert processes[..i] == processes;
    } else {
      assert processes[..i + 1][..i] == processes[..i];
      ChipMissing(m, processes, i + 1);
    }
  }

  method GetRunningNpus(m: NpuMap, processes: seq<(string, string)>, visible: Option<seq<int>>)
    returns (r: Result<seq<int>, string>)
    ensures r == RunningOf(m, processes, visible)
  {
    var found: seq<int> := [];
    for i := 0 to |processes|
      invariant ChipIds(m, processes[..i]) == Some(found)
    {
      assert processes[..i + 1][..i] == processes[..i];
      var p := processes[i];
      if IsNumber(p.0) && IsNumber(p.1) {
        var k := KeyIndex(m, p);
        if k < 0 {
          ChipMissing(m, processes, i + 1);
          return Err("no logical id");
        }
        found := found + [m[k].1];
      }
    }
    assert processes[..|processes|] == processes;
    if visible.Some? {
      found := Filter(found, Elements(visible.value));
    }
    if found == [] {
      return Err("no running NPU");
    }
    return Ok(SortedSet(found));
  }

  // ---------- What the map holds ----------

  // Row i is numbered and belongs to this chip.
  predicate RowOf(row: Row, chip: (string, string)) {
    IsNumber(row.logic) && (row.npu, row.chip) == chip
  }

  lemma {:induction false} SameChips(m: NpuMap, n: NpuMap, chip: (string, string))
    requires |m| == |n| && forall k :: 0 <= k < |m| ==> m[k].0 == n[k].0
    ensures KeyIndex(m, chip) == KeyIndex(n, chip)
  {
    if m == [] {
    } else {
      SameChips(m[..|m| - 1], n[..|m| - 1], chip);
    }
  }

  function IdOf(m: NpuMap, chip: (string, string)): Option<nat> {
    var i := KeyIndex(m, chip);
    if i >= 0 then Some(m[i].1) else None
  }

  lemma AddedId(m: NpuMap, row: Row, chip: (string, string))
    ensures IdOf(AddRow(m, row), chip) == if RowOf(row, chip) then Some(NatValue(row.logic)) else IdOf(m, chip)
  {
    var n, key := AddRow(m, row), (row.npu, row.chip);
    if !IsNumber(row.logic) {
    } else if KeyIndex(m, key) >= 0 {
      SameChips(m, n, chip);
    } else {
      assert n[..|m|] == m;
    }
  }

  // The last numbered row of a chip, or -1.
  function LastRow(rows: seq<Row>, chip: (string, string)): (i: int)
    ensures -1 <= i < |rows| && (i >= 0 ==> RowOf(rows[i], chip))
    ensures forall j :: i < j < |rows| ==> !RowOf(rows[j], chip)
  {
    if rows == [] then -1
    else if RowOf(rows[|rows| - 1], chip) then |rows| - 1
    else LastRow(rows[..|rows| - 1], chip)
  }

  // A chip has the id of its last numbered row, and none without such a row.
  lemma {:induction false} IdIsLast(rows: seq<Row>, chip: (string, string))
    ensures var i := LastRow(rows, chip);
            IdOf(MapOf(rows), chip) == if i >= 0 then Some(NatValue(rows[i].logic)) else None
  {
    if rows == [] {
    } else {
      IdIsLast(rows[..|rows| - 1], chip);
      AddedId(MapOf(rows[..|rows| - 1]), rows[|rows| - 1], chip);
    }
  }

  // No chip has two entries, so every id of the map is some chip's.
  lemma {:induction false} ChipsAreDistinct(rows: seq<Row>)
    ensures forall i, j :: 0 <= i < j < |MapOf(rows)| ==> MapOf(rows)[i].0 != MapOf(rows)[j].0
    ensures forall k :: 0 <= k < |MapOf(rows)| ==> IdOf(MapOf(rows), MapOf(rows)[k].0) == Some(MapOf(rows)[k].1)
  {
    if rows == [] {
    } else {
      ChipsAreDistinct(rows[..|rows| - 1]);
    }
  }

  // ---------- What every reading guarantees ----------

  lemma {:induction false} ChipIdsAreMapped(m: NpuMap, processes: seq<(string, string)>, k: nat)
    requires ChipIds(m, processes).Some? && k < |ChipIds(m, processes).value|
    ensures ChipIds(m, processes).value[k] in IdsOf(m)
  {
    var before, p := ChipIds(m, processes[..|processes| - 1]), processes[|processes| - 1];
    if k < |before.value| {
      ChipIdsAreMapped(m, processes[..|processes| - 1], k);
    } else {
      assert IdsOf(m)[KeyIndex(m, p)] == ChipIds(m, processes).value[k];
    }
  }

  // An id is collected exactly if it is that of a listed chip.
  lemma {:induction false} ChipIdsAre(m: NpuMap, processes: seq<(string, string)>, id: int)
    requires ChipIds(m, processes).Some?
    ensures id in ChipIds(m, processes).value <==> exists k :: 0 <= k < |processes| && HasId(m, processes[k], id)
  {
    if processes == [] {
    } else {
      var n := |processes| - 1;
      ChipIdsAre(m, processes[..n], id);
      assert processes == processes[..n] + [processes[n]];
      assert HasId(m, processes[n], id) || !HasId(m, processes[n], id);
    }
  }

  // The line names a chip by numbers, and the map gives the chip this id.
  ghost predicate HasId(m: NpuMap, p: (string, string), id: int) {
    IsNumber(p.0) && IsNumber(p.1) && IdOf(m, p).Some? && IdOf(m, p).value == id
  }

  // Reading fails exactly if a listed chip is not in the map or no listed id is visible; otherwise an id
  // runs exactly if some listed chip has it and it is visible.
  lemma RunsExactly(m: NpuMap, processes: seq<(string, string)>, visible: Option<seq<int>>, id: int)
    ensures ChipIds(m, processes).None? ==> RunningOf(m, processes, visible).Err?
    ensures ChipIds(m, processes).Some? ==>
              (RunningOf(m, processes, visible).Err? <==> forall i :: !Runs(m, processes, visible, i))
    ensures RunningOf(m, processes, visible).Ok? ==>
              (id in RunningOf(m, processes, visible).value <==> Runs(m, processes, visible, id))
  {
    if ChipIds(m, processes).Some? {
      var ids := ChipIds(m, processes).value;
      var kept := if visible.Some? then Filter(ids, Elements(visible.value)) else ids;
      if visible.Some? {
        FilterHas(ids, Elements(visible.value));
      }
      forall i
        ensures i in kept <==> Runs(m, processes, visible, i)
      {
        ChipIdsAre(m, processes, i);
      }
      if kept != [] {
        assert kept[0] in kept;
      }
    }
  }

  ghost predicate Runs(m: NpuMap, processes: seq<(string, string)>, visible: Option<seq<int>>, id: int) {
    && (exists k :: 0 <= k < |processes| && HasId(m, processes[k], id))
    && (visible.Some? ==> id in visible.value)
  }

  // A listed chip that is not in the map makes the ids missing, and nothing else does.
  lemma {:induction false} MissingChip(m: NpuMap, processes: seq<(string, string)>)
    ensures ChipIds(m, processes).None? <==>
            exists k :: 0 <= k < |processes| && Unmapped(m, processes[k])
  {
    if processes == [] {
    } else {
      var n := |processes| - 1;
      MissingChip(m, processes[..n]);
      assert processes == processes[..n] + [processes[n]];
      assert Unmapped(m, processes[n]) || !Unmapped(m, processes[n]);
    }
  }

  ghost predicate Unmapped(m: NpuMap, p: (string, string)) {
    IsNumber(p.0) && IsNumber(p.1) && IdOf(m, p).None?
  }

  // A process runs on at least one NPU, and only on NPUs of the map it counts.
  lemma ReadIsValid(rows: seq<Row>, processes: seq<(string, string)>, visible: Option<seq<int>>, info: DeviceInfo)
    requires info.allLogic == SortedSet(IdsOf(MapOf(rows)))
    requires RunningOf(MapOf(rows), processes, visible) == Ok(info.running)
    ensures info.Valid()
  {
    var m := MapOf(rows);
    var ids := ChipIds(m, processes).value;
    var kept := if visible.Some? then Filter(ids, Elements(visible.value)) else ids;
    if visible.Some? {
      FilterHas(ids, Elements(visible.value));
    }
    assert kept[0] in SortedSet(kept);
    forall i | 0 <= i < |info.running|
      ensures info.running[i] in info.allLogic
    {
      assert info.running[i] in kept;
      var k :| 0 <= k < |ids| && ids[k] == info.running[i];
      ChipIdsAreMapped(m, processes, k);
    }
  }
}
