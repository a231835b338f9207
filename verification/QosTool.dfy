// `ai_qos apply` and `ai_qos unset`: the registers and the state file over whole runs.
module QosTool {
  import opened Text
  import opened Arith
  import opened Dict
  import opened QosState

  // ---------- Priorities ----------

  datatype Level = Low | Middle | High

  datatype PcieLevel = PcieLow | PcieHigh

  datatype Priority = Priority(aivD2d: Level, aivH2d: Level, sdmaD2d: Level, sdmaH2d: Level, pcieH2d: PcieLevel)

  // The source-side QoS values a priority selects, one per kind of master.
  datatype Levels = Levels(aiv: int, sdma: int, pcie: int)

  function AivSqos(l: Level): nat {
    match l case Low => 1 case Middle => 3 case High => 5
  }

  function SdmaSqos(l: Level): nat {
    match l case Low => 2 case Middle => 4 case High => 6
  }

  function PcieSqos(l: PcieLevel): nat {
    match l case PcieLow => 0 case PcieHigh => 7
  }

  function LevelsOf(p: Priority): Levels {
    Levels(Min(AivSqos(p.aivD2d), AivSqos(p.aivH2d)), Min(SdmaSqos(p.sdmaD2d), SdmaSqos(p.sdmaH2d)),
           PcieSqos(p.pcieH2d))
  }

  // The value a kind of master gets is the one of the lower of its two settings.
  ghost function Lower(a: Level, b: Level, low: int, middle: int, high: int): int {
    if a == Low || b == Low then low else if a == Middle || b == Middle then middle else high
  }

  // AIV masters get 1, 3 or 5 and SDMA 2, 4 or 6, by the lower of the two settings; PCIe gets 0 or 7. Each
  // is one of the values its settings select, and no larger than either.
  lemma LevelsAreLowest(p: Priority)
    ensures LevelsOf(p).aiv == Lower(p.aivD2d, p.aivH2d, 1, 3, 5)
    ensures LevelsOf(p).sdma == Lower(p.sdmaD2d, p.sdmaH2d, 2, 4, 6)
    ensures LevelsOf(p).pcie == if p.pcieH2d == PcieHigh then 7 else 0
    ensures LevelsOf(p).aiv in {AivSqos(p.aivD2d), AivSqos(p.aivH2d)}
    ensures LevelsOf(p).aiv <= AivSqos(p.aivD2d) && LevelsOf(p).aiv <= AivSqos(p.aivH2d)
    ensures LevelsOf(p).sdma in {SdmaSqos(p.sdmaD2d), SdmaSqos(p.sdmaH2d)}
    ensures LevelsOf(p).sdma <= SdmaSqos(p.sdmaD2d) && LevelsOf(p).sdma <= SdmaSqos(p.sdmaH2d)
  {
  }

  // ---------- The effect of one apply on the registers ----------

  const FUSE_APPLIED := FuseReg(1, 1, 1)
  const SDMA_MATA_APPLIED := BwReg(0, 1, 0)

  function LevelFor(accu: string, lv: Levels): int {
    if "AIV" <= accu then lv.aiv else if "SDMA" <= accu then lv.sdma else lv.pcie
  }

  function ApplyMaster(hw: Hardware, ok: Getters, d: int, lv: Levels, k: nat): Hardware
    requires k < |MASTERS|
  {
    var (accu, m) := MASTERS[k];
    if (d, m) !in ok.qos then hw
    else
      var r := hw.QosAt(d, m);
      var h := if "SDMA" <= accu then hw.SetBw(d, r.mpamid, SDMA_MATA_APPLIED) else hw;
      h.SetQos(d, m, r.(qos := LevelFor(accu, lv)))
  }

  function ApplyMasters(hw: Hardware, ok: Getters, d: int, lv: Levels, k: nat): Hardware
    requires k <= |MASTERS|
  {
    if k == 0 then hw else ApplyMaster(ApplyMasters(hw, ok, d, lv, k - 1), ok, d, lv, k - 1)
  }

  function ApplyDevice(hw: Hardware, ok: Getters, d: int, lv: Levels): Hardware {
    ApplyMasters(hw.SetFuse(d, FUSE_APPLIED), ok, d, lv, |MASTERS|)
  }

  function ApplyDevices(hw: Hardware, ok: Getters, devices: seq<int>, lv: Levels): Hardware {
    if devices == [] then hw
    else ApplyDevice(ApplyDevices(hw, ok, devices[..|devices| - 1], lv), ok, devices[|devices| - 1], lv)
  }

  // The level a master is set to, by its number.
  ghost function MasterLevel(m: int, lv: Levels): int {
    if m == 11 || m == 12 then lv.aiv else if m == 13 then lv.sdma else lv.pcie
  }

  // The registers of device d after devices were applied over hw.
  ghost predicate AppliedTo(before: Hardware, after: Hardware, ok: Getters, devices: set<int>, lv: Levels, d: int) {
    && (forall m :: after.QosAt(d, m) ==
          if d in devices && IsMaster(m) && (d, m) in ok.qos then before.QosAt(d, m).(qos := MasterLevel(m, lv))
          else before.QosAt(d, m))
    && (forall i :: after.BwAt(d, i) ==
          if d in devices && (d, MASTER_ID_SDMA) in ok.qos && i == before.QosAt(d, MASTER_ID_SDMA).mpamid
          then SDMA_MATA_APPLIED
          else before.BwAt(d, i))
    && after.FuseAt(d) == (if d in devices then FUSE_APPLIED else before.FuseAt(d))
  }

  lemma MasterKinds(lv: Levels, k: nat)
    requires k < |MASTERS|
    ensures LevelFor(MASTERS[k].0, lv) == MasterLevel(MASTERS[k].1, lv)
    ensures "SDMA" <= MASTERS[k].0 <==> MASTERS[k].1 == MASTER_ID_SDMA
  {
    assert "AIV" <= "AIV_DATA" && "AIV" <= "AIV_INS" && "SDMA" <= "SDMA";
    assert "SDMA"[0] != "AIV"[0] && "PCIEDMA"[0] != "AIV"[0] && "PCIEDMA"[0] != "SDMA"[0];
  }

  // One master of device e: its own register, and for SDMA the bandwidth register it points at.
  lemma ApplyMasterEffect(hw: Hardware, ok: Getters, e: int, lv: Levels, k: nat)
    requires k < |MASTERS|
    ensures var m, h := MASTERS[k].1, ApplyMaster(hw, ok, e, lv, k);
            && h.fuse == hw.fuse
            && (forall d, n :: h.QosAt(d, n) ==
                  if d == e && n == m && (e, m) in ok.qos then hw.QosAt(e, m).(qos := MasterLevel(m, lv))
                  else hw.QosAt(d, n))
            && (forall d, i :: h.BwAt(d, i) ==
                  if d == e && m == MASTER_ID_SDMA && (e, m) in ok.qos && i == hw.QosAt(e, m).mpamid
                  then SDMA_MATA_APPLIED
                  else hw.BwAt(d, i))
  {
    MasterKinds(lv, k);
  }

  ghost function MasterIds(k: nat): set<int>
    requires k <= |MASTERS|
  {
    if k == 0 then {} else MasterIds(k - 1) + {MASTERS[k - 1].1}
  }

  lemma {:induction false} ApplyMastersEffect(hw: Hardware, ok: Getters, e: int, lv: Levels, k: nat)
    requires k <= |MASTERS|
    ensures var ids, h := MasterIds(k), ApplyMasters(hw, ok, e, lv, k);
            && h.fuse == hw.fuse
            && (forall d, n :: h.QosAt(d, n) ==
                  if d == e && n in ids && (e, n) in ok.qos then hw.QosAt(e, n).(qos := MasterLevel(n, lv))
                  else hw.QosAt(d, n))
            && (forall d, i :: h.BwAt(d, i) ==
                  if && d == e && MASTER_ID_SDMA in ids && (e, MASTER_ID_SDMA) in ok.qos
                     && i == hw.QosAt(e, MASTER_ID_SDMA).mpamid
                  then SDMA_MATA_APPLIED else hw.BwAt(d, i))
  {
    if k == 0 {
    } else {
      ApplyMastersEffect(hw, ok, e, lv, k - 1);
      ApplyMasterEffect(ApplyMasters(hw, ok, e, lv, k - 1), ok, e, lv, k - 1);
    }
  }

  lemma ApplyDeviceEffect(hw: Hardware, ok: Getters, e: int, lv: Levels, d: int)
    ensures AppliedTo(hw, ApplyDevice(hw, ok, e, lv), ok, {e}, lv, d)
  {
    ApplyMastersEffect(hw.SetFuse(e, FUSE_APPLIED), ok, e, lv, |MASTERS|);
    assert MasterIds(2) == {11, 12};
    assert MasterIds(4) == {11, 12, 13, 7};
  }

  lemma {:induction false} ApplyDevicesEffect(hw: Hardware, ok: Getters, devices: seq<int>, lv: Levels, d: int)
    ensures AppliedTo(hw, ApplyDevices(hw, ok, devices, lv), ok, Devices(devices), lv, d)
  {
    if devices == [] {
    } else {
      var init, e := devices[..|devices| - 1], devices[|devices| - 1];
      ApplyDevicesEffect(hw, ok, init, lv, d);
      ApplyDeviceEffect(ApplyDevices(hw, ok, init, lv), ok, e, lv, d);
      DevicesInit(devices);
    }
  }

  // ---------- The state file ----------

  datatype StateFile = NoFile | Garbled | Content(data: Json)

  function TextsOf(xs: seq<string>): Json {
    JArr(seq(|xs|, i requires 0 <= i < |xs| => JStr(xs[i])))
  }

  function StateJson(r: Record, printed: seq<string>): Json {
    JObj([("original_qos", JObj(r.qos)), ("original_sdma_mata", JObj(r.bw)), ("original_fuse", JObj(r.fuse)),
          ("printed_commands", TextsOf(printed))])
  }

  function ObjectOr(j: Option<Json>): Dict<Json> {
    if j.Some? && j.value.JObj? then j.value.fields else []
  }

  // The earlier record, if there is one; a root that is no object has no .get and raises AttributeError.
  function LoadBaseline(f: StateFile): Result<Option<Record>, string> {
    if !f.Content? then Ok(None)
    else if !f.data.JObj? then Err("AttributeError")
    else
      var fields := f.data.fields;
      var qos := Find(fields, "original_qos");
      if qos.None? || !qos.value.JObj? then Ok(None)
      else
        var bw, fuse := ObjectOr(Find(fields, "original_sdma_mata")), ObjectOr(Find(fields, "original_fuse"));
        Ok(Some(Record(qos.value.fields, bw, fuse)))
  }

  lemma StateFields(r: Record, printed: seq<string>)
    ensures var f := StateJson(r, printed).fields;
            && Find(f, "original_qos") == Some(JObj(r.qos)) && Find(f, "original_sdma_mata") == Some(JObj(r.bw))
            && Find(f, "original_fuse") == Some(JObj(r.fuse)) && Find(f, "printed_commands") == Some(TextsOf(printed))
    ensures LoadBaseline(Content(StateJson(r, printed))) == Ok(Some(r))
  {
    var f := StateJson(r, printed).fields;
    assert f[..3][..2] == f[..2] && f[..2][..1] == f[..1];
    FindAt(f, 0);
    FindAt(f, 1);
    FindAt(f, 2);
    FindAt(f, 3);
  }

  // ---------- Validation of the state file ----------

  function TupleOf(j: Json, len: nat): Option<seq<int>> {
    if j.JArr? && |j.elems| == len then IntsOf(j.elems) else None
  }

  ghost predicate TupleLengths(t: Dict<seq<int>>, len: nat) {
    forall e :: e in t ==> |e.1| == len
  }

  // A dictionary of integer tuples keyed by device; None is the ValueError.
  function FlatTuples(raw: Dict<Json>, len: nat): (r: Option<Dict<seq<int>>>)
    ensures r.Some? ==> TupleLengths(r.value, len)
  {
    if raw == [] then Some([])
    else
      var before := FlatTuples(raw[..|raw| - 1], len);
      var dev := ParseInt(raw[|raw| - 1].0);
      var t := TupleOf(raw[|raw| - 1].1, len);
      if before.Some? && dev.Some? && t.Some? then Some(Put(before.value, ShowInt(dev.value), t.value)) else None
  }

  function MasterTuples(raw: Dict<Json>): (r: Option<Dict<seq<int>>>)
    ensures r.Some? ==> TupleLengths(r.value, STATE_QOS_TUPLE_LEN)
  {
    if raw == [] then Some([])
    else
      var before := MasterTuples(raw[..|raw| - 1]);
      var t := TupleOf(raw[|raw| - 1].1, STATE_QOS_TUPLE_LEN);
      if before.Some? && ParseInt(raw[|raw| - 1].0).Some? && t.Some?
      then Some(Put(before.value, raw[|raw| - 1].0, t.value)) else None
  }

  ghost predicate QosShape(t: Dict<Dict<seq<int>>>) {
    forall e :: e in t ==> TupleLengths(e.1, STATE_QOS_TUPLE_LEN)
  }

  function QosTuples(raw: Dict<Json>): (r: Option<Dict<Dict<seq<int>>>>)
    ensures r.Some? ==> QosShape(r.value)
  {
    if raw == [] then Some([])
    else
      var before := QosTuples(raw[..|raw| - 1]);
      var dev := ParseInt(raw[|raw| - 1].0);
      var masters := if raw[|raw| - 1].1.JObj? then MasterTuples(raw[|raw| - 1].1.fields) else None;
      if before.Some? && dev.Some? && masters.Some?
      then Some(Put(before.value, ShowInt(dev.value), masters.value)) else None
  }

  datatype Validated = Validated(
    qos: Dict<Dict<seq<int>>>, printed: seq<Json>, bw: Dict<seq<int>>, fuse: Dict<seq<int>>)
  {
    ghost predicate Shaped() {
      QosShape(qos) && TupleLengths(bw, STATE_SDMA_MATA_LEN) && TupleLengths(fuse, STATE_FUSE_GBL_LEN)
    }
  }

  function FieldOr(j: Option<Json>): Json {
    if j.Some? then j.value else JObj([])
  }

  function Validate(data: Json): (r: Option<Validated>)
    ensures r.Some? ==> r.value.Shaped()
  {
    if !data.JObj? then None
    else
      var qos := Find(data.fields, "original_qos");
      var printed := Find(data.fields, "printed_commands");
      var bw := FieldOr(Find(data.fields, "original_sdma_mata"));
      var fuse := FieldOr(Find(data.fields, "original_fuse"));
      if qos.None? || !qos.value.JObj? || printed.None? || !printed.value.JArr? || !bw.JObj? || !fuse.JObj? then None
      else if exists x :: x in printed.value.elems && !x.JStr? then None
      else
        var q, b := QosTuples(qos.value.fields), FlatTuples(bw.fields, STATE_SDMA_MATA_LEN);
        var f := FlatTuples(fuse.fields, STATE_FUSE_GBL_LEN);
        if q.Some? && b.Some? && f.Some? then Some(Validated(q.value, printed.value.elems, b.value, f.value)) else None
  }

  // What the validator accepts, entry by entry: numbers as keys, lists of the right length whose entries
  // read as integers.
  ghost predicate GoodTuples(raw: Dict<Json>, len: nat) {
    forall i :: 0 <= i < |raw| ==> ParseInt(raw[i].0).Some? && GoodTuple(raw[i].1, len)
  }

  ghost predicate GoodTuple(j: Json, len: nat) {
    j.JArr? && |j.elems| == len && forall i :: 0 <= i < len ==> Readable(j.elems[i])
  }

  ghost predicate GoodDevices(raw: Dict<Json>) {
    forall i :: 0 <= i < |raw| ==>
      ParseInt(raw[i].0).Some? && raw[i].1.JObj? && GoodTuples(raw[i].1.fields, 5)
  }

  // A field that may be missing.
  ghost predicate GoodOptional(j: Option<Json>, len: nat) {
    j.Some? ==> j.value.JObj? && GoodTuples(j.value.fields, len)
  }

  lemma TupleIsGood(j: Json, len: nat)
    ensures TupleOf(j, len).Some? <==> GoodTuple(j, len)
  {
    if j.JArr? {
      IntsOfRead(j.elems, []);
    }
  }

  lemma {:induction false} MasterTuplesGood(raw: Dict<Json>)
    ensures MasterTuples(raw).Some? <==> GoodTuples(raw, 5)
  {
    if raw == [] {
    } else {
      MasterTuplesGood(raw[..|raw| - 1]);
      TupleIsGood(raw[|raw| - 1].1, 5);
      assert raw == raw[..|raw| - 1] + [raw[|raw| - 1]];
    }
  }

  lemma {:induction false} FlatTuplesGood(raw: Dict<Json>, len: nat)
    ensures FlatTuples(raw, len).Some? <==> GoodTuples(raw, len)
  {
    if raw == [] {
    } else {
      FlatTuplesGood(raw[..|raw| - 1], len);
      TupleIsGood(raw[|raw| - 1].1, len);
      assert raw == raw[..|raw| - 1] + [raw[|raw| - 1]];
    }
  }

  lemma {:induction false} QosTuplesGood(raw: Dict<Json>)
    ensures QosTuples(raw).Some? <==> GoodDevices(raw)
  {
    if raw == [] {
    } else {
      QosTuplesGood(raw[..|raw| - 1]);
      if raw[|raw| - 1].1.JObj? {
        MasterTuplesGood(raw[|raw| - 1].1.fields);
      }
      assert raw == raw[..|raw| - 1] + [raw[|raw| - 1]];
    }
  }

  // A state is accepted exactly if it is an object with the registers of the masters and a list of texts,
  // and the bandwidths and fuse settings, if it has them, are well formed too.
  lemma ValidatesWhen(data: Json)
    ensures Validate(data).Some? <==>
            && data.JObj?
            && var qos := Find(data.fields, "original_qos");
            && var printed := Find(data.fields, "printed_commands");
            && qos.Some? && qos.value.JObj? && GoodDevices(qos.value.fields)
            && printed.Some? && printed.value.JArr? && (forall x :: x in printed.value.elems ==> x.JStr?)
            && GoodOptional(Find(data.fields, "original_sdma_mata"), 4)
            && GoodOptional(Find(data.fields, "original_fuse"), 3)
  {
    if data.JObj? {
      var qos := Find(data.fields, "original_qos");
      var bw := FieldOr(Find(data.fields, "original_sdma_mata"));
      var fuse := FieldOr(Find(data.fields, "original_fuse"));
      if qos.Some? && qos.value.JObj? {
        QosTuplesGood(qos.value.fields);
      }
      if bw.JObj? {
        FlatTuplesGood(bw.fields, 4);
      }
      if fuse.JObj? {
        FlatTuplesGood(fuse.fields, 3);
      }
    }
  }

  // ---------- Restoring ----------

  function Number(k: string): int {
    if ParseInt(k).Some? then ParseInt(k).value else 0
  }

  function RestoreBw(hw: Hardware, t: Dict<seq<int>>): Hardware
    requires TupleLengths(t, STATE_SDMA_MATA_LEN)
  {
    if t == [] then hw
    else
      var (k, v) := t[|t| - 1];
      assert t[|t| - 1] in t;
      RestoreBw(hw, t[..|t| - 1]).SetBw(Number(k), v[0], BwReg(v[1], v[2], v[3]))
  }

  function RestoreMasters(hw: Hardware, d: int, t: Dict<seq<int>>): Hardware
    requires TupleLengths(t, STATE_QOS_TUPLE_LEN)
  {
    if t == [] then hw
    else
      var (k, v) := t[|t| - 1];
      assert t[|t| - 1] in t;
      RestoreMasters(hw, d, t[..|t| - 1]).SetQos(d, Number(k), QosReg(v[1], v[2], v[3], v[4]))
  }

  function RestoreQos(hw: Hardware, t: Dict<Dict<seq<int>>>): Hardware
    requires QosShape(t)
  {
    if t == [] then hw
    else
      var (k, v) := t[|t| - 1];
      assert t[|t| - 1] in t;
      RestoreMasters(RestoreQos(hw, t[..|t| - 1]), Number(k), v)
  }

  function RestoreFuse(hw: Hardware, t: Dict<seq<int>>): Hardware
    requires TupleLengths(t, STATE_FUSE_GBL_LEN)
  {
    if t == [] then hw
    else
      var (k, v) := t[|t| - 1];
      assert t[|t| - 1] in t;
      RestoreFuse(hw, t[..|t| - 1]).SetFuse(Number(k), FuseReg(v[0], v[1], v[2]))
  }

  function Restore(hw: Hardware, v: Validated): Hardware
    requires v.Shaped()
  {
    RestoreFuse(RestoreQos(RestoreBw(hw, v.bw), v.qos), v.fuse)
  }

  // ---------- The two commands ----------

  datatype World = World(hw: Hardware, file: StateFile)

  datatype Request = Request(devices: seq<int>, priority: Priority, printed: seq<string>)

  function NextRecord(w: World, ok: Getters, baseline: Option<Record>, devices: seq<int>): Record {
    match baseline
    case Some(r) => MergedRecord(w.hw, ok, r, devices)
    case None => FreshRecord(w.hw, ok, devices)
  }

  // ai_qos apply
  function Apply(w: World, ok: Getters, q: Request): World {
    match LoadBaseline(w.file)
    case Err(_) => w
    case Ok(baseline) =>
      World(ApplyDevices(w.hw, ok, q.devices, LevelsOf(q.priority)),
            Content(StateJson(NextRecord(w, ok, baseline, q.devices), q.printed)))
  }

  // ai_qos unset
  function Unset(w: World): World {
    if !w.file.Content? || Validate(w.file.data).None? then w.(file := NoFile)
    else World(Restore(w.hw, Validate(w.file.data).value), NoFile)
  }
}
