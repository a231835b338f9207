// NPU quality-of-service registers, what `apply` records of them and what `unset` makes of the record.
module QosState {
  import opened Text
  import opened Dict

  datatype QosReg = QosReg(mpamid: int, qos: int, pmg: int, mode: int)

  datatype BwReg = BwReg(lo: int, hi: int, hard: int)

  datatype FuseReg = FuseReg(enable: int, autoFuse: int, mode: int)

  // Register files; a register never written holds its power-on value.
  datatype Hardware = Hardware(qos: map<(int, int), QosReg>, bw: map<(int, int), BwReg>, fuse: map<int, FuseReg>) {
    function QosAt(d: int, m: int): QosReg {
      if (d, m) in qos then qos[(d, m)] else QosReg(0, 0, 0, 0)
    }

    function BwAt(d: int, mpamid: int): BwReg {
      if (d, mpamid) in bw then bw[(d, mpamid)] else BwReg(0, 0, 0)
    }

    function FuseAt(d: int): FuseReg {
      if d in fuse then fuse[d] else FuseReg(0, 0, 0)
    }

    function SetQos(d: int, m: int, r: QosReg): Hardware {
      this.(qos := qos[(d, m) := r])
    }

    function SetBw(d: int, mpamid: int, r: BwReg): Hardware {
      this.(bw := bw[(d, mpamid) := r])
    }

    function SetFuse(d: int, r: FuseReg): Hardware {
      this.(fuse := fuse[d := r])
    }
  }

  // The getters that return 0: get_qos per device and master, get_bw and get_fuse_mode per device.
  datatype Getters = Getters(qos: set<(int, int)>, bw: set<int>, fuse: set<int>)

  const MASTER_ID_SDMA := 13

  const MASTERS: seq<(string, int)> := [("AIV_DATA", 11), ("AIV_INS", 12), ("SDMA", 13), ("PCIEDMA", 7)]

  const STATE_QOS_TUPLE_LEN := 5
  const STATE_SDMA_MATA_LEN := 4
  const STATE_FUSE_GBL_LEN := 3

  ghost predicate IsMaster(m: int) {
    m in {11, 12, 13, 7}
  }

  // ---------- Capturing ----------

  function QosTuple(hw: Hardware, d: int, m: int): seq<int> {
    var r := hw.QosAt(d, m);
    [m, r.mpamid, r.qos, r.pmg, r.mode]
  }

  // The first k masters of a device, those whose getter fails left out.
  function MasterEntries(hw: Hardware, ok: Getters, d: int, k: nat): Dict<Json>
    requires k <= |MASTERS|
  {
    if k == 0 then []
    else
      var m := MASTERS[k - 1].1;
      var before := MasterEntries(hw, ok, d, k - 1);
      if (d, m) in ok.qos then Put(before, ShowInt(m), JInts(QosTuple(hw, d, m))) else before
  }

  function QosEntry(hw: Hardware, ok: Getters, d: int): Json {
    JObj(MasterEntries(hw, ok, d, |MASTERS|))
  }

  predicate BwReadable(ok: Getters, d: int) {
    (d, MASTER_ID_SDMA) in ok.qos && d in ok.bw
  }

  function BwTuple(hw: Hardware, d: int): seq<int> {
    var mpamid := hw.QosAt(d, MASTER_ID_SDMA).mpamid;
    var r := hw.BwAt(d, mpamid);
    [mpamid, r.lo, r.hi, r.hard]
  }

  function FuseTuple(hw: Hardware, d: int): seq<int> {
    var r := hw.FuseAt(d);
    [r.enable, r.autoFuse, r.mode]
  }

  function CapturedQos(hw: Hardware, ok: Getters, devices: seq<int>): Dict<Json> {
    if devices == [] then []
    else
      var d := devices[|devices| - 1];
      Put(CapturedQos(hw, ok, devices[..|devices| - 1]), ShowInt(d), QosEntry(hw, ok, d))
  }

  function CapturedBw(hw: Hardware, ok: Getters, devices: seq<int>): Dict<Json> {
    if devices == [] then []
    else
      var d := devices[|devices| - 1];
      var before := CapturedBw(hw, ok, devices[..|devices| - 1]);
      if BwReadable(ok, d) then Put(before, ShowInt(d), JInts(BwTuple(hw, d))) else before
  }

  function CapturedFuse(hw: Hardware, ok: Getters, devices: seq<int>): Dict<Json> {
    if devices == [] then []
    else
      var d := devices[|devices| - 1];
      var before := CapturedFuse(hw, ok, devices[..|devices| - 1]);
      if d in ok.fuse then Put(before, ShowInt(d), JInts(FuseTuple(hw, d))) else before
  }

  // ---------- Which keys a captured dictionary has ----------

  // The text of one of the devices.
  ghost predicate KeyIn(k: string, devices: set<int>) {
    ParseInt(k).Some? && ParseInt(k).value in devices && ShowInt(ParseInt(k).value) == k
  }

  ghost function DeviceOf(k: string): int
    requires ParseInt(k).Some?
  {
    ParseInt(k).value
  }

  lemma KeyOfDevice(d: int, devices: set<int>)
    ensures KeyIn(ShowInt(d), devices) <==> d in devices
    ensures ParseInt(ShowInt(d)) == Some(d)
  {
    ParseShow(d);
  }

  ghost function Devices(s: seq<int>): set<int> {
    set d | d in s
  }

  lemma DevicesInit(s: seq<int>)
    requires s != []
    ensures Devices(s) == Devices(s[..|s| - 1]) + {s[|s| - 1]}
  {
    assert s == s[..|s| - 1] + [s[|s| - 1]];
  }

  lemma {:induction false} CapturedQosKeys(hw: Hardware, ok: Getters, devices: seq<int>, k: string)
    ensures DistinctKeys(CapturedQos(hw, ok, devices))
    ensures Find(CapturedQos(hw, ok, devices), k) ==
            if KeyIn(k, Devices(devices)) then Some(QosEntry(hw, ok, DeviceOf(k))) else None
  {
    if devices == [] {
    } else {
      var init, d := devices[..|devices| - 1], devices[|devices| - 1];
      CapturedQosKeys(hw, ok, init, k);
      DevicesInit(devices);
      FindPut(CapturedQos(hw, ok, init), ShowInt(d), QosEntry(hw, ok, d), k);
      PutKeys(CapturedQos(hw, ok, init), ShowInt(d), QosEntry(hw, ok, d));
      KeyOfDevice(d, Devices(devices));
    }
  }

  lemma {:induction false} CapturedBwKeys(hw: Hardware, ok: Getters, devices: seq<int>, k: string)
    ensures DistinctKeys(CapturedBw(hw, ok, devices))
    ensures Find(CapturedBw(hw, ok, devices), k) ==
            if KeyIn(k, Devices(devices)) && BwReadable(ok, DeviceOf(k))
            then Some(JInts(BwTuple(hw, DeviceOf(k)))) else None
  {
    if devices == [] {
    } else {
      var init, d := devices[..|devices| - 1], devices[|devices| - 1];
      CapturedBwKeys(hw, ok, init, k);
      DevicesInit(devices);
      FindPut(CapturedBw(hw, ok, init), ShowInt(d), JInts(BwTuple(hw, d)), k);
      PutKeys(CapturedBw(hw, ok, init), ShowInt(d), JInts(BwTuple(hw, d)));
      KeyOfDevice(d, Devices(devices));
    }
  }

  lemma {:induction false} CapturedFuseKeys(hw: Hardware, ok: Getters, devices: seq<int>, k: string)
    ensures DistinctKeys(CapturedFuse(hw, ok, devices))
    ensures Find(CapturedFuse(hw, ok, devices), k) ==
            if KeyIn(k, Devices(devices)) && DeviceOf(k) in ok.fuse
            then Some(JInts(FuseTuple(hw, DeviceOf(k)))) else None
  {
    if devices == [] {
    } else {
      var init, d := devices[..|devices| - 1], devices[|devices| - 1];
      CapturedFuseKeys(hw, ok, init, k);
      DevicesInit(devices);
      FindPut(CapturedFuse(hw, ok, init), ShowInt(d), JInts(FuseTuple(hw, d)), k);
      PutKeys(CapturedFuse(hw, ok, init), ShowInt(d), JInts(FuseTuple(hw, d)));
      KeyOfDevice(d, Devices(devices));
    }
  }

  // ---------- Merging into an earlier record ----------

  datatype Record = Record(qos: Dict<Json>, bw: Dict<Json>, fuse: Dict<Json>)

  // for k, v in extra.items(): d[k] = v
  function Merged(d: Dict<Json>, extra: Dict<Json>): Dict<Json> {
    if extra == [] then d
    else Put(Merged(d, extra[..|extra| - 1]), extra[|extra| - 1].0, extra[|extra| - 1].1)
  }

  lemma {:induction false} MergedKeys(d: Dict<Json>, extra: Dict<Json>, k: string)
    requires DistinctKeys(d)
    ensures DistinctKeys(Merged(d, extra))
    ensures Find(Merged(d, extra), k) == if Has(extra, k) then Find(extra, k) else Find(d, k)
  {
    if extra == [] {
    } else {
      var init, e := extra[..|extra| - 1], extra[|extra| - 1];
      MergedKeys(d, init, k);
      FindPut(Merged(d, init), e.0, e.1, k);
      PutKeys(Merged(d, init), e.0, e.1);
    }
  }

  predicate IsMissing(r: Record, d: int) {
    !Has(r.qos, ShowInt(d)) || !Has(r.bw, ShowInt(d)) || !Has(r.fuse, ShowInt(d))
  }

  function MissingDevices(r: Record, devices: seq<int>): seq<int> {
    if devices == [] then []
    else
      var before := MissingDevices(r, devices[..|devices| - 1]);
      if IsMissing(r, devices[|devices| - 1]) then before + [devices[|devices| - 1]] else before
  }

  lemma {:induction false} MissingAre(r: Record, devices: seq<int>, d: int)
    ensures d in MissingDevices(r, devices) <==> d in devices && IsMissing(r, d)
  {
    if devices == [] {
    } else {
      var init, last := devices[..|devices| - 1], devices[|devices| - 1];
      MissingAre(r, init, d);
      assert devices == init + [last];
      assert d in devices <==> d in init || d == last;
    }
  }

  function MergedRecord(hw: Hardware, ok: Getters, r: Record, devices: seq<int>): Record {
    var missing := MissingDevices(r, devices);
    Record(Merged(r.qos, CapturedQos(hw, ok, missing)),
           Merged(r.bw, CapturedBw(hw, ok, missing)),
           Merged(r.fuse, CapturedFuse(hw, ok, missing)))
  }

  function FreshRecord(hw: Hardware, ok: Getters, devices: seq<int>): Record {
    Record(CapturedQos(hw, ok, devices), CapturedBw(hw, ok, devices), CapturedFuse(hw, ok, devices))
  }

  // ---------- The record as snapshots of the hardware, one per device ----------

  // All three maps get an entry for the device, so it is captured once and kept.
  ghost predicate Complete(ok: Getters, d: int) {
    BwReadable(ok, d) && d in ok.fuse
  }

  ghost function ExpectedQos(snap: map<int, Hardware>, ok: Getters, k: string): Option<Json> {
    if KeyIn(k, snap.Keys) then Some(QosEntry(snap[DeviceOf(k)], ok, DeviceOf(k))) else None
  }

  ghost function ExpectedBw(snap: map<int, Hardware>, ok: Getters, k: string): Option<Json> {
    if KeyIn(k, snap.Keys) && BwReadable(ok, DeviceOf(k))
    then Some(JInts(BwTuple(snap[DeviceOf(k)], DeviceOf(k)))) else None
  }

  ghost function ExpectedFuse(snap: map<int, Hardware>, ok: Getters, k: string): Option<Json> {
    if KeyIn(k, snap.Keys) && DeviceOf(k) in ok.fuse
    then Some(JInts(FuseTuple(snap[DeviceOf(k)], DeviceOf(k)))) else None
  }

  // Device d's entries are those of the hardware as it was at snap[d].
  ghost predicate Records(r: Record, ok: Getters, snap: map<int, Hardware>) {
    && DistinctKeys(r.qos) && DistinctKeys(r.bw) && DistinctKeys(r.fuse)
    && (forall k :: Find(r.qos, k) == ExpectedQos(snap, ok, k))
    && (forall k :: Find(r.bw, k) == ExpectedBw(snap, ok, k))
    && (forall k :: Find(r.fuse, k) == ExpectedFuse(snap, ok, k))
  }

  // A device without a complete record is captured again; the others keep their snapshot.
  ghost function Resnapped(snap: map<int, Hardware>, ok: Getters, hw: Hardware, devices: seq<int>): map<int, Hardware> {
    map d | d in snap.Keys + Devices(devices) :: if d in snap && (d !in devices || Complete(ok, d)) then snap[d] else hw
  }

  lemma FreshAt(hw: Hardware, ok: Getters, devices: seq<int>, k: string)
    ensures Find(CapturedQos(hw, ok, devices), k) == ExpectedQos(Resnapped(map[], ok, hw, devices), ok, k)
    ensures Find(CapturedBw(hw, ok, devices), k) == ExpectedBw(Resnapped(map[], ok, hw, devices), ok, k)
    ensures Find(CapturedFuse(hw, ok, devices), k) == ExpectedFuse(Resnapped(map[], ok, hw, devices), ok, k)
  {
    assert Resnapped(map[], ok, hw, devices).Keys == Devices(devices);
    CapturedQosKeys(hw, ok, devices, k);
    CapturedBwKeys(hw, ok, devices, k);
    CapturedFuseKeys(hw, ok, devices, k);
  }

  lemma FreshRecords(hw: Hardware, ok: Getters, devices: seq<int>)
    ensures Records(FreshRecord(hw, ok, devices), ok, Resnapped(map[], ok, hw, devices))
  {
    var snap, r := Resnapped(map[], ok, hw, devices), FreshRecord(hw, ok, devices);
    forall k
      ensures Find(r.qos, k) == ExpectedQos(snap, ok, k)
      ensures Find(r.bw, k) == ExpectedBw(snap, ok, k)
      ensures Find(r.fuse, k) == ExpectedFuse(snap, ok, k)
    {
      FreshAt(hw, ok, devices, k);
    }
    CapturedQosKeys(hw, ok, devices, []);
    CapturedBwKeys(hw, ok, devices, []);
    CapturedFuseKeys(hw, ok, devices, []);
  }

  lemma MissingIsIncomplete(r: Record, ok: Getters, snap: map<int, Hardware>, d: int)
    requires Records(r, ok, snap)
    ensures IsMissing(r, d) <==> !(d in snap && Complete(ok, d))
  {
    KeyOfDevice(d, snap.Keys);
    assert Find(r.qos, ShowInt(d)) == ExpectedQos(snap, ok, ShowInt(d));
    assert Find(r.bw, ShowInt(d)) == ExpectedBw(snap, ok, ShowInt(d));
    assert Find(r.fuse, ShowInt(d)) == ExpectedFuse(snap, ok, ShowInt(d));
  }

  lemma MissingWhen(r: Record, ok: Getters, snap: map<int, Hardware>, devices: seq<int>, d: int)
    requires Records(r, ok, snap)
    ensures d in MissingDevices(r, devices) <==> d in devices && !(d in snap && Complete(ok, d))
  {
    MissingAre(r, devices, d);
    MissingIsIncomplete(r, ok, snap, d);
  }

  // A merged map has the new entry of a missing device, if there is one, and the old entry otherwise.
  lemma MergedFinds(hw: Hardware, ok: Getters, r: Record, devices: seq<int>, k: string)
    requires DistinctKeys(r.qos) && DistinctKeys(r.bw) && DistinctKeys(r.fuse)
    ensures var m, again := MergedRecord(hw, ok, r, devices), KeyIn(k, Devices(MissingDevices(r, devices)));
            && Find(m.qos, k) == (if again then Some(QosEntry(hw, ok, DeviceOf(k))) else Find(r.qos, k))
            && Find(m.bw, k) == (if again && BwReadable(ok, DeviceOf(k)) then Some(JInts(BwTuple(hw, DeviceOf(k))))
                                 else Find(r.bw, k))
            && Find(m.fuse, k) == (if again && DeviceOf(k) in ok.fuse then Some(JInts(FuseTuple(hw, DeviceOf(k))))
                                   else Find(r.fuse, k))
  {
    var missing := MissingDevices(r, devices);
    CapturedQosKeys(hw, ok, missing, k);
    CapturedBwKeys(hw, ok, missing, k);
    CapturedFuseKeys(hw, ok, missing, k);
    MergedKeys(r.qos, CapturedQos(hw, ok, missing), k);
    MergedKeys(r.bw, CapturedBw(hw, ok, missing), k);
    MergedKeys(r.fuse, CapturedFuse(hw, ok, missing), k);
  }

  lemma MergedAt(hw: Hardware, ok: Getters, r: Record, snap: map<int, Hardware>, devices: seq<int>, k: string)
    requires Records(r, ok, snap)
    ensures var m, next := MergedRecord(hw, ok, r, devices), Resnapped(snap, ok, hw, devices);
            && Find(m.qos, k) == ExpectedQos(next, ok, k)
            && Find(m.bw, k) == ExpectedBw(next, ok, k)
            && Find(m.fuse, k) == ExpectedFuse(next, ok, k)
  {
    MergedFinds(hw, ok, r, devices, k);
    assert Find(r.qos, k) == ExpectedQos(snap, ok, k);
    assert Find(r.bw, k) == ExpectedBw(snap, ok, k);
    assert Find(r.fuse, k) == ExpectedFuse(snap, ok, k);
    if ParseInt(k).Some? {
      MissingWhen(r, ok, snap, devices, DeviceOf(k));
    }
  }

  lemma MergedRecords(hw: Hardware, ok: Getters, r: Record, snap: map<int, Hardware>, devices: seq<int>)
    requires Records(r, ok, snap)
    ensures Records(MergedRecord(hw, ok, r, devices), ok, Resnapped(snap, ok, hw, devices))
  {
    var missing := MissingDevices(r, devices);
    var m, next := MergedRecord(hw, ok, r, devices), Resnapped(snap, ok, hw, devices);
    forall k
      ensures Find(m.qos, k) == ExpectedQos(next, ok, k)
      ensures Find(m.bw, k) == ExpectedBw(next, ok, k)
      ensures Find(m.fuse, k) == ExpectedFuse(next, ok, k)
    {
      MergedAt(hw, ok, r, snap, devices, k);
    }
    MergedKeys(r.qos, CapturedQos(hw, ok, missing), []);
    MergedKeys(r.bw, CapturedBw(hw, ok, missing), []);
    MergedKeys(r.fuse, CapturedFuse(hw, ok, missing), []);
  }
}
