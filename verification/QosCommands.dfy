// The tool as it runs: registers and state file updated step by step.
module QosCommands {
  import opened Text
  import opened Dict
  import opened QosState
  import opened QosTool

  // ---------- The validator's loops ----------

  method ValidateFlat(raw: Dict<Json>, len: nat) returns (r: Option<Dict<seq<int>>>)
    ensures r == FlatTuples(raw, len)
  {
    var validated: Dict<seq<int>> := [];
    for i := 0 to |raw|
      invariant FlatTuples(raw[..i], len) == Some(validated)
    {
      assert raw[..i + 1][..i] == raw[..i];
      var dev := ParseInt(raw[i].0);
      var t := TupleOf(raw[i].1, len);
      if dev.None? || t.None? {
        FlatRejects(raw, len, i + 1);
        return None;
      }
      validated := Put(validated, ShowInt(dev.value), t.value);
    }
    assert raw[..|raw|] == raw;
    return Some(validated);
  }

  lemma {:induction false} FlatRejects(raw: Dict<Json>, len: nat, i: nat)
    requires i <= |raw| && FlatTuples(raw[..i], len).None?
    ensures FlatTuples(raw, len).None?
    decreases |raw| - i
  {
    if i == |raw| {
      assert raw[..i] == raw;
    } else {
      assert raw[..i + 1][..i] == raw[..i];
      FlatRejects(raw, len, i + 1);
    }
  }

  method ValidateMasters(raw: Dict<Json>) returns (r: Option<Dict<seq<int>>>)
    ensures r == MasterTuples(raw)
  {
    var vm: Dict<seq<int>> := [];
    for i := 0 to |raw|
      invariant MasterTuples(raw[..i]) == Some(vm)
    {
      assert raw[..i + 1][..i] == raw[..i];
      var t := TupleOf(raw[i].1, STATE_QOS_TUPLE_LEN);
      if ParseInt(raw[i].0).None? || t.None? {
        MastersReject(raw, i + 1);
        return None;
      }
      vm := Put(vm, raw[i].0, t.value);
    }
    assert raw[..|raw|] == raw;
    return Some(vm);
  }

  lemma {:induction false} MastersReject(raw: Dict<Json>, i: nat)
    requires i <= |raw| && MasterTuples(raw[..i]).None?
    ensures MasterTuples(raw).None?
    decreases |raw| - i
  {
    if i == |raw| {
      assert raw[..i] == raw;
    } else {
      assert raw[..i + 1][..i] == raw[..i];
      MastersReject(raw, i + 1);
    }
  }

  lemma QosNext(raw: Dict<Json>, i: nat)
    requires i < |raw| && QosTuples(raw[..i]).Some?
    ensures var dev, masters := ParseInt(raw[i].0), raw[i].1;
            QosTuples(raw[..i + 1]) ==
            if dev.Some? && masters.JObj? && MasterTuples(masters.fields).Some?
            then Some(Put(QosTuples(raw[..i]).value, ShowInt(dev.value), MasterTuples(masters.fields).value)) else None
  {
    assert raw[..i + 1][..i] == raw[..i];
  }

  method ValidateQos(raw: Dict<Json>) returns (r: Option<Dict<Dict<seq<int>>>>)
    ensures r == QosTuples(raw)
  {
    var validated: Dict<Dict<seq<int>>> := [];
    for i := 0 to |raw|
      invariant QosTuples(raw[..i]) == Some(validated)
    {
      QosNext(raw, i);
      var dev := ParseInt(raw[i].0);
      if dev.None? || !raw[i].1.JObj? {
        QosRejects(raw, i + 1);
        return None;
      }
      var vm := ValidateMasters(raw[i].1.fields);
      if vm.None? {
        QosRejects(raw, i + 1);
        return None;
      }
      validated := Put(validated, ShowInt(dev.value), vm.value);
    }
    assert raw[..|raw|] == raw;
    return Some(validated);
  }

  lemma {:induction false} QosRejects(raw: Dict<Json>, i: nat)
    requires i <= |raw| && QosTuples(raw[..i]).None?
    ensures QosTuples(raw).None?
    decreases |raw| - i
  {
    if i == |raw| {
      assert raw[..i] == raw;
    } else {
      assert raw[..i + 1][..i] == raw[..i];
      QosRejects(raw, i + 1);
    }
  }

  method ParseAndValidateUnsetState(data: Json) returns (r: Option<Validated>)
    ensures r == Validate(data)
  {
    if !data.JObj? {
      return None;
    }
    var qos := Find(data.fields, "original_qos");
    if qos.None? || !qos.value.JObj? {
      return None;
    }
    var printed := Find(data.fields, "printed_commands");
    if printed.None? || !printed.value.JArr? || exists x :: x in printed.value.elems && !x.JStr? {
      return None;
    }
    var bw := FieldOr(Find(data.fields, "original_sdma_mata"));
    if !bw.JObj? {
      return None;
    }
    var fuse := FieldOr(Find(data.fields, "original_fuse"));
    if !fuse.JObj? {
      return None;
    }
    var q := ValidateQos(qos.value.fields);
    if q.None? {
      return None;
    }
    var b := ValidateFlat(bw.fields, STATE_SDMA_MATA_LEN);
    if b.None? {
      return None;
    }
    var f := ValidateFlat(fuse.fields, STATE_FUSE_GBL_LEN);
    if f.None? {
      return None;
    }
    return Some(Validated(q.value, printed.value.elems, b.value, f.value));
  }

  class AiQos {
    const ok: Getters
    var hw: Hardware
    var file: StateFile

    constructor (ok: Getters, hw: Hardware, file: StateFile)
      ensures this.ok == ok && this.hw == hw && this.file == file
    {
      this.ok, this.hw, this.file := ok, hw, file;
    }

    ghost function Snapshot(): World
      reads this
    {
      World(hw, file)
    }

    // ---------- Capturing ----------

    method CaptureOriginalQos(devices: seq<int>) returns (original: Dict<Json>)
      ensures original == CapturedQos(hw, ok, devices)
    {
      original := [];
      for i := 0 to |devices|
        invariant original == CapturedQos(hw, ok, devices[..i])
      {
        var d := devices[i];
        var masters: Dict<Json> := [];
        for k := 0 to |MASTERS|
          invariant masters == MasterEntries(hw, ok, d, k)
        {
          var m := MASTERS[k].1;
          if (d, m) in ok.qos {
            masters := Put(masters, ShowInt(m), JInts(QosTuple(hw, d, m)));
          }
        }
        assert devices[..i + 1][..i] == devices[..i];
        original := Put(original, ShowInt(d), JObj(masters));
      }
      assert devices[..|devices|] == devices;
    }

    method CaptureOriginalSdmaMata(devices: seq<int>) returns (out: Dict<Json>)
      ensures out == CapturedBw(hw, ok, devices)
    {
      out := [];
      for i := 0 to |devices|
        invariant out == CapturedBw(hw, ok, devices[..i])
      {
        var d := devices[i];
        assert devices[..i + 1][..i] == devices[..i];
        if (d, MASTER_ID_SDMA) !in ok.qos {
          continue;
        }
        if d in ok.bw {
          out := Put(out, ShowInt(d), JInts(BwTuple(hw, d)));
        }
      }
      assert devices[..|devices|] == devices;
    }

    method CaptureOriginalFuse(devices: seq<int>) returns (out: Dict<Json>)
      ensures out == CapturedFuse(hw, ok, devices)
    {
      out := [];
      for i := 0 to |devices|
        invariant out == CapturedFuse(hw, ok, devices[..i])
      {
        assert devices[..i + 1][..i] == devices[..i];
        if devices[i] in ok.fuse {
          out := Put(out, ShowInt(devices[i]), JInts(FuseTuple(hw, devices[i])));
        }
      }
      assert devices[..|devices|] == devices;
    }

    method MergeInto(d: Dict<Json>, extra: Dict<Json>) returns (r: Dict<Json>)
      ensures r == Merged(d, extra)
    {
      r := d;
      for i := 0 to |extra|
        invariant r == Merged(d, extra[..i])
      {
        assert extra[..i + 1][..i] == extra[..i];
        r := Put(r, extra[i].0, extra[i].1);
      }
      assert extra[..|extra|] == extra;
    }

    method MergeBaselineForNewDevices(devices: seq<int>, baseline: Record) returns (r: Record)
      ensures r == MergedRecord(hw, ok, baseline, devices)
    {
      var missing: seq<int> := [];
      for i := 0 to |devices|
        invariant missing == MissingDevices(baseline, devices[..i])
      {
        assert devices[..i + 1][..i] == devices[..i];
        if IsMissing(baseline, devices[i]) {
          missing := missing + [devices[i]];
        }
      }
      assert devices[..|devices|] == devices;
      if missing == [] {
        return baseline;
      }
      var oq := CaptureOriginalQos(missing);
      var qos := MergeInto(baseline.qos, oq);
      var osm := CaptureOriginalSdmaMata(missing);
      var bw := MergeInto(baseline.bw, osm);
      var ofu := CaptureOriginalFuse(missing);
      var fuse := MergeInto(baseline.fuse, ofu);
      return Record(qos, bw, fuse);
    }

    // ---------- apply ----------

    method SetQos(q: Request)
      modifies this
      ensures Snapshot() == Apply(old(Snapshot()), ok, q)
    {
      var loaded := LoadBaseline(file);
      if loaded.Err? {
        return;
      }
      var r := CurrentRecord(loaded.value, q.devices);
      ApplyToAll(q.devices, LevelsOf(q.priority));
      file := Content(StateJson(r, q.printed));
    }

    method CurrentRecord(baseline: Option<Record>, devices: seq<int>) returns (r: Record)
      ensures r == NextRecord(Snapshot(), ok, baseline, devices)
    {
      if baseline.Some? {
        r := MergeBaselineForNewDevices(devices, baseline.value);
      } else {
        var oq := CaptureOriginalQos(devices);
        var osm := CaptureOriginalSdmaMata(devices);
        var ofu := CaptureOriginalFuse(devices);
        r := Record(oq, osm, ofu);
      }
    }

    method ApplyToAll(devices: seq<int>, lv: Levels)
      modifies this`hw
      ensures hw == ApplyDevices(old(hw), ok, devices, lv)
    {
      for i := 0 to |devices|
        invariant hw == ApplyDevices(old(hw), ok, devices[..i], lv)
      {
        ApplyTo(devices[i], lv);
        assert devices[..i + 1][..i] == devices[..i];
      }
      assert devices[..|devices|] == devices;
    }

    method ApplyTo(d: int, lv: Levels)
      modifies this`hw
      ensures hw == ApplyDevice(old(hw), ok, d, lv)
    {
      hw := hw.SetFuse(d, FUSE_APPLIED);
      ghost var start := hw;
      for k := 0 to |MASTERS|
        invariant hw == ApplyMasters(start, ok, d, lv, k)
      {
        var (accu, m) := MASTERS[k];
        if (d, m) !in ok.qos {
          continue;
        }
        MasterKinds(lv, k);
        var r := hw.QosAt(d, m);
        if "AIV" <= accu {
          assert accu[0] == "AIV"[0] != "SDMA"[0];
          hw := hw.SetQos(d, m, r.(qos := lv.aiv));
        } else if "SDMA" <= accu {
          hw := hw.SetBw(d, r.mpamid, SDMA_MATA_APPLIED);
          hw := hw.SetQos(d, m, r.(qos := lv.sdma));
        } else {
          hw := hw.SetQos(d, m, r.(qos := lv.pcie));
        }
      }
    }

    // ---------- unset ----------

    method RunUnset() returns (exitCode: int)
      modifies this
      ensures Snapshot() == Unset(old(Snapshot()))
      ensures exitCode == if old(file).Content? && Validate(old(file).data).Some? then 0 else 1
    {
      if file.NoFile? {
        return 1;
      }
      if file.Garbled? {
        file := NoFile;
        return 1;
      }
      var validated := ParseAndValidateUnsetState(file.data);
      if validated.None? {
        file := NoFile;
        return 1;
      }
      var v := validated.value;
      RestoreBandwidths(v.bw);
      RestoreDevices(v.qos);
      RestoreFuses(v.fuse);
      file := NoFile;
      return 0;
    }

    method RestoreDevice(d: int, masters: Dict<seq<int>>)
      requires TupleLengths(masters, STATE_QOS_TUPLE_LEN)
      modifies this`hw
      ensures hw == RestoreMasters(old(hw), d, masters)
    {
      for j := 0 to |masters|
        invariant TupleLengths(masters[..j], STATE_QOS_TUPLE_LEN) && hw == RestoreMasters(old(hw), d, masters[..j])
      {
        var (m, t) := masters[j];
        assert masters[j] in masters && masters[..j + 1][..j] == masters[..j];
        hw := hw.SetQos(d, Number(m), QosReg(t[1], t[2], t[3], t[4]));
      }
      assert masters[..|masters|] == masters;
    }

    method RestoreBandwidths(bw: Dict<seq<int>>)
      requires TupleLengths(bw, STATE_SDMA_MATA_LEN)
      modifies this`hw
      ensures hw == RestoreBw(old(hw), bw)
    {
      for i := 0 to |bw|
        invariant TupleLengths(bw[..i], STATE_SDMA_MATA_LEN) && hw == RestoreBw(old(hw), bw[..i])
      {
        var (k, t) := bw[i];
        assert bw[i] in bw && bw[..i + 1][..i] == bw[..i];
        hw := hw.SetBw(Number(k), t[0], BwReg(t[1], t[2], t[3]));
      }
      assert bw[..|bw|] == bw;
    }

    method RestoreDevices(qos: Dict<Dict<seq<int>>>)
      requires QosShape(qos)
      modifies this`hw
      ensures hw == RestoreQos(old(hw), qos)
    {
      for i := 0 to |qos|
        invariant QosShape(qos[..i]) && hw == RestoreQos(old(hw), qos[..i])
      {
        var (k, masters) := qos[i];
        assert qos[i] in qos && qos[..i + 1][..i] == qos[..i];
        RestoreDevice(Number(k), masters);
      }
      assert qos[..|qos|] == qos;
    }

    method RestoreFuses(fuse: Dict<seq<int>>)
      requires TupleLengths(fuse, STATE_FUSE_GBL_LEN)
      modifies this`hw
      ensures hw == RestoreFuse(old(hw), fuse)
    {
      for i := 0 to |fuse|
        invariant TupleLengths(fuse[..i], STATE_FUSE_GBL_LEN) && hw == RestoreFuse(old(hw), fuse[..i])
      {
        var (k, t) := fuse[i];
        assert fuse[i] in fuse && fuse[..i + 1][..i] == fuse[..i];
        hw := hw.SetFuse(Number(k), FuseReg(t[0], t[1], t[2]));
      }
      assert fuse[..|fuse|] == fuse;
    }
  }
}
