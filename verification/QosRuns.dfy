// What a sequence of applies followed by unset does to every register.
module QosRuns {
  import opened Text
  import opened Dict
  import opened QosState
  import opened QosTool

  // ---------- The validator accepts what was recorded ----------

  // Keys are the canonical text of distinct integers.
  ghost predicate Canonical<V>(d: Dict<V>) {
    && DistinctKeys(d)
    && forall i :: 0 <= i < |d| ==> ParseInt(d[i].0).Some? && ShowInt(ParseInt(d[i].0).value) == d[i].0
  }

  // Entry by entry, the tuples of what was recorded.
  ghost predicate TuplesOf(t: Dict<seq<int>>, raw: Dict<Json>, len: nat) {
    |t| == |raw| && forall i :: 0 <= i < |t| ==> t[i].0 == raw[i].0 && Some(t[i].1) == TupleOf(raw[i].1, len)
  }

  lemma TuplesPut(t: Dict<seq<int>>, raw: Dict<Json>, len: nat, v: seq<int>)
    requires raw != [] && Canonical(raw) && TuplesOf(t, raw[..|raw| - 1], len)
    requires TupleOf(raw[|raw| - 1].1, len) == Some(v)
    ensures TuplesOf(Put(t, raw[|raw| - 1].0, v), raw, len)
  {
    PutNew(t, raw[|raw| - 1].0, v);
  }

  lemma CanonicalFront<V>(d: Dict<V>)
    requires d != [] && Canonical(d)
    ensures Canonical(d[..|d| - 1])
  {
  }

  lemma {:induction false} FlatIsTuples(raw: Dict<Json>, len: nat)
    requires Canonical(raw) && forall i :: 0 <= i < |raw| ==> TupleOf(raw[i].1, len).Some?
    ensures FlatTuples(raw, len).Some? && TuplesOf(FlatTuples(raw, len).value, raw, len)
  {
    if raw == [] {
    } else {
      var init, e := raw[..|raw| - 1], raw[|raw| - 1];
      CanonicalFront(raw);
      FlatIsTuples(init, len);
      TuplesPut(FlatTuples(init, len).value, raw, len, TupleOf(e.1, len).value);
    }
  }

  lemma {:induction false} MastersAreTuples(raw: Dict<Json>)
    requires Canonical(raw) && forall i :: 0 <= i < |raw| ==> TupleOf(raw[i].1, STATE_QOS_TUPLE_LEN).Some?
    ensures MasterTuples(raw).Some? && TuplesOf(MasterTuples(raw).value, raw, STATE_QOS_TUPLE_LEN)
  {
    if raw == [] {
    } else {
      var init, e := raw[..|raw| - 1], raw[|raw| - 1];
      CanonicalFront(raw);
      MastersAreTuples(init);
      TuplesPut(MasterTuples(init).value, raw, STATE_QOS_TUPLE_LEN, TupleOf(e.1, STATE_QOS_TUPLE_LEN).value);
    }
  }

  lemma FlatAccepts(raw: Dict<Json>, len: nat, k: string)
    requires Canonical(raw) && forall i :: 0 <= i < |raw| ==> TupleOf(raw[i].1, len).Some?
    ensures FlatTuples(raw, len).Some?
    ensures var t := FlatTuples(raw, len).value;
            && |t| == |raw| && (forall i :: 0 <= i < |t| ==> t[i].0 == raw[i].0)
            && Find(t, k) == if Has(raw, k) then TupleOf(Find(raw, k).value, len) else None
  {
    FlatIsTuples(raw, len);
    var i := FindAlike(raw, FlatTuples(raw, len).value, k);
  }

  lemma MastersAccept(raw: Dict<Json>, k: string)
    requires Canonical(raw) && forall i :: 0 <= i < |raw| ==> TupleOf(raw[i].1, STATE_QOS_TUPLE_LEN).Some?
    ensures MasterTuples(raw).Some?
    ensures var t := MasterTuples(raw).value;
            && |t| == |raw| && (forall i :: 0 <= i < |t| ==> t[i].0 == raw[i].0)
            && Find(t, k) == if Has(raw, k) then TupleOf(Find(raw, k).value, STATE_QOS_TUPLE_LEN) else None
  {
    MastersAreTuples(raw);
    var i := FindAlike(raw, MasterTuples(raw).value, k);
  }

  ghost predicate GoodMasters(j: Json) {
    && j.JObj? && Canonical(j.fields)
    && forall i :: 0 <= i < |j.fields| ==> TupleOf(j.fields[i].1, STATE_QOS_TUPLE_LEN).Some?
  }

  lemma GoodMastersAccepted(j: Json)
    requires GoodMasters(j)
    ensures MasterTuples(j.fields).Some? && Canonical(MasterTuples(j.fields).value)
  {
    MastersAccept(j.fields, []);
    var t := MasterTuples(j.fields).value;
    assert forall i :: 0 <= i < |t| ==> t[i].0 == j.fields[i].0;
  }

  ghost predicate MastersOf(t: Dict<Dict<seq<int>>>, raw: Dict<Json>) {
    && |t| == |raw|
    && forall i :: 0 <= i < |t| ==>
         t[i].0 == raw[i].0 && Canonical(t[i].1) && raw[i].1.JObj? && Some(t[i].1) == MasterTuples(raw[i].1.fields)
  }

  lemma MastersPut(t: Dict<Dict<seq<int>>>, raw: Dict<Json>, v: Dict<seq<int>>)
    requires raw != [] && Canonical(raw) && MastersOf(t, raw[..|raw| - 1])
    requires raw[|raw| - 1].1.JObj? && MasterTuples(raw[|raw| - 1].1.fields) == Some(v) && Canonical(v)
    ensures MastersOf(Put(t, raw[|raw| - 1].0, v), raw)
  {
    var init, e := raw[..|raw| - 1], raw[|raw| - 1];
    forall i | 0 <= i < |t|
      ensures t[i].0 != e.0
    {
      assert t[i].0 == init[i].0;
    }
    PutNew(t, e.0, v);
    MastersSnoc(t, init, e, v);
    assert raw == init + [e];
  }

  lemma MastersSnoc(t: Dict<Dict<seq<int>>>, raw: Dict<Json>, e: (string, Json), v: Dict<seq<int>>)
    requires MastersOf(t, raw) && e.1.JObj? && MasterTuples(e.1.fields) == Some(v) && Canonical(v)
    ensures MastersOf(t + [(e.0, v)], raw + [e])
  {
  }

  lemma {:induction false} QosIsMasters(raw: Dict<Json>)
    requires Canonical(raw) && forall i :: 0 <= i < |raw| ==> GoodMasters(raw[i].1)
    ensures QosTuples(raw).Some? && MastersOf(QosTuples(raw).value, raw)
  {
    if raw == [] {
    } else {
      var init, e := raw[..|raw| - 1], raw[|raw| - 1];
      CanonicalFront(raw);
      QosIsMasters(init);
      GoodMastersAccepted(e.1);
      MastersPut(QosTuples(init).value, raw, MasterTuples(e.1.fields).value);
    }
  }

  lemma QosAccepts(raw: Dict<Json>, k: string)
    requires Canonical(raw) && forall i :: 0 <= i < |raw| ==> GoodMasters(raw[i].1)
    ensures QosTuples(raw).Some?
    ensures var t := QosTuples(raw).value;
            && |t| == |raw| && (forall i :: 0 <= i < |t| ==> t[i].0 == raw[i].0 && Canonical(t[i].1))
            && (Has(raw, k) ==> Find(raw, k).value.JObj?)
            && Find(t, k) == if Has(raw, k) then MasterTuples(Find(raw, k).value.fields) else None
  {
    QosIsMasters(raw);
    var i := FindAlike(raw, QosTuples(raw).value, k);
  }

  lemma {:induction false} MasterEntriesDistinct(hw: Hardware, ok: Getters, d: int, k: nat)
    requires k <= |MASTERS|
    ensures DistinctKeys(MasterEntries(hw, ok, d, k))
  {
    if k == 0 {
    } else {
      var m := MASTERS[k - 1].1;
      MasterEntriesDistinct(hw, ok, d, k - 1);
      PutKeys(MasterEntries(hw, ok, d, k - 1), ShowInt(m), JInts(QosTuple(hw, d, m)));
    }
  }

  // The key of a master reads back as that master and no other.
  lemma KeyIsMaster(key: string, m: int)
    ensures key == ShowInt(m) <==> ParseInt(key) == Some(m) && ShowInt(m) == key
  {
    ParseShow(m);
  }

  ghost function ExpectedMaster(hw: Hardware, ok: Getters, d: int, ids: set<int>, key: string): Option<Json> {
    if KeyIn(key, ids) && (d, DeviceOf(key)) in ok.qos then Some(JInts(QosTuple(hw, d, DeviceOf(key)))) else None
  }

  lemma MasterStep(before: Dict<Json>, hw: Hardware, ok: Getters, d: int, ids: set<int>, m: int, key: string)
    requires Find(before, key) == ExpectedMaster(hw, ok, d, ids, key)
    ensures Find(if (d, m) in ok.qos then Put(before, ShowInt(m), JInts(QosTuple(hw, d, m))) else before, key) ==
            ExpectedMaster(hw, ok, d, ids + {m}, key)
  {
    FindPut(before, ShowInt(m), JInts(QosTuple(hw, d, m)), key);
    KeyIsMaster(key, m);
  }

  lemma {:induction false} MasterEntriesFind(hw: Hardware, ok: Getters, d: int, k: nat, key: string)
    requires k <= |MASTERS|
    ensures Find(MasterEntries(hw, ok, d, k), key) == ExpectedMaster(hw, ok, d, MasterIds(k), key)
  {
    if k == 0 {
    } else {
      MasterEntriesFind(hw, ok, d, k - 1, key);
      MasterStep(MasterEntries(hw, ok, d, k - 1), hw, ok, d, MasterIds(k - 1), MASTERS[k - 1].1, key);
    }
  }

  lemma MasterEntriesKeys(hw: Hardware, ok: Getters, d: int, k: nat, key: string)
    requires k <= |MASTERS|
    ensures DistinctKeys(MasterEntries(hw, ok, d, k))
    ensures Find(MasterEntries(hw, ok, d, k), key) ==
            if KeyIn(key, MasterIds(k)) && (d, DeviceOf(key)) in ok.qos
            then Some(JInts(QosTuple(hw, d, DeviceOf(key)))) else None
  {
    MasterEntriesDistinct(hw, ok, d, k);
    MasterEntriesFind(hw, ok, d, k, key);
  }

  lemma TupleOfInts(xs: seq<int>)
    ensures TupleOf(JInts(xs), |xs|) == Some(xs)
  {
    IntsRoundTrip(xs);
  }

  lemma QosEntryGood(hw: Hardware, ok: Getters, d: int)
    ensures GoodMasters(QosEntry(hw, ok, d))
  {
    var es := MasterEntries(hw, ok, d, |MASTERS|);
    MasterEntriesKeys(hw, ok, d, |MASTERS|, []);
    forall i | 0 <= i < |es|
      ensures ParseInt(es[i].0).Some? && ShowInt(ParseInt(es[i].0).value) == es[i].0
      ensures TupleOf(es[i].1, STATE_QOS_TUPLE_LEN).Some?
    {
      FindAt(es, i);
      MasterEntriesKeys(hw, ok, d, |MASTERS|, es[i].0);
      TupleOfInts(QosTuple(hw, d, DeviceOf(es[i].0)));
    }
  }

  lemma RecordCanonical(r: Record, ok: Getters, snap: map<int, Hardware>)
    requires Records(r, ok, snap)
    ensures Canonical(r.qos) && (forall i :: 0 <= i < |r.qos| ==> GoodMasters(r.qos[i].1))
    ensures Canonical(r.bw) && (forall i :: 0 <= i < |r.bw| ==> TupleOf(r.bw[i].1, STATE_SDMA_MATA_LEN).Some?)
    ensures Canonical(r.fuse) && (forall i :: 0 <= i < |r.fuse| ==> TupleOf(r.fuse[i].1, STATE_FUSE_GBL_LEN).Some?)
  {
    forall i | 0 <= i < |r.qos|
      ensures KeyIn(r.qos[i].0, snap.Keys) && GoodMasters(r.qos[i].1)
    {
      FindAt(r.qos, i);
      var d := ParseInt(r.qos[i].0).value;
      QosEntryGood(snap[d], ok, d);
    }
    forall i | 0 <= i < |r.bw|
      ensures KeyIn(r.bw[i].0, snap.Keys) && TupleOf(r.bw[i].1, STATE_SDMA_MATA_LEN).Some?
    {
      FindAt(r.bw, i);
      var d := ParseInt(r.bw[i].0).value;
      TupleOfInts(BwTuple(snap[d], d));
    }
    forall i | 0 <= i < |r.fuse|
      ensures KeyIn(r.fuse[i].0, snap.Keys) && TupleOf(r.fuse[i].1, STATE_FUSE_GBL_LEN).Some?
    {
      FindAt(r.fuse, i);
      var d := ParseInt(r.fuse[i].0).value;
      TupleOfInts(FuseTuple(snap[d], d));
    }
  }

  lemma FormOfInts(xs: seq<int>, elems: seq<Json>)
    requires |elems| == |xs| && forall i :: 0 <= i < |xs| ==> elems[i] == JInt(xs[i])
    ensures JInts(xs) == JArr(elems)
  {
    assert JInts(xs).elems == elems;
  }

  // What the record holds of a device, in the order of the file. For a master: its number, mpamid, qos, pmg
  // and mode.
  lemma QosForm(r: Record, ok: Getters, snap: map<int, Hardware>, d: int, m: int)
    requires Records(r, ok, snap) && d in snap && m in {11, 12, 13, 7} && (d, m) in ok.qos
    ensures Find(r.qos, ShowInt(d)).Some? && Find(r.qos, ShowInt(d)).value.JObj?
    ensures var q := snap[d].QosAt(d, m);
            Find(Find(r.qos, ShowInt(d)).value.fields, ShowInt(m)) ==
            Some(JArr([JInt(m), JInt(q.mpamid), JInt(q.qos), JInt(q.pmg), JInt(q.mode)]))
  {
    KeyOfDevice(d, snap.Keys);
    assert Find(r.qos, ShowInt(d)) == ExpectedQos(snap, ok, ShowInt(d));
    EntryForm(snap[d], ok, d, m);
  }

  lemma EntryForm(hw: Hardware, ok: Getters, d: int, m: int)
    requires m in {11, 12, 13, 7} && (d, m) in ok.qos
    ensures var q := hw.QosAt(d, m);
            Find(QosEntry(hw, ok, d).fields, ShowInt(m)) ==
            Some(JArr([JInt(m), JInt(q.mpamid), JInt(q.qos), JInt(q.pmg), JInt(q.mode)]))
  {
    MasterEntriesKeys(hw, ok, d, 4, ShowInt(m));
    assert MasterIds(2) == {11, 12} && MasterIds(4) == {11, 12, 13, 7};
    KeyOfDevice(m, MasterIds(4));
    var q := hw.QosAt(d, m);
    FormOfInts(QosTuple(hw, d, m), [JInt(m), JInt(q.mpamid), JInt(q.qos), JInt(q.pmg), JInt(q.mode)]);
  }

  // For the bandwidth: the SDMA master's mpamid, low, high and hard limit.
  lemma BwForm(r: Record, ok: Getters, snap: map<int, Hardware>, d: int)
    requires Records(r, ok, snap) && d in snap && (d, 13) in ok.qos && d in ok.bw
    ensures var mpamid := snap[d].QosAt(d, 13).mpamid;
            var b := snap[d].BwAt(d, mpamid);
            Find(r.bw, ShowInt(d)) == Some(JArr([JInt(mpamid), JInt(b.lo), JInt(b.hi), JInt(b.hard)]))
  {
    KeyOfDevice(d, snap.Keys);
    assert Find(r.bw, ShowInt(d)) == ExpectedBw(snap, ok, ShowInt(d));
    var mpamid := snap[d].QosAt(d, 13).mpamid;
    var b := snap[d].BwAt(d, mpamid);
    FormOfInts(BwTuple(snap[d], d), [JInt(mpamid), JInt(b.lo), JInt(b.hi), JInt(b.hard)]);
  }

  // For the fuse: whether it is enabled, automatic fusing, and the mode.
  lemma FuseForm(r: Record, ok: Getters, snap: map<int, Hardware>, d: int)
    requires Records(r, ok, snap) && d in snap && d in ok.fuse
    ensures var f := snap[d].FuseAt(d);
            Find(r.fuse, ShowInt(d)) == Some(JArr([JInt(f.enable), JInt(f.autoFuse), JInt(f.mode)]))
  {
    KeyOfDevice(d, snap.Keys);
    assert Find(r.fuse, ShowInt(d)) == ExpectedFuse(snap, ok, ShowInt(d));
    var f := snap[d].FuseAt(d);
    FormOfInts(FuseTuple(snap[d], d), [JInt(f.enable), JInt(f.autoFuse), JInt(f.mode)]);
  }

  // The state file that apply writes always passes unset's validation.
  lemma RecordValidates(r: Record, ok: Getters, snap: map<int, Hardware>, printed: seq<string>)
    requires Records(r, ok, snap)
    ensures QosTuples(r.qos).Some?
    ensures FlatTuples(r.bw, STATE_SDMA_MATA_LEN).Some? && FlatTuples(r.fuse, STATE_FUSE_GBL_LEN).Some?
    ensures Validate(StateJson(r, printed)) ==
            Some(Validated(QosTuples(r.qos).value, TextsOf(printed).elems, FlatTuples(r.bw, STATE_SDMA_MATA_LEN).value,
                           FlatTuples(r.fuse, STATE_FUSE_GBL_LEN).value))
  {
    StateFields(r, printed);
    RecordCanonical(r, ok, snap);
    QosAccepts(r.qos, []);
    FlatAccepts(r.bw, STATE_SDMA_MATA_LEN, []);
    FlatAccepts(r.fuse, STATE_FUSE_GBL_LEN, []);
  }

  // ---------- What restoring writes ----------

  lemma {:induction false} RestoreBwEffect(hw: Hardware, t: Dict<seq<int>>, d: int, i: int)
    requires Canonical(t) && TupleLengths(t, STATE_SDMA_MATA_LEN)
    ensures RestoreBw(hw, t).qos == hw.qos && RestoreBw(hw, t).fuse == hw.fuse
    ensures Has(t, ShowInt(d)) ==> |Find(t, ShowInt(d)).value| == STATE_SDMA_MATA_LEN
    ensures RestoreBw(hw, t).BwAt(d, i) ==
            if Has(t, ShowInt(d)) && i == Find(t, ShowInt(d)).value[0]
            then var v := Find(t, ShowInt(d)).value; BwReg(v[1], v[2], v[3]) else hw.BwAt(d, i)
  {
    if t == [] {
    } else {
      RestoreBwEffect(hw, t[..|t| - 1], d, i);
      assert t[|t| - 1] in t;
      ParseShow(d);
      if t[|t| - 1].0 == ShowInt(d) {
        NotFound(t[..|t| - 1], ShowInt(d));
      }
    }
  }

  lemma {:induction false} RestoreFuseEffect(hw: Hardware, t: Dict<seq<int>>, d: int)
    requires Canonical(t) && TupleLengths(t, STATE_FUSE_GBL_LEN)
    ensures RestoreFuse(hw, t).qos == hw.qos && RestoreFuse(hw, t).bw == hw.bw
    ensures Has(t, ShowInt(d)) ==> |Find(t, ShowInt(d)).value| == STATE_FUSE_GBL_LEN
    ensures RestoreFuse(hw, t).FuseAt(d) ==
            if Has(t, ShowInt(d)) then var v := Find(t, ShowInt(d)).value; FuseReg(v[0], v[1], v[2]) else hw.FuseAt(d)
  {
    if t == [] {
    } else {
      RestoreFuseEffect(hw, t[..|t| - 1], d);
      assert t[|t| - 1] in t;
      ParseShow(d);
    }
  }

  lemma {:induction false} RestoreMastersEffect(hw: Hardware, e: int, t: Dict<seq<int>>, d: int, m: int)
    requires Canonical(t) && TupleLengths(t, STATE_QOS_TUPLE_LEN)
    ensures RestoreMasters(hw, e, t).bw == hw.bw && RestoreMasters(hw, e, t).fuse == hw.fuse
    ensures Has(t, ShowInt(m)) ==> |Find(t, ShowInt(m)).value| == STATE_QOS_TUPLE_LEN
    ensures RestoreMasters(hw, e, t).QosAt(d, m) ==
            if d == e && Has(t, ShowInt(m)) then var v := Find(t, ShowInt(m)).value; QosReg(v[1], v[2], v[3], v[4])
            else hw.QosAt(d, m)
  {
    if t == [] {
    } else {
      RestoreMastersEffect(hw, e, t[..|t| - 1], d, m);
      assert t[|t| - 1] in t;
      ParseShow(m);
    }
  }

  lemma {:induction false} RestoreQosEffect(hw: Hardware, t: Dict<Dict<seq<int>>>, d: int, m: int)
    requires Canonical(t) && QosShape(t) && forall i :: 0 <= i < |t| ==> Canonical(t[i].1)
    ensures RestoreQos(hw, t).bw == hw.bw && RestoreQos(hw, t).fuse == hw.fuse
    ensures Has(t, ShowInt(d)) && Has(Find(t, ShowInt(d)).value, ShowInt(m)) ==>
              |Find(Find(t, ShowInt(d)).value, ShowInt(m)).value| == STATE_QOS_TUPLE_LEN
    ensures RestoreQos(hw, t).QosAt(d, m) ==
            if Has(t, ShowInt(d)) && Has(Find(t, ShowInt(d)).value, ShowInt(m))
            then var v := Find(Find(t, ShowInt(d)).value, ShowInt(m)).value; QosReg(v[1], v[2], v[3], v[4])
            else hw.QosAt(d, m)
  {
    if t == [] {
    } else {
      var init, e := t[..|t| - 1], t[|t| - 1];
      RestoreQosEffect(hw, init, d, m);
      assert e in t;
      RestoreMastersEffect(RestoreQos(hw, init), Number(e.0), e.1, d, m);
      ParseShow(d);
      if e.0 == ShowInt(d) {
        NotFound(init, ShowInt(d));
      }
    }
  }

  // Device d's registers after restoring a record of snapshots.
  ghost predicate RestoredTo(before: Hardware, after: Hardware, ok: Getters, snap: map<int, Hardware>, d: int) {
    && (forall m :: after.QosAt(d, m) ==
          if d in snap && IsMaster(m) && (d, m) in ok.qos then snap[d].QosAt(d, m) else before.QosAt(d, m))
    && (forall i :: after.BwAt(d, i) ==
          if d in snap && BwReadable(ok, d) && i == snap[d].QosAt(d, MASTER_ID_SDMA).mpamid then snap[d].BwAt(d, i)
          else before.BwAt(d, i))
    && after.FuseAt(d) == (if d in snap && d in ok.fuse then snap[d].FuseAt(d) else before.FuseAt(d))
  }

  lemma RecordedMaster(hw: Hardware, ok: Getters, d: int, m: int)
    ensures MasterTuples(QosEntry(hw, ok, d).fields).Some?
    ensures Find(MasterTuples(QosEntry(hw, ok, d).fields).value, ShowInt(m)) ==
            if IsMaster(m) && (d, m) in ok.qos then Some(QosTuple(hw, d, m)) else None
  {
    var es := MasterEntries(hw, ok, d, |MASTERS|);
    QosEntryGood(hw, ok, d);
    MastersAccept(es, ShowInt(m));
    MasterEntriesKeys(hw, ok, d, |MASTERS|, ShowInt(m));
    TupleOfInts(QosTuple(hw, d, m));
    KeyOfDevice(m, MasterIds(|MASTERS|));
    assert MasterIds(2) == {11, 12};
    assert MasterIds(4) == {11, 12, 13, 7};
  }

  lemma RecordedQos(hw: Hardware, r: Record, ok: Getters, snap: map<int, Hardware>, d: int, m: int)
    requires Records(r, ok, snap) && QosTuples(r.qos).Some?
    ensures RestoreQos(hw, QosTuples(r.qos).value).QosAt(d, m) ==
            if d in snap && IsMaster(m) && (d, m) in ok.qos then snap[d].QosAt(d, m) else hw.QosAt(d, m)
    ensures RestoreQos(hw, QosTuples(r.qos).value).bw == hw.bw && RestoreQos(hw, QosTuples(r.qos).value).fuse == hw.fuse
  {
    RecordCanonical(r, ok, snap);
    QosAccepts(r.qos, ShowInt(d));
    RestoreQosEffect(hw, QosTuples(r.qos).value, d, m);
    KeyOfDevice(d, snap.Keys);
    assert Find(r.qos, ShowInt(d)) == ExpectedQos(snap, ok, ShowInt(d));
    if d in snap {
      RecordedMaster(snap[d], ok, d, m);
    }
  }

  lemma RecordedBw(hw: Hardware, r: Record, ok: Getters, snap: map<int, Hardware>, d: int, i: int)
    requires Records(r, ok, snap) && FlatTuples(r.bw, STATE_SDMA_MATA_LEN).Some?
    ensures RestoreBw(hw, FlatTuples(r.bw, STATE_SDMA_MATA_LEN).value).BwAt(d, i) ==
            if d in snap && BwReadable(ok, d) && i == snap[d].QosAt(d, MASTER_ID_SDMA).mpamid then snap[d].BwAt(d, i)
            else hw.BwAt(d, i)
    ensures RestoreBw(hw, FlatTuples(r.bw, STATE_SDMA_MATA_LEN).value).qos == hw.qos
    ensures RestoreBw(hw, FlatTuples(r.bw, STATE_SDMA_MATA_LEN).value).fuse == hw.fuse
  {
    RecordCanonical(r, ok, snap);
    FlatAccepts(r.bw, STATE_SDMA_MATA_LEN, ShowInt(d));
    RestoreBwEffect(hw, FlatTuples(r.bw, STATE_SDMA_MATA_LEN).value, d, i);
    KeyOfDevice(d, snap.Keys);
    assert Find(r.bw, ShowInt(d)) == ExpectedBw(snap, ok, ShowInt(d));
    if d in snap {
      TupleOfInts(BwTuple(snap[d], d));
    }
  }

  lemma RecordedFuse(hw: Hardware, r: Record, ok: Getters, snap: map<int, Hardware>, d: int)
    requires Records(r, ok, snap) && FlatTuples(r.fuse, STATE_FUSE_GBL_LEN).Some?
    ensures RestoreFuse(hw, FlatTuples(r.fuse, STATE_FUSE_GBL_LEN).value).FuseAt(d) ==
            if d in snap && d in ok.fuse then snap[d].FuseAt(d) else hw.FuseAt(d)
    ensures RestoreFuse(hw, FlatTuples(r.fuse, STATE_FUSE_GBL_LEN).value).qos == hw.qos
    ensures RestoreFuse(hw, FlatTuples(r.fuse, STATE_FUSE_GBL_LEN).value).bw == hw.bw
  {
    RecordCanonical(r, ok, snap);
    FlatAccepts(r.fuse, STATE_FUSE_GBL_LEN, ShowInt(d));
    RestoreFuseEffect(hw, FlatTuples(r.fuse, STATE_FUSE_GBL_LEN).value, d);
    KeyOfDevice(d, snap.Keys);
    assert Find(r.fuse, ShowInt(d)) == ExpectedFuse(snap, ok, ShowInt(d));
    if d in snap {
      TupleOfInts(FuseTuple(snap[d], d));
    }
  }

  lemma RestoreEffect(hw: Hardware, r: Record, ok: Getters, snap: map<int, Hardware>, v: Validated, d: int, m: int)
    requires Records(r, ok, snap) && v.Shaped() && QosTuples(r.qos) == Some(v.qos)
    requires FlatTuples(r.bw, STATE_SDMA_MATA_LEN) == Some(v.bw)
    requires FlatTuples(r.fuse, STATE_FUSE_GBL_LEN) == Some(v.fuse)
    ensures Restore(hw, v).QosAt(d, m) ==
            if d in snap && IsMaster(m) && (d, m) in ok.qos then snap[d].QosAt(d, m) else hw.QosAt(d, m)
    ensures Restore(hw, v).BwAt(d, m) ==
            if d in snap && BwReadable(ok, d) && m == snap[d].QosAt(d, MASTER_ID_SDMA).mpamid then snap[d].BwAt(d, m)
            else hw.BwAt(d, m)
    ensures Restore(hw, v).FuseAt(d) == (if d in snap && d in ok.fuse then snap[d].FuseAt(d) else hw.FuseAt(d))
  {
    var h1 := RestoreBw(hw, v.bw);
    var h2 := RestoreQos(h1, v.qos);
    RecordedBw(hw, r, ok, snap, d, m);
    RecordedQos(h1, r, ok, snap, d, m);
    RecordedFuse(h2, r, ok, snap, d);
  }

  // Unset writes back, for every recorded device, the registers of its snapshot.
  lemma UnsetRestores(hw: Hardware, r: Record, ok: Getters, snap: map<int, Hardware>, printed: seq<string>, d: int)
    requires Records(r, ok, snap)
    ensures Unset(World(hw, Content(StateJson(r, printed)))).file == NoFile
    ensures RestoredTo(hw, Unset(World(hw, Content(StateJson(r, printed)))).hw, ok, snap, d)
  {
    RecordValidates(r, ok, snap, printed);
    var v := Validate(StateJson(r, printed)).value;
    var h := Restore(hw, v);
    forall m
      ensures h.QosAt(d, m) ==
              if d in snap && IsMaster(m) && (d, m) in ok.qos then snap[d].QosAt(d, m) else hw.QosAt(d, m)
    {
      RestoreEffect(hw, r, ok, snap, v, d, m);
    }
    forall i
      ensures h.BwAt(d, i) ==
              if d in snap && BwReadable(ok, d) && i == snap[d].QosAt(d, MASTER_ID_SDMA).mpamid then snap[d].BwAt(d, i)
              else hw.BwAt(d, i)
    {
      RestoreEffect(hw, r, ok, snap, v, d, i);
    }
    RestoreEffect(hw, r, ok, snap, v, d, 0);
  }

  // ---------- Runs of applies ----------

  ghost function Run(w: World, ok: Getters, qs: seq<Request>): World {
    if qs == [] then w else Apply(Run(w, ok, qs[..|qs| - 1]), ok, qs[|qs| - 1])
  }

  ghost predicate Touched(qs: seq<Request>, d: int) {
    exists i :: 0 <= i < |qs| && d in qs[i].devices
  }

  lemma TouchedStep(qs: seq<Request>, d: int)
    requires qs != []
    ensures Touched(qs, d) <==> Touched(qs[..|qs| - 1], d) || d in qs[|qs| - 1].devices
  {
    var init := qs[..|qs| - 1];
    if Touched(init, d) {
      var i :| 0 <= i < |init| && d in init[i].devices;
      assert qs[i] == init[i];
    }
    if Touched(qs, d) && d !in qs[|qs| - 1].devices {
      var i :| 0 <= i < |qs| && d in qs[i].devices;
      assert init[i] == qs[i];
    }
  }

  // The apply whose start the record holds for device d.
  ghost function SnapIndex(qs: seq<Request>, ok: Getters, d: int): (i: nat)
    requires Touched(qs, d)
    ensures i < |qs| && d in qs[i].devices
    ensures Complete(ok, d) ==> !Touched(qs[..i], d)
    ensures !Complete(ok, d) ==> forall j :: i < j < |qs| ==> d !in qs[j].devices
  {
    var init, last := qs[..|qs| - 1], qs[|qs| - 1];
    TouchedStep(qs, d);
    if d in last.devices && !(Touched(init, d) && Complete(ok, d)) then |qs| - 1
    else
      var i := SnapIndex(init, ok, d);
      assert qs[..i] == init[..i];
      i
  }

  ghost function TouchedDevices(qs: seq<Request>): (s: set<int>)
    ensures forall d :: d in s <==> Touched(qs, d)
  {
    if qs == [] then {}
    else
      assert forall d :: Touched(qs, d) <==> Touched(qs[..|qs| - 1], d) || d in qs[|qs| - 1].devices by {
        forall d { TouchedStep(qs, d); }
      }
      TouchedDevices(qs[..|qs| - 1]) + Devices(qs[|qs| - 1].devices)
  }

  ghost function Snaps(w: World, ok: Getters, qs: seq<Request>): map<int, Hardware> {
    map d | d in TouchedDevices(qs) :: Run(w, ok, qs[..SnapIndex(qs, ok, d)]).hw
  }

  lemma SnapIndexStep(qs: seq<Request>, ok: Getters, d: int)
    requires qs != [] && Touched(qs, d)
    ensures var init, last := qs[..|qs| - 1], qs[|qs| - 1];
            var i := SnapIndex(qs, ok, d);
            if Touched(init, d) && (d !in last.devices || Complete(ok, d))
            then i == SnapIndex(init, ok, d) && qs[..i] == init[..i]
            else d in last.devices && i == |qs| - 1
  {
    TouchedStep(qs, d);
  }

  lemma SnapsStep(w: World, ok: Getters, qs: seq<Request>)
    requires qs != []
    ensures var init := qs[..|qs| - 1];
            Snaps(w, ok, qs) == Resnapped(Snaps(w, ok, init), ok, Run(w, ok, init).hw, qs[|qs| - 1].devices)
  {
    var init, last := qs[..|qs| - 1], qs[|qs| - 1];
    var a, b := Snaps(w, ok, qs), Resnapped(Snaps(w, ok, init), ok, Run(w, ok, init).hw, last.devices);
    forall d
      ensures d in a <==> d in b
      ensures d in a ==> a[d] == b[d]
    {
      TouchedStep(qs, d);
      if Touched(qs, d) {
        SnapIndexStep(qs, ok, d);
      }
    }
  }

  // The state file after any run is a record of the snapshots.
  lemma {:induction false} RunRecords(w: World, ok: Getters, qs: seq<Request>) returns (r: Record)
    requires LoadBaseline(w.file) == Ok(None) && qs != []
    ensures Run(w, ok, qs).file == Content(StateJson(r, qs[|qs| - 1].printed))
    ensures Records(r, ok, Snaps(w, ok, qs))
    ensures Run(w, ok, qs).hw ==
            ApplyDevices(Run(w, ok, qs[..|qs| - 1]).hw, ok, qs[|qs| - 1].devices, LevelsOf(qs[|qs| - 1].priority))
  {
    var init, last := qs[..|qs| - 1], qs[|qs| - 1];
    var hw := Run(w, ok, init).hw;
    SnapsStep(w, ok, qs);
    if init == [] {
      FreshRecords(w.hw, ok, last.devices);
      r := FreshRecord(w.hw, ok, last.devices);
      assert Snaps(w, ok, []) == map[];
    } else {
      var before := RunRecords(w, ok, init);
      StateFields(before, init[|init| - 1].printed);
      MergedRecords(hw, ok, before, Snaps(w, ok, init), last.devices);
      r := MergedRecord(hw, ok, before, last.devices);
    }
  }

  // The levels the last apply that touched d asked for.
  ghost function LastLevels(qs: seq<Request>, d: int): Levels
    requires Touched(qs, d)
  {
    TouchedStep(qs, d);
    if d in qs[|qs| - 1].devices then LevelsOf(qs[|qs| - 1].priority) else LastLevels(qs[..|qs| - 1], d)
  }

  // The registers of d after a run, in terms of the registers before it.
  ghost predicate AppliedBy(before: Hardware, after: Hardware, ok: Getters, qs: seq<Request>, d: int) {
    && (forall m :: after.QosAt(d, m) ==
          if Touched(qs, d) && IsMaster(m) && (d, m) in ok.qos
          then before.QosAt(d, m).(qos := MasterLevel(m, LastLevels(qs, d)))
          else before.QosAt(d, m))
    && (forall i :: after.BwAt(d, i) ==
          if Touched(qs, d) && (d, MASTER_ID_SDMA) in ok.qos && i == before.QosAt(d, MASTER_ID_SDMA).mpamid
          then SDMA_MATA_APPLIED
          else before.BwAt(d, i))
    && after.FuseAt(d) == (if Touched(qs, d) then FUSE_APPLIED else before.FuseAt(d))
  }

  lemma {:induction false} RunEffect(w: World, ok: Getters, qs: seq<Request>, d: int)
    requires LoadBaseline(w.file) == Ok(None)
    ensures AppliedBy(w.hw, Run(w, ok, qs).hw, ok, qs, d)
  {
    if qs == [] {
    } else {
      var init, last := qs[..|qs| - 1], qs[|qs| - 1];
      RunEffect(w, ok, init, d);
      var r := RunRecords(w, ok, qs);
      ApplyDevicesEffect(Run(w, ok, init).hw, ok, last.devices, LevelsOf(last.priority), d);
      TouchedStep(qs, d);
    }
  }

  // Request i is the last one of the run that lists d.
  ghost predicate LastTouch(qs: seq<Request>, d: int, i: nat) {
    i < |qs| && d in qs[i].devices && forall j :: i < j < |qs| ==> d !in qs[j].devices
  }

  lemma {:induction false} LastLevelsAt(qs: seq<Request>, d: int, i: nat)
    requires LastTouch(qs, d, i)
    ensures Touched(qs, d) && LastLevels(qs, d) == LevelsOf(qs[i].priority)
  {
    TouchedStep(qs, d);
    if i == |qs| - 1 {
    } else {
      LastLevelsAt(qs[..|qs| - 1], d, i);
    }
  }

  // The registers of a device after any run, from the priority of the last request that lists it: for each
  // master whose getter works the level of its kind, the rest of the register as it was before the run; the
  // SDMA bandwidth and the fuse settings as the tool sets them.
  lemma RunSetsPriority(w: World, ok: Getters, qs: seq<Request>, d: int, i: nat)
    requires LoadBaseline(w.file) == Ok(None) && LastTouch(qs, d, i)
    ensures var p, h := qs[i].priority, Run(w, ok, qs).hw;
            && (forall m :: m in {11, 12} && (d, m) in ok.qos ==>
                  h.QosAt(d, m) == w.hw.QosAt(d, m).(qos := Lower(p.aivD2d, p.aivH2d, 1, 3, 5)))
            && ((d, 13) in ok.qos ==>
                  && h.QosAt(d, 13) == w.hw.QosAt(d, 13).(qos := Lower(p.sdmaD2d, p.sdmaH2d, 2, 4, 6))
                  && h.BwAt(d, w.hw.QosAt(d, 13).mpamid) == BwReg(0, 1, 0))
            && ((d, 7) in ok.qos ==>
                  h.QosAt(d, 7) == w.hw.QosAt(d, 7).(qos := if p.pcieH2d == PcieHigh then 7 else 0))
            && h.FuseAt(d) == FuseReg(1, 1, 1)
  {
    LastLevelsAt(qs, d, i);
    LevelsAreLowest(qs[i].priority);
    RunEffect(w, ok, qs, d);
  }

  // ---------- Main results ----------

  ghost predicate SameRegisters(a: Hardware, b: Hardware, d: int) {
    && (forall m :: a.QosAt(d, m) == b.QosAt(d, m))
    && (forall i :: a.BwAt(d, i) == b.BwAt(d, i))
    && a.FuseAt(d) == b.FuseAt(d)
  }

  // After any run of applies, unset puts back every register of a device whose bandwidth and fuse
  // getters work, and of a device the run never touched; the state file is gone.
  lemma ApplyThenUnset(w: World, ok: Getters, qs: seq<Request>, d: int)
    requires LoadBaseline(w.file) == Ok(None)
    requires Touched(qs, d) ==> Complete(ok, d)
    ensures SameRegisters(Unset(Run(w, ok, qs)).hw, w.hw, d)
    ensures qs != [] ==> Unset(Run(w, ok, qs)).file == NoFile && Validate(Run(w, ok, qs).file.data).Some?
  {
    RunEffect(w, ok, qs, d);
    if qs == [] {
      NothingRecorded(w);
    } else {
      var r := RunRecords(w, ok, qs);
      var snap := Snaps(w, ok, qs);
      RecordValidates(r, ok, snap, qs[|qs| - 1].printed);
      UnsetRestores(Run(w, ok, qs).hw, r, ok, snap, qs[|qs| - 1].printed, d);
      if Touched(qs, d) {
        RunEffect(w, ok, qs[..SnapIndex(qs, ok, d)], d);
      }
    }
  }

  // A file that gives no baseline gives unset nothing to restore either.
  lemma NothingRecorded(w: World)
    requires LoadBaseline(w.file) == Ok(None)
    ensures Unset(w).hw == w.hw
  {
  }

  // Exactly when unset restores a touched device, whatever getters work. Without a complete record
  // each apply captures the device anew, so unset goes back only to the start of the last one, and a
  // register whose getter fails is overwritten without being saved.
  lemma RestoredExactlyWhen(w: World, ok: Getters, qs: seq<Request>, d: int)
    requires LoadBaseline(w.file) == Ok(None) && Touched(qs, d)
    ensures var earlier := qs[..SnapIndex(qs, ok, d)];
            var again := Touched(earlier, d);
            SameRegisters(Unset(Run(w, ok, qs)).hw, w.hw, d) <==>
              && (forall m :: again && IsMaster(m) && (d, m) in ok.qos ==>
                    MasterLevel(m, LastLevels(earlier, d)) == w.hw.QosAt(d, m).qos)
              && ((d, MASTER_ID_SDMA) in ok.qos && (d !in ok.bw || again) ==>
                    w.hw.BwAt(d, w.hw.QosAt(d, MASTER_ID_SDMA).mpamid) == SDMA_MATA_APPLIED)
              && (d !in ok.fuse || again ==> w.hw.FuseAt(d) == FUSE_APPLIED)
  {
    var r := RunRecords(w, ok, qs);
    UnsetRestores(Run(w, ok, qs).hw, r, ok, Snaps(w, ok, qs), qs[|qs| - 1].printed, d);
    RunEffect(w, ok, qs, d);
    RunEffect(w, ok, qs[..SnapIndex(qs, ok, d)], d);
    RegistersBack(w.hw, Run(w, ok, qs).hw, Unset(Run(w, ok, qs)).hw, ok, qs, SnapIndex(qs, ok, d), Snaps(w, ok, qs), d);
  }

  lemma QosBack(start: Hardware, end: Hardware, after: Hardware, ok: Getters, qs: seq<Request>, i: nat,
                snap: map<int, Hardware>, d: int, m: int)
    requires i <= |qs| && Touched(qs, d) && d in snap
    requires AppliedBy(start, end, ok, qs, d) && AppliedBy(start, snap[d], ok, qs[..i], d)
    requires RestoredTo(end, after, ok, snap, d)
    ensures after.QosAt(d, m) == start.QosAt(d, m) <==>
            (Touched(qs[..i], d) && IsMaster(m) && (d, m) in ok.qos ==>
               MasterLevel(m, LastLevels(qs[..i], d)) == start.QosAt(d, m).qos)
  {
    assert after.QosAt(d, m) == if IsMaster(m) && (d, m) in ok.qos then snap[d].QosAt(d, m) else end.QosAt(d, m);
  }

  lemma BwBack(start: Hardware, end: Hardware, after: Hardware, ok: Getters, qs: seq<Request>, i: nat,
               snap: map<int, Hardware>, d: int, j: int)
    requires i <= |qs| && Touched(qs, d) && d in snap
    requires AppliedBy(start, end, ok, qs, d) && AppliedBy(start, snap[d], ok, qs[..i], d)
    requires RestoredTo(end, after, ok, snap, d)
    ensures after.BwAt(d, j) == start.BwAt(d, j) <==>
            (&& j == start.QosAt(d, MASTER_ID_SDMA).mpamid && (d, MASTER_ID_SDMA) in ok.qos
             && (d !in ok.bw || Touched(qs[..i], d)) ==>
               start.BwAt(d, j) == SDMA_MATA_APPLIED)
  {
    var p := start.QosAt(d, MASTER_ID_SDMA).mpamid;
    assert snap[d].QosAt(d, MASTER_ID_SDMA).mpamid == p;
    assert after.BwAt(d, j) == if BwReadable(ok, d) && j == p then snap[d].BwAt(d, j) else end.BwAt(d, j);
  }

  lemma RegistersBack(start: Hardware, end: Hardware, after: Hardware, ok: Getters, qs: seq<Request>, i: nat,
                      snap: map<int, Hardware>, d: int)
    requires i <= |qs| && Touched(qs, d) && d in snap
    requires AppliedBy(start, end, ok, qs, d) && AppliedBy(start, snap[d], ok, qs[..i], d)
    requires RestoredTo(end, after, ok, snap, d)
    ensures (forall m :: after.QosAt(d, m) == start.QosAt(d, m)) <==>
            forall m :: Touched(qs[..i], d) && IsMaster(m) && (d, m) in ok.qos ==>
              MasterLevel(m, LastLevels(qs[..i], d)) == start.QosAt(d, m).qos
    ensures (forall j :: after.BwAt(d, j) == start.BwAt(d, j)) <==>
            ((d, MASTER_ID_SDMA) in ok.qos && (d !in ok.bw || Touched(qs[..i], d)) ==>
               start.BwAt(d, start.QosAt(d, MASTER_ID_SDMA).mpamid) == SDMA_MATA_APPLIED)
    ensures after.FuseAt(d) == start.FuseAt(d) <==>
            (d !in ok.fuse || Touched(qs[..i], d) ==> start.FuseAt(d) == FUSE_APPLIED)
  {
    forall m
      ensures after.QosAt(d, m) == start.QosAt(d, m) <==>
              (Touched(qs[..i], d) && IsMaster(m) && (d, m) in ok.qos ==>
                 MasterLevel(m, LastLevels(qs[..i], d)) == start.QosAt(d, m).qos)
    {
      QosBack(start, end, after, ok, qs, i, snap, d, m);
    }
    forall j
      ensures after.BwAt(d, j) == start.BwAt(d, j) <==>
              (&& j == start.QosAt(d, MASTER_ID_SDMA).mpamid && (d, MASTER_ID_SDMA) in ok.qos
               && (d !in ok.bw || Touched(qs[..i], d)) ==>
                 start.BwAt(d, j) == SDMA_MATA_APPLIED)
    {
      BwBack(start, end, after, ok, qs, i, snap, d, j);
    }
  }

  // A concrete run whose QoS level is not put back: the bandwidth getter of device 0 fails.
  lemma SecondApplyForgets()
    ensures var w := World(Hardware(map[], map[], map[]), NoFile);
            var ok := Getters({(0, 11), (0, 12), (0, 13), (0, 7)}, {}, {0});
            var q := Request([0], Priority(High, High, High, Low, PcieHigh), []);
            Unset(Run(w, ok, [q, q])).hw.QosAt(0, 11) == QosReg(0, 5, 0, 0) != w.hw.QosAt(0, 11)
  {
    var w := World(Hardware(map[], map[], map[]), NoFile);
    var ok := Getters({(0, 11), (0, 12), (0, 13), (0, 7)}, {}, {0});
    var q := Request([0], Priority(High, High, High, Low, PcieHigh), []);
    var qs := [q, q];
    assert 0 in qs[1].devices && 0 in qs[0].devices;
    assert SnapIndex(qs, ok, 0) == 1;
    assert qs[..1] == [q];
    assert [q][0] == q;
    RunEffect(w, ok, [q], 0);
    var r := RunRecords(w, ok, qs);
    UnsetRestores(Run(w, ok, qs).hw, r, ok, Snaps(w, ok, qs), [], 0);
  }
}
