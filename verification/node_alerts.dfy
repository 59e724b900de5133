/** Alerts are exactly the rising edges along the record-setting datagrams. */
module NodeAlerts {
  import opened Prelude
  import opened NodeRecord
  import opened NodeHistory
  import opened TruthfulSession

  predicate DistinctNames(values: seq<Measurement>) {
    forall i, j | 0 <= i < j < |values| :: values[i].name != values[j].name
  }

  /** A variable that is absent is not anomalous. */
  predicate Anomalous(values: seq<Measurement>, name: string) {
    exists m | m in values :: m.name == name && IsAnomalous(m)
  }

  ghost function Reading(values: seq<Measurement>, name: string): Measurement
    requires Anomalous(values, name)
  {
    var m :| m in values && m.name == name && IsAnomalous(m);
    m
  }

  /** One alert per transition of `name` from absent or normal to anomalous. */
  ghost function RisingEdges(id: string, name: string, rs: seq<Datagram>): seq<Alert> {
    if rs == [] then []
    else
      var now := rs[|rs| - 1].values;
      var previous := if |rs| == 1 then [] else rs[|rs| - 2].values;
      RisingEdges(id, name, rs[..|rs| - 1]) +
      if Anomalous(now, name) && !Anomalous(previous, name) then [AlertFor(id, Reading(now, name))] else []
  }

  /** Every alert the node raises while it handles `ms`. */
  ghost function AlertHistory(e: Entry, ms: seq<Message>): seq<Alert> {
    if ms == [] then []
    else AlertHistory(e, ms[..|ms| - 1]) + AlertsOf(NodeRun(e, ms[..|ms| - 1]), ms[|ms| - 1])
  }

  ghost function OfKind(alerts: seq<Alert>, kind: string): seq<Alert> {
    if alerts == [] then []
    else
      var a := alerts[|alerts| - 1];
      OfKind(alerts[..|alerts| - 1], kind) + if a.kind == kind then [a] else []
  }

  lemma {:induction false} OfKindConcat(a: seq<Alert>, b: seq<Alert>, kind: string)
    ensures OfKind(a + b, kind) == OfKind(a, kind) + OfKind(b, kind)
  {
    if b == [] {
      assert a + b == a;
    } else {
      assert (a + b)[..|a + b| - 1] == a + b[..|b| - 1];
      OfKindConcat(a, b[..|b| - 1], kind);
    }
  }

  lemma {:induction false} KindIsInjective(a: string, b: string)
    ensures Kind(a) == Kind(b) ==> a == b
  {
    if Kind(a) == Kind(b) {
      assert Kind(a)[|Kind(a)| - 1] == if a == "STATUS" then 'L' else 'H';
      assert Kind(b)[|Kind(b)| - 1] == if b == "STATUS" then 'L' else 'H';
      if a != "STATUS" {
        assert Kind(a)[..|a|] == a && Kind(b)[..|b|] == b;
      }
    }
  }

  lemma {:induction false} WasAnomalousMeans(stored: seq<Measurement>, name: string)
    requires DistinctNames(stored)
    ensures WasAnomalous(stored, name) <==> Anomalous(stored, name)
  {
    if stored != [] {
      WasAnomalousMeans(stored[1..], name);
      if stored[0].name == name {
        assert forall m | m in stored[1..] :: m.name != name;
      }
      assert forall m :: m in stored <==> m == stored[0] || m in stored[1..];
    }
  }

  lemma {:induction false} ReadingIsUnique(values: seq<Measurement>, m: Measurement)
    requires DistinctNames(values) && m in values && IsAnomalous(m)
    ensures Anomalous(values, m.name) && Reading(values, m.name) == m
  {
  }

  lemma {:induction false} AnomalousSnoc(before: seq<Measurement>, m: Measurement, name: string)
    requires DistinctNames(before + [m])
    ensures Anomalous(before + [m], name) <==> if m.name == name then IsAnomalous(m) else Anomalous(before, name)
  {
    assert forall x :: x in before + [m] <==> x in before || x == m;
    assert forall i | 0 <= i < |before| :: (before + [m])[i] == before[i];
    assert (before + [m])[|before|] == m;
  }

  lemma {:induction false} ReadingSnoc(before: seq<Measurement>, m: Measurement, name: string)
    requires DistinctNames(before + [m]) && Anomalous(before + [m], name)
    ensures if m.name == name then Reading(before + [m], name) == m
            else Anomalous(before, name) && Reading(before + [m], name) == Reading(before, name)
  {
    AnomalousSnoc(before, m, name);
    var values := before + [m];
    if m.name == name {
      assert m in values;
      ReadingIsUnique(values, m);
    } else {
      var x := Reading(before, name);
      assert x in values;
      ReadingIsUnique(values, x);
    }
  }

  lemma {:induction false} OneDatagramsAlerts(id: string, stored: seq<Measurement>, values: seq<Measurement>,
                                              name: string)
    requires DistinctNames(values)
    ensures OfKind(NewAlerts(id, stored, values), Kind(name)) ==
            if Anomalous(values, name) && !WasAnomalous(stored, name) then [AlertFor(id, Reading(values, name))] else []
  {
    if values != [] {
      var before, m := values[..|values| - 1], values[|values| - 1];
      assert values == before + [m];
      OneDatagramsAlerts(id, stored, before, name);
      AnomalousSnoc(before, m, name);
      AnomalousSnoc(before, m, m.name);
      if Anomalous(values, name) {
        ReadingSnoc(before, m, name);
      }
      KindIsInjective(m.name, name);
      var last := if IsAnomalous(m) && !WasAnomalous(stored, m.name) then [AlertFor(id, m)] else [];
      OfKindConcat(NewAlerts(id, stored, before), last, Kind(name));
      assert OfKind(last, Kind(name)) == if m.name == name then last else [];
      if m.name == name {
        assert !Anomalous(before, name);
      }
    }
  }

  lemma {:induction false} StoredAreDistinct(id: string, session: string, ms: seq<Message>)
    requires forall d | Data(d) in ms :: DistinctNames(d.values)
    ensures DistinctNames(NodeRun(Fresh(id, session), ms).rec.stored)
  {
    if ms != [] {
      StoredAreDistinct(id, session, ms[..|ms| - 1]);
      assert ms[|ms| - 1] in ms;
    }
  }

  lemma {:induction false} RisingEdgesSnoc(id: string, name: string, rs: seq<Datagram>, d: Datagram)
    ensures RisingEdges(id, name, rs + [d]) ==
            RisingEdges(id, name, rs) +
            if Anomalous(d.values, name) && !Anomalous(if rs == [] then [] else rs[|rs| - 1].values, name)
            then [AlertFor(id, Reading(d.values, name))] else []
  {
    assert (rs + [d])[..|rs + [d]| - 1] == rs;
  }

  lemma {:induction false} RecordRaises(id: string, name: string, rs: seq<Datagram>, d: Datagram,
                                        stored: seq<Measurement>)
    requires stored == if rs == [] then [] else rs[|rs| - 1].values
    requires DistinctNames(stored) && DistinctNames(d.values)
    ensures RisingEdges(id, name, rs + [d]) ==
            RisingEdges(id, name, rs) + OfKind(NewAlerts(id, stored, d.values), Kind(name))
  {
    RisingEdgesSnoc(id, name, rs, d);
    OneDatagramsAlerts(id, stored, d.values, name);
    WasAnomalousMeans(stored, name);
  }

  lemma {:induction false} AlertStep(e: Entry, ds: seq<Datagram>, d: Datagram, name: string)
    requires e.rec.last == Peak(ds) && e.seen == Arrived(ds) && e.rec.stored == LatestValues(ds)
    requires !PastSeal(e.rec, d.sequence)
    requires DistinctNames(e.rec.stored) && DistinctNames(d.values)
    ensures RisingEdges(e.rec.id, name, Records(ds + [d])) ==
            RisingEdges(e.rec.id, name, Records(ds)) + OfKind(AlertsOf(e, Data(d)), Kind(name))
  {
    var rs, after := Records(ds), Records(ds + [d]);
    assert after == rs + if d.sequence > Peak(ds) then [d] else [] by {
      RecordsSnoc(ds, d);
    }
    assert SetsRecord(e, d.sequence) <==> d.sequence > Peak(ds);
    if d.sequence > Peak(ds) {
      RecordRaises(e.rec.id, name, rs, d, e.rec.stored);
    } else {
      assert after == rs;
    }
  }

  /** Over every run, the alerts of one variable are its rising edges along the
      record-setting datagrams; duplicates and late packets play no part. */
  lemma {:induction false} AlertsAreRisingEdges(id: string, session: string, ms: seq<Message>, name: string)
    requires forall d | Data(d) in ms :: DistinctNames(d.values)
    ensures OfKind(AlertHistory(Fresh(id, session), ms), Kind(name)) ==
            RisingEdges(id, name, Records(Delivered(Fresh(id, session), ms)))
  {
    var e0 := Fresh(id, session);
    if ms != [] {
      var before, m := ms[..|ms| - 1], ms[|ms| - 1];
      assert m in ms;
      AlertsAreRisingEdges(id, session, before, name);
      var e, ds := NodeRun(e0, before), Delivered(e0, before);
      OfKindConcat(AlertHistory(e0, before), AlertsOf(e, m), Kind(name));
      RecordMeansHistory(id, session, before);
      StoredAreDistinct(id, session, before);
      if m.Data? && !PastSeal(e.rec, m.datagram.sequence) {
        AlertStep(e, ds, m.datagram, name);
      } else {
        assert Delivered(e0, ms) == ds && AlertsOf(e, m) == [];
      }
    }
  }

  lemma {:induction false} SameRecordsSnoc(u: seq<Datagram>, w: seq<Datagram>, d: Datagram)
    requires Records(u) == Records(w) && Peak(u) == Peak(w)
    ensures Records(u + [d]) == Records(w + [d]) && Peak(u + [d]) == Peak(w + [d])
  {
    RecordsSnoc(u, d);
    RecordsSnoc(w, d);
    PeakSnoc(u, d);
    PeakSnoc(w, d);
  }

  /** A duplicate or late datagram may be inserted anywhere without changing the records,
      hence neither the alerts nor the stored measurements. */
  lemma {:induction false} LateInsertionIsInvisible(a: seq<Datagram>, d: Datagram, b: seq<Datagram>)
    requires d.sequence <= Peak(a)
    ensures Records(a + [d] + b) == Records(a + b) && Peak(a + [d] + b) == Peak(a + b)
  {
    if b == [] {
      RecordsSnoc(a, d);
      PeakSnoc(a, d);
      assert a + [d] + b == a + [d] && a + b == a;
    } else {
      var c, x := b[..|b| - 1], b[|b| - 1];
      LateInsertionIsInvisible(a, d, c);
      SameRecordsSnoc(a + [d] + c, a + c, x);
      SnocConcat(a + [d], b);
      SnocConcat(a, b);
    }
  }

  /** All alerts of a node, from its record-setting datagrams alone. */
  ghost function RecordAlerts(id: string, rs: seq<Datagram>): seq<Alert> {
    if rs == [] then []
    else
      var before := rs[..|rs| - 1];
      RecordAlerts(id, before) +
      NewAlerts(id, if before == [] then [] else before[|before| - 1].values, rs[|rs| - 1].values)
  }

  lemma {:induction false} RecordAlertsSnoc(id: string, rs: seq<Datagram>, d: Datagram)
    ensures RecordAlerts(id, rs + [d]) ==
            RecordAlerts(id, rs) + NewAlerts(id, if rs == [] then [] else rs[|rs| - 1].values, d.values)
  {
    SnocInit(rs, d);
  }

  lemma {:induction false} RecordAlertsStep(e: Entry, ds: seq<Datagram>, d: Datagram)
    requires e.rec.last == Peak(ds) && e.seen == Arrived(ds) && e.rec.stored == LatestValues(ds)
    requires !PastSeal(e.rec, d.sequence)
    ensures RecordAlerts(e.rec.id, Records(ds + [d])) == RecordAlerts(e.rec.id, Records(ds)) + AlertsOf(e, Data(d))
  {
    var rs, after := Records(ds), Records(ds + [d]);
    assert after == rs + if d.sequence > Peak(ds) then [d] else [] by {
      RecordsSnoc(ds, d);
    }
    assert SetsRecord(e, d.sequence) <==> d.sequence > Peak(ds);
    if d.sequence > Peak(ds) {
      RecordAlertsSnoc(e.rec.id, rs, d);
    } else {
      assert after == rs;
    }
  }

  lemma {:induction false} AlertsComeFromRecords(id: string, session: string, ms: seq<Message>)
    ensures AlertHistory(Fresh(id, session), ms) == RecordAlerts(id, Records(Delivered(Fresh(id, session), ms)))
  {
    var e0 := Fresh(id, session);
    if ms != [] {
      var before, m := ms[..|ms| - 1], ms[|ms| - 1];
      AlertsComeFromRecords(id, session, before);
      RecordMeansHistory(id, session, before);
      var e, ds := NodeRun(e0, before), Delivered(e0, before);
      if m.Data? && !PastSeal(e.rec, m.datagram.sequence) {
        RecordAlertsStep(e, ds, m.datagram);
      } else {
        assert Delivered(e0, ms) == ds && AlertsOf(e, m) == [];
      }
    }
  }

  lemma {:induction false} DatagramsConcat(a: seq<Message>, b: seq<Message>)
    ensures Datagrams(a + b) == Datagrams(a) + Datagrams(b)
  {
    if b == [] {
      assert a + b == a;
    } else {
      SnocConcat(a, b);
      SnocInit(a + b[..|b| - 1], b[|b| - 1]);
      DatagramsConcat(a, b[..|b| - 1]);
    }
  }

  lemma {:induction false} DatagramsAround(a: seq<Message>, d: Datagram, b: seq<Message>)
    ensures Datagrams(a + [Data(d)] + b) == Datagrams(a) + [d] + Datagrams(b)
    ensures Datagrams(a + b) == Datagrams(a) + Datagrams(b)
  {
    DatagramsConcat(a, b);
    DatagramsConcat(a + [Data(d)], b);
    SnocInit(a, Data(d));
  }

  /** A run of an honest session in which one more datagram arrives, a duplicate or one
      below the current maximum, among reports and datagrams in any order: it raises the
      same alerts and ends with the same measurements. */
  lemma {:induction false} LateArrivalChangesNoAlert(log: seq<Attempt>, id: string, session: string,
                                                     a: seq<Message>, d: Datagram, b: seq<Message>)
    requires AllTruthful(log, a + b) && Truthful(log, Data(d))
    requires d.sequence <= NodeRun(Fresh(id, session), a).rec.last
    ensures var e0 := Fresh(id, session);
            && AlertHistory(e0, a + [Data(d)] + b) == AlertHistory(e0, a + b)
            && NodeRun(e0, a + [Data(d)] + b).rec.stored == NodeRun(e0, a + b).rec.stored
            && NodeRun(e0, a + [Data(d)] + b).rec.last == NodeRun(e0, a + b).rec.last
  {
    var ms, ns := a + [Data(d)] + b, a + b;
    assert forall m | m in ms :: m in ns || m == Data(d);
    assert forall m | m in a :: m in ns;
    AllDelivered(log, id, session, ms);
    AllDelivered(log, id, session, ns);
    AllDelivered(log, id, session, a);
    RecordMeansHistory(id, session, a);
    RecordMeansHistory(id, session, ms);
    RecordMeansHistory(id, session, ns);
    DatagramsAround(a, d, b);
    LateInsertionIsInvisible(Datagrams(a), d, Datagrams(b));
    AlertsComeFromRecords(id, session, ms);
    AlertsComeFromRecords(id, session, ns);
  }
}
