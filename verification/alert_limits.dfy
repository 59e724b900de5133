/** Which readings raise which alerts, with the limits of server/config.h written out. */
module AlertLimits {
  import opened Prelude
  import opened NodeRecord
  import opened NodeHistory
  import opened NodeAlerts
  import opened RegistrySpec
  import opened RegistryLaws

  /** The variables with an upper limit. */
  predicate IsLimit(name: string, limit: real) {
    || (name == "TEMP" && limit == 40.0)
    || (name == "HUM" && limit == 85.0)
    || (name == "POWER" && limit == 500.0)
    || (name == "VIB" && limit == 7.0)
  }

  lemma {:induction false} LimitMeans(name: string, limit: real, v: real)
    requires IsLimit(name, limit)
    ensures IsAnomalous(Measurement(name, v)) <==> v > limit
    ensures Kind(name) == name + "_HIGH" && AlertFor("", Measurement(name, v)).value == v
  {
  }

  // One datagram after another

  lemma {:induction false} OneValue(id: string, stored: seq<Measurement>, m: Measurement)
    requires |stored| <= 1 && forall s | s in stored :: s.name == m.name
    ensures NewAlerts(id, stored, [m]) ==
            if IsAnomalous(m) && (stored == [] || !IsAnomalous(stored[0])) then [AlertFor(id, m)] else []
  {
    NewAlertsOfOne(id, stored, m);
    if stored != [] {
      assert stored[0] in stored && stored[1..] == [];
    }
  }

  lemma {:induction false} NewAlertsOfOne(id: string, stored: seq<Measurement>, m: Measurement)
    ensures NewAlerts(id, stored, [m]) == AlertIfNew(id, stored, m)
  {
    assert [m][..|[m]| - 1] == [];
    assert NewAlerts(id, stored, []) == [];
  }

  /** A reading raises NAME_HIGH exactly when it is above the limit and the one stored
      before was not, or there was none. */
  lemma {:induction false} CrossingRaises(id: string, name: string, limit: real, before: Option<real>, v: real)
    requires IsLimit(name, limit)
    ensures var stored := if before.Some? then [Measurement(name, before.value)] else [];
            NewAlerts(id, stored, [Measurement(name, v)]) ==
            if v > limit && (before.Some? ==> before.value <= limit) then [Alert(id, name + "_HIGH", v)] else []
  {
    OneValue(id, if before.Some? then [Measurement(name, before.value)] else [], Measurement(name, v));
    LimitMeans(name, limit, v);
    if before.Some? {
      LimitMeans(name, limit, before.value);
    }
  }

  /** STATUS raises STATUS_FAIL exactly when it fails and did not fail before. */
  lemma {:induction false} FailureRaises(id: string, before: Option<real>, v: real)
    ensures var stored := if before.Some? then [Measurement("STATUS", before.value)] else [];
            NewAlerts(id, stored, [Measurement("STATUS", v)]) ==
            if v == 0.0 && before != Some(0.0) then [Alert(id, "STATUS_FAIL", 0.0)] else []
  {
    OneValue(id, if before.Some? then [Measurement("STATUS", before.value)] else [], Measurement("STATUS", v));
  }

  lemma {:induction false} NothingElseRaises(m: Measurement)
    ensures IsAnomalous(m) ==> m.name in {"TEMP", "HUM", "POWER", "VIB", "STATUS"}
  {
  }

  // Whole runs

  /** The value of that name, if there is one. */
  function Valued(values: seq<Measurement>, name: string): Option<real> {
    if values == [] then None
    else if values[0].name == name then Some(values[0].value)
    else Valued(values[1..], name)
  }

  predicate Above(x: Option<real>, limit: real) {
    x.Some? && x.value > limit
  }

  function PreviousValue(rs: seq<Datagram>, name: string): Option<real> {
    if |rs| < 2 then None else Valued(rs[|rs| - 2].values, name)
  }

  /** One alert for each reading above the limit whose predecessor was not. */
  function HighEdges(id: string, name: string, limit: real, rs: seq<Datagram>): seq<Alert> {
    if rs == [] then []
    else
      var now := Valued(rs[|rs| - 1].values, name);
      HighEdges(id, name, limit, rs[..|rs| - 1]) +
      if Above(now, limit) && !Above(PreviousValue(rs, name), limit)
      then [Alert(id, name + "_HIGH", now.value)] else []
  }

  /** One alert for each failure whose predecessor was none. */
  function FailEdges(id: string, rs: seq<Datagram>): seq<Alert> {
    if rs == [] then []
    else
      FailEdges(id, rs[..|rs| - 1]) +
      if Valued(rs[|rs| - 1].values, "STATUS") == Some(0.0) && PreviousValue(rs, "STATUS") != Some(0.0)
      then [Alert(id, "STATUS_FAIL", 0.0)] else []
  }

  lemma {:induction false} ValuedIs(values: seq<Measurement>, m: Measurement)
    requires DistinctNames(values) && m in values
    ensures Valued(values, m.name) == Some(m.value)
  {
    if values[0] != m {
      assert forall i | 0 <= i < |values[1..]| :: values[1..][i] == values[i + 1];
      ValuedIs(values[1..], m);
      var k :| 0 <= k < |values| && values[k] == m;
      assert values[0].name != values[k].name;
    }
  }

  lemma {:induction false} ValuedComesFrom(values: seq<Measurement>, name: string)
    ensures Valued(values, name).Some? ==> Measurement(name, Valued(values, name).value) in values
  {
    if values != [] && values[0].name != name {
      ValuedComesFrom(values[1..], name);
    }
  }

  /** Anomalous in terms of the one value of that name. */
  lemma {:induction false} AnomalousMeansValue(values: seq<Measurement>, name: string)
    requires DistinctNames(values)
    ensures var x := Valued(values, name);
            && (Anomalous(values, name) <==> x.Some? && IsAnomalous(Measurement(name, x.value)))
            && (Anomalous(values, name) ==> Reading(values, name) == Measurement(name, x.value))
  {
    ValuedComesFrom(values, name);
    forall m | m in values && m.name == name
      ensures Valued(values, name) == Some(m.value)
    {
      ValuedIs(values, m);
    }
  }

  lemma {:induction false} LastEdge(id: string, name: string, rs: seq<Datagram>)
    requires rs != [] && forall d | d in rs :: DistinctNames(d.values)
    ensures var now, before := Valued(rs[|rs| - 1].values, name), PreviousValue(rs, name);
            RisingEdges(id, name, rs) ==
            RisingEdges(id, name, rs[..|rs| - 1]) +
            if now.Some? && IsAnomalous(Measurement(name, now.value)) &&
               !(before.Some? && IsAnomalous(Measurement(name, before.value)))
            then [AlertFor(id, Measurement(name, now.value))] else []
  {
    assert rs[|rs| - 1] in rs;
    AnomalousMeansValue(rs[|rs| - 1].values, name);
    if |rs| >= 2 {
      assert rs[|rs| - 2] in rs;
      AnomalousMeansValue(rs[|rs| - 2].values, name);
    } else {
      AnomalousMeansValue([], name);
    }
  }

  lemma {:induction false} RisingAboveLimit(id: string, name: string, limit: real, rs: seq<Datagram>)
    requires IsLimit(name, limit) && forall d | d in rs :: DistinctNames(d.values)
    ensures RisingEdges(id, name, rs) == HighEdges(id, name, limit, rs)
  {
    if rs != [] {
      RisingAboveLimit(id, name, limit, rs[..|rs| - 1]);
      LastEdge(id, name, rs);
      forall v: real
        ensures IsAnomalous(Measurement(name, v)) <==> v > limit
      {
        LimitMeans(name, limit, v);
      }
      LimitMeans(name, limit, 0.0);
    }
  }

  lemma {:induction false} RisingToFailure(id: string, rs: seq<Datagram>)
    requires forall d | d in rs :: DistinctNames(d.values)
    ensures RisingEdges(id, "STATUS", rs) == FailEdges(id, rs)
  {
    if rs != [] {
      RisingToFailure(id, rs[..|rs| - 1]);
      LastEdge(id, "STATUS", rs);
    }
  }

  lemma {:induction false} DeliveredComesFrom(e: Entry, ms: seq<Message>)
    ensures forall d | d in Delivered(e, ms) :: Data(d) in ms
  {
    if ms != [] {
      DeliveredComesFrom(e, ms[..|ms| - 1]);
      assert forall m | m in ms[..|ms| - 1] :: m in ms;
    }
  }

  lemma {:induction false} RecordsComeFrom(ds: seq<Datagram>)
    ensures forall d | d in Records(ds) :: d in ds
  {
    if ds != [] {
      RecordsComeFrom(ds[..|ds| - 1]);
      assert forall d | d in ds[..|ds| - 1] :: d in ds;
    }
  }

  /** In every run whose datagrams name each variable at most once, the alerts of a node are
      exactly the readings that rose above 40, 85, 500 and 7, and the failures, along its
      record-setting datagrams. */
  lemma {:induction false} AlertsCrossLimits(ops: seq<Op>, id: string, name: string, limit: real)
    requires Lookup(Run(EMPTY, ops), id).Some? && IsLimit(name, limit)
    requires forall op | op in ops && op.Telemetry? :: DistinctNames(op.values)
    ensures var s := Run(EMPTY, ops);
            var rs := Records(Delivered(Fresh(id, SessionOf(s, id)), Messages(ops, id)));
            && OfKind(ByNode(s.alerts, id), name + "_HIGH") == HighEdges(id, name, limit, rs)
            && OfKind(ByNode(s.alerts, id), "STATUS_FAIL") == FailEdges(id, rs)
  {
    var s := Run(EMPTY, ops);
    var ds := Delivered(Fresh(id, SessionOf(s, id)), Messages(ops, id));
    MessagesComeFromOps(ops, id);
    DeliveredComesFrom(Fresh(id, SessionOf(s, id)), Messages(ops, id));
    RecordsComeFrom(ds);
    LimitMeans(name, limit, 0.0);
    AlertHistoryIsRisingEdges(ops, id, name);
    AlertHistoryIsRisingEdges(ops, id, "STATUS");
    RisingAboveLimit(id, name, limit, Records(ds));
    RisingToFailure(id, Records(ds));
  }
}
