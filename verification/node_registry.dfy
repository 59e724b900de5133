/** server/node_registry.c: the static arrays, updated in place under one mutex.
    Each method is one critical section and is proved against RegistrySpec.Step. */
module NodeRegistry {
  import opened Config
  import opened Prelude
  import opened Bitmap
  import opened NodeRecord
  import opened RegistrySpec

  const ROW_BYTES := SESSION_LIMIT / 8

  /** A zeroed slot, as memset leaves it. */
  const UNUSED := TelemetryNode(false, "", "", [], 0, 0, 0, 0, 0, 0, 0, 0, 0, false, false)

  ghost function Entries(recs: seq<TelemetryNode>, rows: seq<set<nat>>): seq<Entry>
    requires |recs| <= |rows|
  {
    seq(|recs|, i requires 0 <= i < |recs| => Entry(recs[i], rows[i]))
  }

  /** What Step says of a datagram that is taken. */
  lemma {:induction false} TelemetryTaken(s: State, op: Op)
    requires op.Telemetry? && Addressed(s, op) && !RefusedBySeal(s, op)
    ensures var i := Find(s.nodes, op.id);
            var e := s.nodes[i];
            var raised := if SetsRecord(e, op.sequence) then NewAlerts(e.rec.id, e.rec.stored, op.values) else [];
            && Raised(s, op) == raised
            && Step(s, op) == s.(total := s.total + 1, nodes := s.nodes[i := AfterDatagram(e, op.sequence, op.values)],
                                 alerts := s.alerts + raised)
  {
  }

  /** What AfterDatagram says of a first arrival. */
  lemma {:induction false} FirstArrival(e: Entry, sequence: nat, values: seq<Measurement>)
    requires sequence !in e.seen
    ensures var after := AfterDatagram(e, sequence, values);
            var rec := e.rec.(unique := e.rec.unique + 1, lost := LossOf(e.rec, e.seen + {sequence}));
            && after.seen == e.seen + {sequence}
            && after.rec == (if sequence < e.rec.last then rec.(reordered := rec.reordered + 1)
                             else rec.(last := sequence, stored := values))
            && (SetsRecord(e, sequence) <==> sequence >= e.rec.last)
  {
  }

  /** What Step and Reply say of a HELLO. */
  lemma {:induction false} HelloStep(s: State, id: string, session: string)
    ensures var op := Hello(id, session);
            match Lookup(s, id)
            case Some(e) =>
              Step(s, op) == s && Reply(s, op) == (if e.rec.session == session then REPLY_OK else ERR_ID_IN_USE)
            case None =>
              if |s.nodes| < MAX_NODES
              then Step(s, op) == s.(nodes := s.nodes + [Fresh(id, session)]) && Reply(s, op) == REPLY_OK
              else Step(s, op) == s && Reply(s, op) == ERR_SERVER_FULL
  {
  }

  lemma {:induction false} Regroup(a: seq<Alert>, b: seq<Alert>, c: seq<Alert>)
    ensures (a + b) + c == a + (b + c)
  {
  }

  lemma {:induction false} NewAlertsStep(id: string, stored: seq<Measurement>, values: seq<Measurement>, i: nat)
    requires i < |values|
    ensures NewAlerts(id, stored, values[..i + 1]) ==
            NewAlerts(id, stored, values[..i]) + AlertIfNew(id, stored, values[i])
  {
    assert values[..i + 1][..i] == values[..i];
  }

  /** A REPORT that is not accepted changes nothing. */
  lemma {:induction false} RefusedReport(s: State, id: string, session: string, c: Counters, final: bool)
    requires BoundTo(s, id, session) && !ReportAccepted(Lookup(s, id).value, c, final)
    ensures var op := RegistrySpec.Op.Report(id, session, c, final);
            Step(s, op) == s && Reply(s, op) == ERR_BAD_FORMAT
  {
    var i := Find(s.nodes, id);
    assert s.nodes[i := s.nodes[i]] == s.nodes;
  }

  lemma {:induction false} TelemetryNotTaken(s: State, op: Op)
    requires op.Telemetry? && (!Addressed(s, op) || RefusedBySeal(s, op))
    ensures Step(s, op) == if !Addressed(s, op) then s.(total := s.total + 1, unknown := s.unknown + 1)
                           else s.(total := s.total + 1, invalid := s.invalid + 1)
  {
  }

  class Registry {
    const nodes: array<TelemetryNode>
    const seen: array2<bv8>
    const alerts: array<Alert>
    var totalAlerts: nat
    var datagramsTotal: nat
    var datagramsUnknown: nat
    var datagramsInvalid: nat
    ghost var used: nat              // the used slots are exactly 0..used
    ghost var rows: seq<set<nat>>    // the sequences each bitmap row stands for
    ghost var history: seq<Alert>    // every alert ever added

    ghost predicate RowsMatch()
      reads this, seen
      requires seen.Length0 == MAX_NODES && seen.Length1 == ROW_BYTES
    {
      && |rows| == MAX_NODES
      && (forall i, q | 0 <= i < MAX_NODES && q in rows[i] :: q < SESSION_LIMIT)
      && (forall i, q: nat {:trigger q in rows[i]} | 0 <= i < MAX_NODES && q < SESSION_LIMIT ::
            q in rows[i] <==> BitSet(seen[i, q / 8], q % 8))
    }

    ghost predicate RingMatches()
      reads this, alerts
      requires alerts.Length == MAX_ALERTS
    {
      && |history| == totalAlerts
      && (forall k | 0 <= k < totalAlerts && totalAlerts - MAX_ALERTS <= k :: alerts[k % MAX_ALERTS] == history[k])
    }

    ghost predicate Valid()
      reads this, nodes, seen, alerts
    {
      && nodes.Length == MAX_NODES
      && seen.Length0 == MAX_NODES && seen.Length1 == ROW_BYTES
      && alerts.Length == MAX_ALERTS
      && used <= MAX_NODES
      && (forall i | 0 <= i < MAX_NODES :: nodes[i].inUse <==> i < used)
      && (forall i | 0 <= i < MAX_NODES :: nodes[i].attempts <= SESSION_LIMIT)
      && RowsMatch()
      && (forall i | used <= i < MAX_NODES :: rows[i] == {})
      && RingMatches()
    }

    /** The value this object stands for. */
    ghost function View(): State
      reads this, nodes, seen, alerts
      requires Valid()
    {
      State(Entries(nodes[..used], rows), history, datagramsTotal, datagramsUnknown, datagramsInvalid)
    }

    constructor ()
      ensures Valid() && View() == EMPTY
      ensures fresh(nodes) && fresh(seen) && fresh(alerts)
    {
      nodes := new TelemetryNode[MAX_NODES](_ => UNUSED);
      seen := new bv8[MAX_NODES, ROW_BYTES]((_, _) => 0);
      alerts := new Alert[MAX_ALERTS](_ => Alert("", "", 0.0));
      totalAlerts, datagramsTotal, datagramsUnknown, datagramsInvalid := 0, 0, 0, 0;
      used, rows, history := 0, seq(MAX_NODES, _ => {}), [];
      new;
      assert RowsMatch() by {
        forall k: nat | k < 8
          ensures !BitSet(0, k)
        {
          ZeroHasNoBits(k);
        }
      }
      assert RingMatches();
    }

    /** find_node: the first used slot with this id, or -1. */
    method FindNode(id: string) returns (r: int)
      requires Valid()
      ensures Lookup(View(), id).Some? ==>
                0 <= r < used && r == Find(View().nodes, id) && Lookup(View(), id).value == Entry(nodes[r], rows[r])
      ensures Lookup(View(), id).None? ==> r == -1
    {
      var i := 0;
      while i < MAX_NODES
        invariant 0 <= i <= MAX_NODES
        invariant forall k | 0 <= k < i && k < used :: nodes[k].id != id
      {
        if nodes[i].inUse && nodes[i].id == id {
          FindIs(View().nodes, id, i);
          return i;
        }
        i := i + 1;
      }
      return -1;
    }

    /** create_node: the first free slot becomes a blank node, or -1 when all are used. */
    method CreateNode(id: string) returns (r: int)
      requires Valid()
      modifies this`used, nodes
      ensures Valid()
      ensures old(used) < MAX_NODES ==>
                r == old(used) && used == r + 1 && nodes[..used] == old(nodes[..used]) + [Fresh(id, "").rec]
      ensures old(used) == MAX_NODES ==> r == -1 && used == old(used) && nodes[..] == old(nodes[..])
    {
      var i := 0;
      while i < MAX_NODES
        invariant 0 <= i <= used
      {
        if !nodes[i].inUse {
          nodes[i] := UNUSED;
          nodes[i] := nodes[i].(id := id);
          nodes[i] := nodes[i].(inUse := true);
          nodes[i] := nodes[i].(last := -1);
          used := used + 1;
          return i;
        }
        i := i + 1;
      }
      return -1;
    }

    /** registry_register_node */
    method RegisterNode(id: string, session: string) returns (result: int)
      requires Valid()
      modifies this, nodes
      ensures Valid()
      ensures View() == Step(old(View()), Hello(id, session))
      ensures result == old(Reply(View(), Hello(id, session)))
    {
      HelloStep(View(), id, session);
      var node := FindNode(id);
      result := REPLY_OK;
      if node != -1 && nodes[node].session != session {
        result := ERR_ID_IN_USE;
      } else if node == -1 {
        node := CreateBound(id, session);
        if node == -1 {
          result := ERR_SERVER_FULL;
        }
      }
    }

    /** create_node, then strcpy of the session. */
    method CreateBound(id: string, session: string) returns (node: int)
      requires Valid()
      modifies this`used, nodes
      ensures Valid()
      ensures node == -1 <==> old(used) == MAX_NODES
      ensures View() == if node == -1 then old(View())
                        else old(View()).(nodes := old(View().nodes) + [Fresh(id, session)])
    {
      node := CreateNode(id);
      if node != -1 {
        nodes[node] := nodes[node].(session := session);
        assert View().nodes == old(View().nodes) + [Fresh(id, session)];
      }
    }

    /** registry_invalid_datagram */
    method InvalidDatagram()
      requires Valid()
      modifies this`datagramsInvalid
      ensures Valid()
      ensures View() == Step(old(View()), Malformed)
    {
      datagramsInvalid := datagramsInvalid + 1;
    }

    /** The bit-counting loop that update_loss and registry_report share. */
    method CountReceived(index: nat, attempts: nat) returns (received: nat)
      requires Valid() && index < MAX_NODES && attempts <= SESSION_LIMIT
      ensures received == |Below(rows[index], attempts)|
    {
      received := 0;
      var q := 0;
      assert Below(rows[index], 0) == {};
      while q < attempts
        invariant 0 <= q <= attempts
        invariant received == |Below(rows[index], q)|
      {
        BelowStep(rows[index], q);
        assert q in rows[index] <==> BitSet(seen[index, q / 8], q % 8);
        if seen[index, q / 8] & (1 << (q % 8)) != 0 {
          received := received + 1;
        }
        q := q + 1;
      }
    }

    /** update_loss */
    method UpdateLoss(index: nat)
      requires Valid() && index < MAX_NODES
      modifies nodes
      ensures nodes[..] == old(nodes[..])[index := old(nodes[index]).(lost := LossOf(old(nodes[index]), rows[index]))]
      ensures Valid()
    {
      var received := CountReceived(index, nodes[index].attempts);
      var sent := nodes[index].sent;
      nodes[index] := nodes[index].(lost := if sent > received then sent - received else 0);
    }

    /** What an accepted report writes into its slot. */
    method StoreReport(n: nat, c: Counters, final: bool)
      requires Valid() && n < used && c.attempts <= SESSION_LIMIT
      modifies nodes
      ensures Valid()
      ensures View() == old(View()).(nodes := old(View().nodes)[n := AfterReport(old(View().nodes[n]), c, final)])
    {
      ghost var e := View().nodes[n];
      nodes[n] := nodes[n].(attempts := c.attempts, sent := c.sent, omitted := c.omitted, errors := c.errors);
      nodes[n] := nodes[n].(reportSeen := true, final := final);
      UpdateLoss(n);
      assert Entry(nodes[n], rows[n]) == AfterReport(e, c, final);
      assert View().nodes == old(View().nodes)[n := AfterReport(e, c, final)];
    }

    /** registry_report */
    method Report(id: string, session: string, attempts: nat, sent: nat, omitted: nat, errors: nat, final: bool)
      returns (result: int)
      requires Valid() && attempts <= SESSION_LIMIT
      modifies nodes
      ensures Valid()
      ensures var op := RegistrySpec.Op.Report(id, session, Counters(attempts, sent, omitted, errors), final);
              View() == Step(old(View()), op) && result == old(Reply(View(), op))
    {
      var n := FindNode(id);
      if n == -1 || nodes[n].session != session {
        return ERR_UNKNOWN_NODE;
      }
      var r := nodes[n];
      var c := Counters(attempts, sent, omitted, errors);
      ghost var e := Lookup(View(), id).value;
      if attempts != sent + omitted + errors || attempts < r.attempts || sent < r.sent ||
         omitted < r.omitted || errors < r.errors ||
         (final && r.last >= attempts) ||
         (r.final && (attempts != r.attempts || sent != r.sent ||
                             omitted != r.omitted || errors != r.errors || !final)) {
        assert !ReportAccepted(e, c, final);
        RefusedReport(View(), id, session, c, final);
        return ERR_BAD_FORMAT;
      }
      var received := CountReceived(n, attempts);
      if received > sent {
        assert !ReportAccepted(e, c, final);
        RefusedReport(View(), id, session, c, final);
        return ERR_BAD_FORMAT;
      }
      assert ReportAccepted(e, c, final);
      StoreReport(n, c, final);
      return REPLY_OK;
    }

    /** was_anomalous */
    method WasAnomalous(n: nat, name: string) returns (was: bool)
      requires Valid() && n < MAX_NODES
      ensures was == NodeRecord.WasAnomalous(nodes[n].stored, name)
    {
      var i := 0;
      while i < |nodes[n].stored|
        invariant 0 <= i <= |nodes[n].stored|
        invariant NodeRecord.WasAnomalous(nodes[n].stored, name) == NodeRecord.WasAnomalous(nodes[n].stored[i..], name)
      {
        if nodes[n].stored[i].name == name {
          return IsAnomalous(nodes[n].stored[i]);
        }
        i := i + 1;
      }
      return false;
    }

    /** add_alert: overwrites the oldest cell of the ring. */
    method AddAlert(id: string, variable: string, suffix: string, value: real) returns (alert: Alert)
      requires Valid()
      modifies this`totalAlerts, this`history, alerts
      ensures Valid()
      ensures alert == Alert(id, variable + "_" + suffix, value)
      ensures history == old(history) + [alert]
    {
      alert := Alert(id, variable + "_" + suffix, value);
      alerts[totalAlerts % MAX_ALERTS] := alert;
      totalAlerts := totalAlerts + 1;
      history := history + [alert];
    }

    /** One turn of the alert loop of registry_record_telemetry. */
    method RaiseOne(n: nat, current: Measurement, newAlerts: array<Alert>, before: nat) returns (count: nat)
      requires Valid() && n < MAX_NODES && before < newAlerts.Length && newAlerts != alerts
      modifies this`totalAlerts, this`history, alerts, newAlerts
      ensures Valid()
      ensures var raised := AlertIfNew(nodes[n].id, nodes[n].stored, current);
              && count == before + |raised|
              && newAlerts[..count] == old(newAlerts[..before]) + raised
              && history == old(history) + raised
    {
      if IsAnomalous(current) {
        var was := WasAnomalous(n, current.name);
        if !was {
          var alert;
          if current.name == "STATUS" {
            alert := AddAlert(nodes[n].id, "STATUS", "FAIL", 0.0);
            assert "STATUS" + "_" + "FAIL" == Kind("STATUS");
          } else {
            alert := AddAlert(nodes[n].id, current.name, "HIGH", current.value);
            assert current.name + "_" + "HIGH" == Kind(current.name);
          }
          newAlerts[before] := alert;
          return before + 1;
        }
      }
      return before;
    }

    /** The first i values have raised what they should; `start` is the history before. */
    ghost predicate RaisedUpTo(n: nat, values: seq<Measurement>, i: nat, newAlerts: array<Alert>, count: nat,
                               start: seq<Alert>)
      reads this, nodes, newAlerts
    {
      && n < nodes.Length && i <= |values| && count <= i && count <= newAlerts.Length
      && newAlerts[..count] == NewAlerts(nodes[n].id, nodes[n].stored, values[..i])
      && history == start + newAlerts[..count]
    }

    /** One turn in terms of what the whole loop has raised. */
    method RaiseNext(n: nat, values: seq<Measurement>, i: nat, newAlerts: array<Alert>, before: nat,
                     ghost start: seq<Alert>) returns (count: nat)
      requires Valid() && n < MAX_NODES && i < |values| <= newAlerts.Length && newAlerts != alerts
      requires RaisedUpTo(n, values, i, newAlerts, before, start)
      modifies this`totalAlerts, this`history, alerts, newAlerts
      ensures Valid() && RaisedUpTo(n, values, i + 1, newAlerts, count, start)
    {
      ghost var more := AlertIfNew(nodes[n].id, nodes[n].stored, values[i]);
      NewAlertsStep(nodes[n].id, nodes[n].stored, values, i);
      Regroup(start, newAlerts[..before], more);
      count := RaiseOne(n, values[i], newAlerts, before);
    }

    /** The alert loop of registry_record_telemetry: one pass over the values, copying
        each new alert into the caller's array of MAX_VARS cells. */
    method RaiseAlerts(n: nat, values: seq<Measurement>, newAlerts: array<Alert>) returns (count: nat)
      requires Valid() && n < MAX_NODES
      requires |values| <= MAX_VARS <= newAlerts.Length && newAlerts != alerts
      modifies this`totalAlerts, this`history, alerts, newAlerts
      ensures Valid()
      ensures count <= MAX_VARS
      ensures newAlerts[..count] == NewAlerts(nodes[n].id, nodes[n].stored, values)
      ensures history == old(history) + newAlerts[..count]
    {
      count := 0;
      var i := 0;
      while i < |values|
        invariant 0 <= i <= |values|
        invariant Valid() && RaisedUpTo(n, values, i, newAlerts, count, old(history))
      {
        count := RaiseNext(n, values, i, newAlerts, count, old(history));
        i := i + 1;
      }
      assert values[..|values|] == values;
    }

    /** Sets one bit of the bitmap. */
    method SetBit(n: nat, sequence: nat)
      requires Valid() && n < used && sequence < SESSION_LIMIT
      modifies this`rows, seen
      ensures Valid()
      ensures rows == old(rows)[n := old(rows[n]) + {sequence}]
    {
      var b := seen[n, sequence / 8];
      seen[n, sequence / 8] := b | (1 << (sequence % 8));
      rows := rows[n := rows[n] + {sequence}];
      forall i, q: nat | 0 <= i < MAX_NODES && q < SESSION_LIMIT
        ensures q in rows[i] <==> BitSet(seen[i, q / 8], q % 8)
      {
        assert q in old(rows[i]) <==> BitSet(old(seen[i, q / 8]), q % 8);
        if i == n && q / 8 == sequence / 8 {
          OrSetsOneBit(b, sequence % 8, q % 8);
        } else {
          assert seen[i, q / 8] == old(seen[i, q / 8]);
        }
      }
    }

    /** Sets the bit of a first arrival, counts it and refreshes the loss estimate. */
    method MarkArrival(n: nat, sequence: nat)
      requires Valid() && n < used && sequence < SESSION_LIMIT && sequence !in rows[n]
      modifies this`rows, nodes, seen
      ensures Valid()
      ensures rows == old(rows)[n := old(rows[n]) + {sequence}]
      ensures var rec := old(nodes[n]);
              nodes[..] == old(nodes[..])[n := rec.(unique := rec.unique + 1, lost := LossOf(rec, rows[n]))]
    {
      SetBit(n, sequence);
      nodes[n] := nodes[n].(unique := nodes[n].unique + 1);
      UpdateLoss(n);
    }

    /** A first arrival that is not below the maximum: its alerts, then its values. */
    method Supersede(n: nat, sequence: nat, values: seq<Measurement>, newAlerts: array<Alert>) returns (count: nat)
      requires Valid() && n < used
      requires |values| <= MAX_VARS <= newAlerts.Length && newAlerts != alerts
      modifies this`totalAlerts, this`history, nodes, alerts, newAlerts
      ensures Valid() && count <= MAX_VARS
      ensures nodes[..] == old(nodes[..])[n := old(nodes[n]).(last := sequence, stored := values)]
      ensures newAlerts[..count] == old(NewAlerts(nodes[n].id, nodes[n].stored, values))
      ensures history == old(history) + newAlerts[..count]
    {
      nodes[n] := nodes[n].(last := sequence);
      count := RaiseAlerts(n, values, newAlerts);
      nodes[n] := nodes[n].(stored := values);
    }

    /** The part of registry_record_telemetry that handles a first arrival. */
    method RecordNew(n: nat, sequence: nat, values: seq<Measurement>, newAlerts: array<Alert>) returns (count: nat)
      requires Valid() && n < used && sequence < SESSION_LIMIT && sequence !in rows[n]
      requires |values| <= MAX_VARS <= newAlerts.Length && newAlerts != alerts
      modifies this`totalAlerts, this`history, this`rows, nodes, seen, alerts, newAlerts
      ensures Valid()
      ensures var e := Entry(old(nodes[n]), old(rows[n]));
              var after := AfterDatagram(e, sequence, values);
              && nodes[..] == old(nodes[..])[n := after.rec]
              && rows == old(rows)[n := after.seen]
              && count <= MAX_VARS
              && newAlerts[..count] ==
                 (if SetsRecord(e, sequence) then NewAlerts(e.rec.id, e.rec.stored, values) else [])
              && history == old(history) + newAlerts[..count]
    {
      FirstArrival(Entry(nodes[n], rows[n]), sequence, values);
      MarkArrival(n, sequence);
      if sequence < nodes[n].last {
        nodes[n] := nodes[n].(reordered := nodes[n].reordered + 1);
        return 0;
      }
      count := Supersede(n, sequence, values, newAlerts);
    }

    /** The part of registry_record_telemetry that runs once the slot is known. */
    method RecordAddressed(n: nat, sequence: nat, values: seq<Measurement>, newAlerts: array<Alert>)
      returns (count: nat)
      requires Valid() && n < used && sequence < SESSION_LIMIT
      requires |values| <= MAX_VARS <= newAlerts.Length && newAlerts != alerts
      modifies this`totalAlerts, this`history, this`rows, nodes, seen, alerts, newAlerts
      ensures Valid()
      ensures var e := old(View().nodes[n]);
              var raised := if SetsRecord(e, sequence) then NewAlerts(e.rec.id, e.rec.stored, values) else [];
              && View() == old(View()).(nodes := old(View().nodes)[n := AfterDatagram(e, sequence, values)],
                                        alerts := old(View().alerts) + raised)
              && count <= MAX_VARS && newAlerts[..count] == raised
    {
      ghost var e := View().nodes[n];
      assert sequence in rows[n] <==> BitSet(seen[n, sequence / 8], sequence % 8);
      if seen[n, sequence / 8] & (1 << (sequence % 8)) != 0 {
        nodes[n] := nodes[n].(duplicates := nodes[n].duplicates + 1);
        count := 0;
      } else {
        count := RecordNew(n, sequence, values, newAlerts);
      }
      assert View().nodes == old(View().nodes)[n := AfterDatagram(e, sequence, values)];
    }

    method CountDatagram()
      requires Valid()
      modifies this`datagramsTotal
      ensures Valid() && View() == old(View()).(total := old(View()).total + 1)
    {
      datagramsTotal := datagramsTotal + 1;
    }

    method CountUnknown(ghost s: State, ghost op: Op)
      requires Valid() && View() == s.(total := s.total + 1) && op.Telemetry? && !Addressed(s, op)
      modifies this`datagramsUnknown
      ensures Valid() && View() == Step(s, op)
    {
      TelemetryNotTaken(s, op);
      datagramsUnknown := datagramsUnknown + 1;
    }

    method CountRefused(ghost s: State, ghost op: Op)
      requires Valid() && View() == s.(total := s.total + 1) && Addressed(s, op) && RefusedBySeal(s, op)
      modifies this`datagramsInvalid
      ensures Valid() && View() == Step(s, op)
    {
      TelemetryNotTaken(s, op);
      datagramsInvalid := datagramsInvalid + 1;
    }

    /** registry_record_telemetry: -1 when refused, otherwise how many alerts were raised. */
    method RecordTelemetry(id: string, session: string, sequence: nat, values: seq<Measurement>,
                           newAlerts: array<Alert>) returns (count: int)
      requires Valid() && sequence < SESSION_LIMIT
      requires |values| <= MAX_VARS <= newAlerts.Length && newAlerts != alerts
      modifies this, nodes, seen, alerts, newAlerts
      ensures Valid()
      ensures var op := Telemetry(id, session, sequence, values);
              && View() == Step(old(View()), op)
              && (count == -1 <==> old(!Addressed(View(), op) || RefusedBySeal(View(), op)))
              && (count != -1 ==> 0 <= count <= MAX_VARS && newAlerts[..count] == old(Raised(View(), op)))
    {
      ghost var op := Telemetry(id, session, sequence, values);
      ghost var s := View();
      CountDatagram();
      var node := FindNode(id);
      if node == -1 || nodes[node].session != session {
        CountUnknown(s, op);
        return -1;
      }
      if nodes[node].final && sequence >= nodes[node].attempts {
        CountRefused(s, op);
        return -1;
      }
      count := RecordTaken(node, sequence, values, newAlerts, s, op);
    }

    /** The rest, in terms of the state `s` in which the datagram arrived. */
    method RecordTaken(n: nat, sequence: nat, values: seq<Measurement>, newAlerts: array<Alert>,
                       ghost s: State, ghost op: Op) returns (count: nat)
      requires Valid() && n < used && sequence < SESSION_LIMIT
      requires |values| <= MAX_VARS <= newAlerts.Length && newAlerts != alerts
      requires op.Telemetry? && op.sequence == sequence && op.values == values
      requires View() == s.(total := s.total + 1) && n == Find(s.nodes, op.id)
      requires Addressed(s, op) && !RefusedBySeal(s, op)
      modifies this`totalAlerts, this`history, this`rows, nodes, seen, alerts, newAlerts
      ensures Valid() && View() == Step(s, op)
      ensures count <= MAX_VARS && newAlerts[..count] == Raised(s, op)
    {
      TelemetryTaken(s, op);
      count := RecordAddressed(n, sequence, values, newAlerts);
    }
  }
}
