/** Properties of whole runs of the registry, from server start. */
module RegistryLaws {
  import opened Config
  import opened Prelude
  import opened NodeRecord
  import opened NodeHistory
  import opened NodeAlerts
  import opened RegistrySpec

  // The registry is a product of independent nodes

  /** The messages that reached `id` under its own session since it registered. */
  ghost function Messages(ops: seq<Op>, id: string): seq<Message> {
    if ops == [] then []
    else
      var before, op := ops[..|ops| - 1], ops[|ops| - 1];
      Messages(before, id) +
      if Addressed(Run(EMPTY, before), op) && op.id == id then [MessageOf(op).value] else []
  }

  ghost function SessionOf(s: State, id: string): string
    requires Lookup(s, id).Some?
  {
    Lookup(s, id).value.rec.session
  }

  lemma {:induction false} NoMessagesBeforeHello(ops: seq<Op>, id: string)
    requires Lookup(Run(EMPTY, ops), id).None?
    ensures Messages(ops, id) == []
  {
    if ops != [] {
      var before, op := ops[..|ops| - 1], ops[|ops| - 1];
      StepIsLocal(Run(EMPTY, before), op, id);
      NoMessagesBeforeHello(before, id);
    }
  }

  lemma {:induction false} NodeRunSnoc(e: Entry, ms: seq<Message>, m: Message)
    ensures NodeRun(e, ms + [m]) == NodeStep(NodeRun(e, ms), m)
    ensures AlertHistory(e, ms + [m]) == AlertHistory(e, ms) + AlertsOf(NodeRun(e, ms), m)
  {
    SnocInit(ms, m);
  }

  /** In every run each registered node is exactly the fold of its own messages: no
      operation of another node, session or malformed datagram ever reaches it. */
  lemma {:induction false} NodesAreIndependent(ops: seq<Op>, id: string)
    requires Lookup(Run(EMPTY, ops), id).Some?
    ensures var s := Run(EMPTY, ops);
            Lookup(s, id).value == NodeRun(Fresh(id, SessionOf(s, id)), Messages(ops, id))
  {
    if ops != [] {
      var before, op := ops[..|ops| - 1], ops[|ops| - 1];
      var s, ms := Run(EMPTY, before), Messages(before, id);
      StepIsLocal(s, op, id);
      if Lookup(s, id).None? {
        NoMessagesBeforeHello(before, id);
        assert Messages(ops, id) == [];
      } else {
        NodesAreIndependent(before, id);
        if Addressed(s, op) && op.id == id {
          NodeRunSnoc(Fresh(id, SessionOf(s, id)), ms, MessageOf(op).value);
        } else {
          assert Messages(ops, id) == ms;
        }
      }
    }
  }

  /** Every counter of every registered node, over every run of the server. */
  lemma {:induction false} EveryRecordMeansItsHistory(ops: seq<Op>, id: string)
    requires Lookup(Run(EMPTY, ops), id).Some?
    ensures var s := Run(EMPTY, ops);
            Summarizes(Lookup(s, id).value, Delivered(Fresh(id, SessionOf(s, id)), Messages(ops, id)))
  {
    NodesAreIndependent(ops, id);
    RecordMeansHistory(id, SessionOf(Run(EMPTY, ops), id), Messages(ops, id));
  }

  lemma {:induction false} FreshIsWellFormed(id: string, session: string)
    ensures WellFormed(Fresh(id, session))
  {
    assert Below({}, 0) == {};
  }

  /** Once a final report is accepted, nothing that any client does later changes the
      reported totals, sets a bit beyond them, or raises the loss. */
  lemma {:induction false} SealIsForever(ops: seq<Op>, more: seq<Op>, id: string)
    requires var found := Lookup(Run(EMPTY, ops), id); found.Some? && found.value.rec.final
    ensures var e := Lookup(Run(EMPTY, ops), id).value;
            var found := Lookup(Run(EMPTY, ops + more), id);
            && found.Some? && Sealed(found.value) && WellFormed(found.value)
            && found.value.rec.session == e.rec.session
            && found.value.rec.SameTotals(e.rec)
            && e.seen <= found.value.seen
            && found.value.rec.lost <= e.rec.lost <= found.value.rec.lost + |more|
  {
    if more == [] {
      assert ops + more == ops;
      var e := Lookup(Run(EMPTY, ops), id).value;
      NodesAreIndependent(ops, id);
      FreshIsWellFormed(id, e.rec.session);
      WellFormedRun(Fresh(id, e.rec.session), Messages(ops, id));
    } else {
      var before, op := more[..|more| - 1], more[|more| - 1];
      SealIsForever(ops, before, id);
      SnocConcat(ops, more);
      SnocInit(ops + before, op);
      var s := Run(EMPTY, ops + before);
      StepIsLocal(s, op, id);
      if Addressed(s, op) && op.id == id {
        SealedStep(Lookup(s, id).value, MessageOf(op).value);
      }
    }
  }

  lemma {:induction false} SealedStep(e: Entry, m: Message)
    requires WellFormed(e) && e.rec.final
    ensures var after := NodeStep(e, m);
            && WellFormed(after) && Sealed(after) && after.rec.SameTotals(e.rec) && e.seen <= after.seen
            && after.rec.lost <= e.rec.lost <= after.rec.lost + 1
  {
    WellFormedStep(e, m);
    if m.Data? {
      DatagramLowersLoss(e, m.datagram);
    }
  }

  // Alerts

  ghost function ByNode(alerts: seq<Alert>, id: string): seq<Alert> {
    if alerts == [] then []
    else
      var a := alerts[|alerts| - 1];
      ByNode(alerts[..|alerts| - 1], id) + if a.id == id then [a] else []
  }

  lemma {:induction false} ByNodeConcat(a: seq<Alert>, b: seq<Alert>, id: string)
    ensures ByNode(a + b, id) == ByNode(a, id) + ByNode(b, id)
  {
    if b == [] {
      assert a + b == a;
    } else {
      SnocConcat(a, b);
      SnocInit(a + b[..|b| - 1], b[|b| - 1]);
      ByNodeConcat(a, b[..|b| - 1], id);
    }
  }

  lemma {:induction false} ByNodeAllOrNothing(alerts: seq<Alert>, owner: string, id: string)
    requires forall a | a in alerts :: a.id == owner
    ensures ByNode(alerts, id) == if owner == id then alerts else []
  {
    if alerts != [] {
      var before, a := alerts[..|alerts| - 1], alerts[|alerts| - 1];
      assert a in alerts && alerts == before + [a];
      ByNodeAllOrNothing(before, owner, id);
    }
  }

  lemma {:induction false} AlertsGrowByRaised(s: State, op: Op)
    ensures Step(s, op).alerts == s.alerts + Raised(s, op)
  {
    assert s.alerts + [] == s.alerts;
  }

  lemma {:induction false} AlertsAreByNode(ops: seq<Op>, id: string)
    requires Lookup(Run(EMPTY, ops), id).Some?
    ensures var s := Run(EMPTY, ops);
            ByNode(s.alerts, id) == AlertHistory(Fresh(id, SessionOf(s, id)), Messages(ops, id))
  {
    if ops != [] {
      var before, op := ops[..|ops| - 1], ops[|ops| - 1];
      var s := Run(EMPTY, before);
      AlertsGrowByRaised(s, op);
      ByNodeConcat(s.alerts, Raised(s, op), id);
      StepIsLocal(s, op, id);
      if Addressed(s, op) {
        ByNodeAllOrNothing(Raised(s, op), op.id, id);
      }
      if Lookup(s, id).None? {
        NoMessagesBeforeHello(before, id);
        NoAlertsBeforeHello(before, id);
        assert Messages(ops, id) == [] && Raised(s, op) == [];
      } else {
        AlertsAreByNode(before, id);
        NodesAreIndependent(before, id);
        if Addressed(s, op) && op.id == id {
          NodeRunSnoc(Fresh(id, SessionOf(s, id)), Messages(before, id), MessageOf(op).value);
        } else {
          assert Messages(ops, id) == Messages(before, id);
        }
      }
    }
  }

  lemma {:induction false} NoAlertsBeforeHello(ops: seq<Op>, id: string)
    requires Lookup(Run(EMPTY, ops), id).None?
    ensures ByNode(Run(EMPTY, ops).alerts, id) == []
  {
    if ops != [] {
      var before, op := ops[..|ops| - 1], ops[|ops| - 1];
      var s := Run(EMPTY, before);
      StepIsLocal(s, op, id);
      NoAlertsBeforeHello(before, id);
      AlertsGrowByRaised(s, op);
      ByNodeConcat(s.alerts, Raised(s, op), id);
      if Addressed(s, op) {
        ByNodeAllOrNothing(Raised(s, op), op.id, id);
      }
    }
  }

  lemma {:induction false} MessagesComeFromOps(ops: seq<Op>, id: string)
    requires forall op | op in ops && op.Telemetry? :: DistinctNames(op.values)
    ensures forall d | Data(d) in Messages(ops, id) :: DistinctNames(d.values)
  {
    if ops != [] {
      var op := ops[|ops| - 1];
      assert op in ops;
      MessagesComeFromOps(ops[..|ops| - 1], id);
    }
  }

  /** In every run whose datagrams name each variable at most once, the alert history of
      one variable of one node is the sequence of its rising edges. */
  lemma {:induction false} AlertHistoryIsRisingEdges(ops: seq<Op>, id: string, name: string)
    requires Lookup(Run(EMPTY, ops), id).Some?
    requires forall op | op in ops && op.Telemetry? :: DistinctNames(op.values)
    ensures var s := Run(EMPTY, ops);
            OfKind(ByNode(s.alerts, id), Kind(name)) ==
            RisingEdges(id, name, Records(Delivered(Fresh(id, SessionOf(s, id)), Messages(ops, id))))
  {
    AlertsAreByNode(ops, id);
    MessagesComeFromOps(ops, id);
    AlertsAreRisingEdges(id, SessionOf(Run(EMPTY, ops), id), Messages(ops, id), name);
  }

  // Registration is a write-once map

  ghost function Bind(m: map<string, string>, op: Op): map<string, string> {
    if op.Hello? && op.id !in m && |m| < MAX_NODES then m[op.id := op.session] else m
  }

  ghost function Bindings(ops: seq<Op>): map<string, string> {
    if ops == [] then map[] else Bind(Bindings(ops[..|ops| - 1]), ops[|ops| - 1])
  }

  ghost predicate Represents(s: State, m: map<string, string>) {
    && |s.nodes| == |m| <= MAX_NODES
    && forall id :: if id in m then BoundTo(s, id, m[id]) else Lookup(s, id).None?
  }

  lemma {:induction false} BindStepAt(s: State, m: map<string, string>, op: Op, id: string)
    requires Represents(s, m)
    ensures if id in Bind(m, op) then BoundTo(Step(s, op), id, Bind(m, op)[id]) else Lookup(Step(s, op), id).None?
  {
    assert if id in m then BoundTo(s, id, m[id]) else Lookup(s, id).None?;
    if id in m {
      BoundStays(s, op, id);
    } else {
      NewBinding(s, op, id);
    }
  }

  lemma {:induction false} NewBinding(s: State, op: Op, id: string)
    requires Lookup(s, id).None?
    ensures Lookup(Step(s, op), id) ==
            if op.Hello? && op.id == id && |s.nodes| < MAX_NODES then Some(Fresh(id, op.session)) else None
  {
    StepIsLocal(s, op, id);
  }

  lemma {:induction false} BoundStays(s: State, op: Op, id: string)
    requires Lookup(s, id).Some?
    ensures BoundTo(Step(s, op), id, SessionOf(s, id))
  {
    StepIsLocal(s, op, id);
  }

  lemma {:induction false} BindStep(s: State, m: map<string, string>, op: Op)
    requires Represents(s, m)
    ensures Represents(Step(s, op), Bind(m, op))
  {
    assert |Step(s, op).nodes| == |Bind(m, op)| <= MAX_NODES by {
      if op.Hello? {
        assert op.id in m <==> Lookup(s, op.id).Some?;
      }
    }
    forall id
      ensures if id in Bind(m, op) then BoundTo(Step(s, op), id, Bind(m, op)[id]) else Lookup(Step(s, op), id).None?
    {
      BindStepAt(s, m, op, id);
    }
  }

  /** Every run is a write-once map from ids to sessions with room for 64, and HELLO
      answers what that map says: same session OK, other session ID_IN_USE, new id OK or
      SERVER_FULL. */
  lemma {:induction false} RegistrationIsWriteOnce(ops: seq<Op>, id: string, session: string)
    ensures var s, m := Run(EMPTY, ops), Bindings(ops);
            && Represents(s, m)
            && Reply(s, Hello(id, session)) ==
               if id in m then (if m[id] == session then REPLY_OK else ERR_ID_IN_USE)
               else if |m| < 64 then REPLY_OK else ERR_SERVER_FULL
  {
    if ops != [] {
      RegistrationIsWriteOnce(ops[..|ops| - 1], id, session);
      BindStep(Run(EMPTY, ops[..|ops| - 1]), Bindings(ops[..|ops| - 1]), ops[|ops| - 1]);
    }
  }

  /** A binding is never changed or dropped by anything that happens later. */
  lemma {:induction false} BindingsNeverChange(ops: seq<Op>, more: seq<Op>, id: string)
    requires id in Bindings(ops)
    ensures id in Bindings(ops + more) && Bindings(ops + more)[id] == Bindings(ops)[id]
  {
    if more == [] {
      assert ops + more == ops;
    } else {
      SnocConcat(ops, more);
      SnocInit(ops + more[..|more| - 1], more[|more| - 1]);
      BindingsNeverChange(ops, more[..|more| - 1], id);
    }
  }

  // Conservation of datagrams

  datatype Field =
    | Attempts | SentTotal | OmittedTotal | ErrorTotal | Unique | Duplicates | Reordered | Lost | Reported | Finished

  function Get(rec: TelemetryNode, field: Field): nat {
    match field
    case Attempts => rec.attempts
    case SentTotal => rec.sent
    case OmittedTotal => rec.omitted
    case ErrorTotal => rec.errors
    case Unique => rec.unique
    case Duplicates => rec.duplicates
    case Reordered => rec.reordered
    case Lost => rec.lost
    case Reported => if rec.reportSeen then 1 else 0
    case Finished => if rec.final then 1 else 0
  }

  /** The sum of one field over the registered nodes. */
  ghost function Total(nodes: seq<Entry>, field: Field): nat {
    if nodes == [] then 0 else Total(nodes[..|nodes| - 1], field) + Get(nodes[|nodes| - 1].rec, field)
  }

  lemma {:induction false} TotalAfterUpdate(nodes: seq<Entry>, i: nat, e: Entry, field: Field)
    requires i < |nodes|
    ensures Total(nodes[i := e], field) + Get(nodes[i].rec, field) == Total(nodes, field) + Get(e.rec, field)
  {
    var n := |nodes| - 1;
    if i == n {
      assert nodes[i := e][..n] == nodes[..n];
    } else {
      assert nodes[i := e][..n] == nodes[..n][i := e];
      TotalAfterUpdate(nodes[..n], i, e, field);
    }
  }

  ghost function RefusedAfterFinal(ops: seq<Op>): nat {
    if ops == [] then 0
    else
      var before, op := ops[..|ops| - 1], ops[|ops| - 1];
      RefusedAfterFinal(before) + if RefusedBySeal(Run(EMPTY, before), op) then 1 else 0
  }

  ghost function MalformedCount(ops: seq<Op>): nat {
    if ops == [] then 0
    else MalformedCount(ops[..|ops| - 1]) + if ops[|ops| - 1].Malformed? then 1 else 0
  }

  ghost function Handled(s: State): nat {
    Total(s.nodes, Unique) + Total(s.nodes, Duplicates)
  }

  lemma {:induction false} NodeStepHandles(e: Entry, m: Message)
    ensures var r := NodeStep(e, m).rec;
            r.unique + r.duplicates == e.rec.unique + e.rec.duplicates +
            if m.Data? && !PastSeal(e.rec, m.datagram.sequence) then 1 else 0
  {
  }

  lemma {:induction false} HandledAfterUpdate(nodes: seq<Entry>, i: nat, e: Entry)
    requires i < |nodes|
    ensures Total(nodes[i := e], Unique) + Total(nodes[i := e], Duplicates) +
            nodes[i].rec.unique + nodes[i].rec.duplicates ==
            Total(nodes, Unique) + Total(nodes, Duplicates) + e.rec.unique + e.rec.duplicates
  {
    TotalAfterUpdate(nodes, i, e, Unique);
    TotalAfterUpdate(nodes, i, e, Duplicates);
  }

  lemma {:induction false} AddressedStep(s: State, op: Op)
    requires Addressed(s, op)
    ensures Step(s, op).nodes == s.nodes[Find(s.nodes, op.id) := NodeStep(Lookup(s, op.id).value, MessageOf(op).value)]
  {
    var i := Find(s.nodes, op.id);
    assert s.nodes[i := s.nodes[i]] == s.nodes;
  }

  lemma {:induction false} AddressedIsHandled(s: State, op: Op)
    requires Addressed(s, op)
    ensures Handled(Step(s, op)) == Handled(s) + if op.Telemetry? && !RefusedBySeal(s, op) then 1 else 0
  {
    var i, e, m := Find(s.nodes, op.id), Lookup(s, op.id).value, MessageOf(op).value;
    assert op.Telemetry? && !RefusedBySeal(s, op) <==> m.Data? && !PastSeal(e.rec, m.datagram.sequence);
    AddressedStep(s, op);
    NodeStepHandles(e, m);
    HandledAfterUpdate(s.nodes, i, NodeStep(e, m));
  }

  lemma {:induction false} OthersAreNotHandled(s: State, op: Op)
    requires !Addressed(s, op)
    ensures Handled(Step(s, op)) == Handled(s)
  {
    if op.Hello? && Lookup(s, op.id).None? && |s.nodes| < MAX_NODES {
      SnocInit(s.nodes, Fresh(op.id, op.session));
    } else {
      assert Step(s, op).nodes == s.nodes;
    }
  }

  lemma {:induction false} HandledStep(s: State, op: Op)
    ensures Handled(Step(s, op)) ==
            Handled(s) + if op.Telemetry? && Addressed(s, op) && !RefusedBySeal(s, op) then 1 else 0
  {
    if Addressed(s, op) {
      AddressedIsHandled(s, op);
    } else {
      OthersAreNotHandled(s, op);
    }
  }

  lemma {:induction false} CountersStep(s: State, op: Op)
    ensures var t := Step(s, op);
            && t.total == s.total + (if op.Telemetry? then 1 else 0)
            && t.unknown == s.unknown + (if op.Telemetry? && !Addressed(s, op) then 1 else 0)
            && t.invalid == s.invalid + (if op.Malformed? || RefusedBySeal(s, op) then 1 else 0)
  {
  }

  /** No datagram is lost from the books: each one is unknown, refused after the final
      report, a first arrival or a duplicate; the invalid ones are malformed or refused. */
  lemma {:induction false} DatagramsAreConserved(ops: seq<Op>)
    ensures var s := Run(EMPTY, ops);
            && s.total == s.unknown + RefusedAfterFinal(ops) + Handled(s)
            && s.invalid == MalformedCount(ops) + RefusedAfterFinal(ops)
  {
    if ops != [] {
      DatagramsAreConserved(ops[..|ops| - 1]);
      HandledStep(Run(EMPTY, ops[..|ops| - 1]), ops[|ops| - 1]);
      CountersStep(Run(EMPTY, ops[..|ops| - 1]), ops[|ops| - 1]);
    }
  }

  /** What GET_STATUS publishes in every run:
      udp_unknown + unique + duplicates <= udp_rx <= that + udp_invalid. */
  lemma {:induction false} PublishedSumsBracketReceived(ops: seq<Op>)
    ensures var s := Run(EMPTY, ops);
            var accounted := s.unknown + Total(s.nodes, Unique) + Total(s.nodes, Duplicates);
            accounted <= s.total <= accounted + s.invalid
  {
    DatagramsAreConserved(ops);
  }
}
