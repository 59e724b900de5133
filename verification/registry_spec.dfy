/** The whole registry as a value, and one step per entry point of server/node_registry.c. */
module RegistrySpec {
  import opened Config
  import opened Prelude
  import opened NodeRecord

  /** `nodes` lists the used slots in slot order; `alerts` is the full alert history. */
  datatype State = State(nodes: seq<Entry>, alerts: seq<Alert>, total: nat, unknown: nat, invalid: nat)

  const EMPTY := State([], [], 0, 0, 0)

  datatype Op =
    | Hello(id: string, session: string)
    | Report(id: string, session: string, counters: Counters, final: bool)
    | Telemetry(id: string, session: string, sequence: nat, values: seq<Measurement>)
    | Malformed

  /** The slot of `id`, or |nodes| when no slot has it. */
  ghost function Find(nodes: seq<Entry>, id: string): (r: nat)
    ensures r <= |nodes|
    ensures r < |nodes| ==> nodes[r].rec.id == id
    ensures forall i | 0 <= i < r :: nodes[i].rec.id != id
  {
    if nodes == [] || nodes[0].rec.id == id then 0 else 1 + Find(nodes[1..], id)
  }

  ghost function Lookup(s: State, id: string): Option<Entry> {
    var i := Find(s.nodes, id);
    if i < |s.nodes| then Some(s.nodes[i]) else None
  }

  /** Whether `id` is bound to `session`. */
  ghost predicate BoundTo(s: State, id: string, session: string) {
    Lookup(s, id).Some? && Lookup(s, id).value.rec.session == session
  }

  ghost function SetEntry(s: State, e: Entry): State
    requires Lookup(s, e.rec.id).Some?
  {
    s.(nodes := s.nodes[Find(s.nodes, e.rec.id) := e])
  }

  /** The reply code of one operation; datagrams get no reply. */
  ghost function Reply(s: State, op: Op): int {
    match op
    case Hello(id, session) =>
      if Lookup(s, id).Some? then
        if BoundTo(s, id, session) then REPLY_OK else ERR_ID_IN_USE
      else if |s.nodes| < MAX_NODES then REPLY_OK else ERR_SERVER_FULL
    case Report(id, session, c, final) =>
      if !BoundTo(s, id, session) then ERR_UNKNOWN_NODE
      else if ReportAccepted(Lookup(s, id).value, c, final) then REPLY_OK else ERR_BAD_FORMAT
    case _ => REPLY_OK
  }

  /** The message an operation carries to the node it names; None when it carries none. */
  function MessageOf(op: Op): Option<Message> {
    match op
    case Report(_, _, c, final) => Some(Totals(c, final))
    case Telemetry(_, _, sequence, values) => Some(Data(Datagram(sequence, values)))
    case _ => None
  }

  ghost predicate Addressed(s: State, op: Op) {
    (op.Report? || op.Telemetry?) && BoundTo(s, op.id, op.session)
  }

  /** A datagram refused because the final report of its session excludes its sequence. */
  ghost predicate RefusedBySeal(s: State, op: Op) {
    op.Telemetry? && Addressed(s, op) && PastSeal(Lookup(s, op.id).value.rec, op.sequence)
  }

  ghost function Raised(s: State, op: Op): seq<Alert> {
    if Addressed(s, op) then AlertsOf(Lookup(s, op.id).value, MessageOf(op).value) else []
  }

  ghost function Step(s: State, op: Op): State {
    match op
    case Hello(id, session) =>
      if Lookup(s, id).None? && |s.nodes| < MAX_NODES then s.(nodes := s.nodes + [Fresh(id, session)]) else s
    case Report(id, session, c, final) =>
      if Addressed(s, op) then SetEntry(s, NodeStep(Lookup(s, id).value, Totals(c, final))) else s
    case Telemetry(id, session, sequence, values) =>
      var s1 := s.(total := s.total + 1);
      if !Addressed(s, op) then s1.(unknown := s.unknown + 1)
      else if RefusedBySeal(s, op) then s1.(invalid := s.invalid + 1)
      else
        var after := NodeStep(Lookup(s, id).value, Data(Datagram(sequence, values)));
        SetEntry(s1, after).(alerts := s.alerts + Raised(s, op))
    case Malformed => s.(invalid := s.invalid + 1)
  }

  ghost function Run(s: State, ops: seq<Op>): State {
    if ops == [] then s else Step(Run(s, ops[..|ops| - 1]), ops[|ops| - 1])
  }

  /** What the callers of the registry guarantee about their arguments. */
  predicate ValidOp(op: Op) {
    match op
    case Report(_, _, c, _) => c.attempts <= SESSION_LIMIT
    case Telemetry(_, _, sequence, values) => sequence < SESSION_LIMIT && |values| <= MAX_VARS
    case _ => true
  }

  lemma {:induction false} FindIs(nodes: seq<Entry>, id: string, i: nat)
    requires i < |nodes| && nodes[i].rec.id == id
    requires forall j | 0 <= j < i :: nodes[j].rec.id != id
    ensures Find(nodes, id) == i
  {
  }

  lemma {:induction false} LookupSet(s: State, e: Entry, id: string)
    requires Lookup(s, e.rec.id).Some?
    ensures Lookup(SetEntry(s, e), id) == if id == e.rec.id then Some(e) else Lookup(s, id)
  {
    var nodes := SetEntry(s, e).nodes;
    var i := Find(s.nodes, id);
    if i < |nodes| {
      FindIs(nodes, id, i);
    } else {
      assert forall j | 0 <= j < |nodes| :: nodes[j].rec.id != id;
    }
  }

  lemma {:induction false} LookupAppend(s: State, e: Entry, id: string)
    requires Lookup(s, e.rec.id).None?
    ensures Lookup(s.(nodes := s.nodes + [e]), id) == if id == e.rec.id then Some(e) else Lookup(s, id)
  {
    var nodes := s.nodes + [e];
    var i := Find(s.nodes, id);
    if i < |s.nodes| || id == e.rec.id {
      FindIs(nodes, id, i);
    } else {
      assert forall j | 0 <= j < |nodes| :: nodes[j].rec.id != id;
    }
  }

  /** Every operation changes at most the entry it names, and that one by NodeStep. */
  lemma {:induction false} StepIsLocal(s: State, op: Op, id: string)
    ensures Lookup(Step(s, op), id) ==
            if Addressed(s, op) && op.id == id then Some(NodeStep(Lookup(s, id).value, MessageOf(op).value))
            else if op.Hello? && op.id == id && Lookup(s, id).None? && |s.nodes| < MAX_NODES
            then Some(Fresh(id, op.session))
            else Lookup(s, id)
  {
    if Addressed(s, op) {
      LookupSet(s, NodeStep(Lookup(s, op.id).value, MessageOf(op).value), id);
    } else if op.Hello? && Lookup(s, op.id).None? && |s.nodes| < MAX_NODES {
      LookupAppend(s, Fresh(op.id, op.session), id);
    }
  }
}
