/** One node, its server and the network between them, as interleaved steps.

    The network keeps every datagram ever sent and may deliver any of them at any time,
    any number of times or never: that is loss, duplication, delay and reordering. A TCP
    request is bound to the process it was sent to and is handled at most once, possibly
    long after the node has given up on it. The server may restart at any moment, and
    other clients may do anything under other ids, and send reports and datagrams under the
    id of the node with any session but its own. */
module SessionProtocol {
  import opened Config
  import opened Prelude
  import opened NodeRecord
  import opened NodeHistory
  import opened TruthfulSession
  import opened RegistrySpec
  import opened DropSchedule
  import opened NodeSender

  /** The command line of the node. */
  datatype Setup = Setup(id: string, count: nat, drop: real)

  /** Where `control` stands; each WaitX means that X was requested on connection `conn`
      to server process `boot`. */
  datatype Phase =
    | Idle
    | WaitStatus(conn: nat, boot: nat)
    | WaitHello(conn: nat, boot: nat)
    | WaitReport(conn: nat, boot: nat)
    | Stopped

  datatype Client = Client(
    session: string, boot: Option<nat>, counters: Counters, log: seq<Attempt>,
    total: nat, ready: bool, stopping: bool, tries: nat, acked: bool, phase: Phase)

  datatype Packet = Packet(session: string, datagram: Datagram)
  datatype Request = Request(conn: nat, boot: nat, op: Op)
  datatype Answer = Answer(request: Request, code: int)

  datatype System = System(
    client: Client, server: State, boot: nat,
    network: set<Packet>, requests: set<Request>, answers: set<Answer>,
    nextConn: nat, sessions: set<string>)

  datatype Event =
    | Attempts(sendWorks: bool, values: seq<Measurement>)  // one turn of the sending loop
    | Stop                                                 // count reached, or SIGTERM
    | Opens                                                // control opens a connection
    | StatusArrives(newSession: string)
    | HelloAnswered(code: int)
    | ReportAnswered(code: int)
    | ControlFails                                         // an OSError inside control
    | ServerHandles(request: Request)
    | ServerReceives(packet: Packet)
    | OthersAct(op: Op)
    | Restart

  ghost predicate Initial(setup: Setup, s: System) {
    && 0.0 <= setup.drop <= 100.0
    && s.client.boot == None && s.client.log == [] && s.client.total == 0
    && s.client.counters.attempts == s.client.counters.sent == 0
    && s.client.counters.omitted == s.client.counters.errors == 0
    && !s.client.ready && !s.client.stopping && !s.client.acked && s.client.phase == Idle
    && s.server.nodes == []
    && s.network == {} && s.requests == {} && s.answers == {}
    && s.sessions == {s.client.session}
  }

  function HelloRequest(setup: Setup, c: Client, conn: nat, boot: nat): Request {
    Request(conn, boot, Hello(setup.id, c.session))
  }

  function ReportRequest(setup: Setup, c: Client, conn: nat, boot: nat): Request {
    Request(conn, boot, Report(setup.id, c.session, c.counters, c.stopping))
  }

  ghost predicate Enabled(setup: Setup, s: System, ev: Event) {
    var c := s.client;
    match ev
    case Attempts(_, _) => c.phase == Idle && !c.stopping && c.ready && c.total < setup.count
    case Stop => !c.stopping && c.phase != Stopped
    case Opens => c.phase == Idle && (c.stopping ==> c.tries > 0)
    case StatusArrives(newSession) => c.phase.WaitStatus? && newSession !in s.sessions
    case HelloAnswered(code) =>
      c.phase.WaitHello? && Answer(HelloRequest(setup, c, c.phase.conn, c.phase.boot), code) in s.answers
    case ReportAnswered(code) =>
      c.phase.WaitReport? && Answer(ReportRequest(setup, c, c.phase.conn, c.phase.boot), code) in s.answers
    case ControlFails => c.phase.WaitStatus? || c.phase.WaitHello? || c.phase.WaitReport?
    case ServerHandles(request) => request in s.requests && request.boot == s.boot
    case ServerReceives(packet) => packet in s.network
    case OthersAct(op) => op.Malformed? || op.id != setup.id || (!op.Hello? && op.session != s.client.session)
    case Restart => true
  }

  /** control raised: the loop tries again later, the final block up to three times. */
  function AfterFailure(c: Client): Client {
    if !c.stopping then c.(phase := Idle, ready := false)
    else if c.tries <= 1 then c.(phase := Stopped, tries := 0)
    else c.(phase := Idle, tries := c.tries - 1)
  }

  /** An ERR reply raises RuntimeError, which leaves the loop for the final block. */
  function AfterRejection(c: Client): Client {
    if c.stopping then AfterFailure(c) else c.(phase := Idle, stopping := true, tries := 3)
  }

  function FateOf(setup: Setup, sequence: nat, sendWorks: bool): Fate {
    if OmittedByDrop(sequence, setup.drop) then Omitted else if sendWorks then Sent else Failed
  }

  function Counted(c: Counters, fate: Fate): Counters {
    match fate
    case Sent => c.(attempts := c.attempts + 1, sent := c.sent + 1)
    case Omitted => c.(attempts := c.attempts + 1, omitted := c.omitted + 1)
    case Failed => c.(attempts := c.attempts + 1, errors := c.errors + 1)
  }

  function NewSession(c: Client, newSession: string): Client {
    c.(session := newSession, counters := Counters(0, 0, 0, 0), log := [])
  }

  /** What a packet of this node asks of the server. */
  function Arrival(setup: Setup, p: Packet): Op {
    Telemetry(setup.id, p.session, p.datagram.sequence, p.datagram.values)
  }

  ghost function Next(setup: Setup, s: System, ev: Event): System
    requires Enabled(setup, s, ev)
  {
    var c := s.client;
    match ev
    case Attempts(sendWorks, values) =>
      var fate := FateOf(setup, c.counters.attempts, sendWorks);
      s.(client := c.(counters := Counted(c.counters, fate), log := c.log + [Attempt(fate, values)],
                       total := c.total + 1, ready := fate != Failed),
         network := if fate != Sent then s.network
                    else s.network + {Packet(c.session, Datagram(c.counters.attempts, values))})
    case Stop => s.(client := c.(phase := Idle, stopping := true, tries := 3))
    case Opens => s.(client := c.(phase := WaitStatus(s.nextConn, s.boot)), nextConn := s.nextConn + 1)
    case StatusArrives(newSession) =>
      var met := c.phase.boot;
      var changed := c.boot.Some? && c.boot.value != met;
      var c1 := if changed then NewSession(c, newSession) else c;
      var c2 := c1.(boot := Some(met), phase := WaitHello(c.phase.conn, met));
      s.(client := c2, requests := s.requests + {HelloRequest(setup, c2, c.phase.conn, met)},
         sessions := s.sessions + {c2.session})
    case HelloAnswered(code) =>
      if code != REPLY_OK then s.(client := AfterRejection(c))
      else s.(client := c.(phase := WaitReport(c.phase.conn, c.phase.boot)),
              requests := s.requests + {ReportRequest(setup, c, c.phase.conn, c.phase.boot)})
    case ReportAnswered(code) =>
      if code != REPLY_OK then s.(client := AfterRejection(c))
      else s.(client := c.(phase := if c.stopping then Stopped else Idle, ready := true, acked := c.stopping))
    case ControlFails => s.(client := AfterFailure(c))
    case ServerHandles(request) =>
      s.(server := Step(s.server, request.op), requests := s.requests - {request},
         answers := s.answers + {Answer(request, Reply(s.server, request.op))})
    case ServerReceives(packet) =>
      s.(server := Step(s.server, Arrival(setup, packet)))
    case OthersAct(op) => s.(server := Step(s.server, op))
    case Restart => s.(server := EMPTY, boot := s.boot + 1)
  }

  ghost predicate Behaviour(setup: Setup, trace: seq<System>, events: seq<Event>) {
    && |trace| == |events| + 1
    && Initial(setup, trace[0])
    && forall i | 0 <= i < |events| ::
         Enabled(setup, trace[i], events[i]) && trace[i + 1] == Next(setup, trace[i], events[i])
  }

  // The invariant

  ghost predicate ClientInv(setup: Setup, s: System) {
    var c := s.client;
    && 0.0 <= setup.drop <= 100.0
    && WereTotals(c.log, c.counters) && c.counters.attempts == |c.log|
    && Scheduled(c.log, setup.drop)
    && c.session in s.sessions
    && (c.boot.Some? ==> c.boot.value <= s.boot)
    && (c.phase.WaitStatus? ==> c.phase.boot <= s.boot && (c.boot.Some? ==> c.boot.value <= c.phase.boot))
    && (c.phase.WaitHello? || c.phase.WaitReport? ==> c.boot == Some(c.phase.boot))
  }

  ghost predicate NetworkInv(s: System) {
    var c := s.client;
    && (forall p | p in s.network ::
          p.session in s.sessions && (p.session == c.session ==> Truthful(c.log, Data(p.datagram))))
    && (forall q: nat | q < |c.log| && c.log[q].fate == Sent ::
          Packet(c.session, Datagram(q, c.log[q].values)) in s.network)
  }

  /** A request that the running server could still handle. */
  ghost predicate LiveRequestOk(setup: Setup, s: System, r: Request) {
    && s.client.boot == Some(s.boot)
    && (r.op.Hello? || r.op.Report?) && r.op.id == setup.id && r.op.session == s.client.session
    && (r.op.Report? ==>
          && Truthful(s.client.log, Totals(r.op.counters, r.op.final))
          && (r.op.final ==> s.client.stopping)
          && Lookup(s.server, setup.id).Some?)
  }

  ghost predicate RequestsInv(setup: Setup, s: System) {
    forall r | r in s.requests :: r.boot <= s.boot && (r.boot == s.boot ==> LiveRequestOk(setup, s, r))
  }

  /** The server's record of this node, if it has one, is of the current session. */
  ghost predicate ServerInv(setup: Setup, s: System) {
    var found := Lookup(s.server, setup.id);
    found.Some? ==>
      && s.client.boot == Some(s.boot)
      && found.value.rec.session == s.client.session
      && Faithful(s.client.log, found.value)
      && (found.value.rec.final ==> s.client.stopping)
  }

  /** The connection number a waiting client is using. */
  ghost predicate UsedBy(s: System, conn: nat) {
    var p := s.client.phase;
    (p.WaitStatus? || p.WaitHello? || p.WaitReport?) && p.conn == conn
  }

  ghost predicate SealedOnServer(setup: Setup, s: System) {
    Lookup(s.server, setup.id).Some? && Lookup(s.server, setup.id).value.rec.final
  }

  /** What the node was told about the running server is still true of it. */
  ghost predicate AckInv(setup: Setup, s: System) {
    && (forall a | a in s.answers && a.request.op.Hello? :: a.code == REPLY_OK || a.code == ERR_SERVER_FULL)
    && (forall a | a in s.answers && a.request.boot == s.boot && a.request.op.Report? && a.request.op.final &&
                   a.code == REPLY_OK :: SealedOnServer(setup, s))
    && (s.client.acked ==>
          s.client.phase == Stopped && s.client.stopping &&
          (s.client.boot == Some(s.boot) ==> SealedOnServer(setup, s)))
  }

  ghost predicate AnswersInv(setup: Setup, s: System) {
    && (forall a | a in s.answers && a.request.boot == s.boot && a.request.op.Hello? && a.code == REPLY_OK ::
          Lookup(s.server, setup.id).Some?)
    && (s.client.phase.WaitReport? && s.client.phase.boot == s.boot ==> Lookup(s.server, setup.id).Some?)
    && (forall a | a in s.answers && a.request.op.Report? && UsedBy(s, a.request.conn) ::
          s.client.phase.WaitReport? && a.code == REPLY_OK)
  }

  /** On its current connection the node has asked for nothing but what it waits for. */
  ghost predicate ConnInv(setup: Setup, s: System) {
    var c := s.client;
    && (c.phase.WaitStatus? || c.phase.WaitHello? || c.phase.WaitReport? ==> c.phase.conn < s.nextConn)
    && (forall r | r in s.requests :: r.conn < s.nextConn)
    && (forall a | a in s.answers :: a.request.conn < s.nextConn && a.request.boot <= s.boot)
    && (forall r | r in s.requests && r.op.Report? && UsedBy(s, r.conn) ::
          c.phase.WaitReport? && r == ReportRequest(setup, c, c.phase.conn, c.phase.boot))
  }

  /** The part of the invariant about the node and the network. */
  ghost predicate NodeSide(setup: Setup, s: System) {
    ClientInv(setup, s) && NetworkInv(s) && ConnInv(setup, s)
  }

  /** The part about the server, what is asked of it and what it answered. */
  ghost predicate ServerSide(setup: Setup, s: System) {
    RequestsInv(setup, s) && ServerInv(setup, s) && AnswersInv(setup, s) && AckInv(setup, s)
  }

  ghost predicate Inv(setup: Setup, s: System) {
    NodeSide(setup, s) && ServerSide(setup, s)
  }

  // Each step keeps the invariant

  lemma {:induction false} FaithfulLater(log: seq<Attempt>, more: seq<Attempt>, e: Entry)
    requires Faithful(log, e) && !e.rec.final
    ensures Faithful(log + more, e)
  {
    CountOfPrefix(log, more, e.rec.attempts, Sent);
    CountOfPrefix(log, more, e.rec.attempts, Omitted);
    CountOfPrefix(log, more, e.rec.attempts, Failed);
    assert SentBelow(log, |log|) <= SentBelow(log + more, |log + more|);
  }

  lemma {:induction false} InitialInv(setup: Setup, s: System)
    requires Initial(setup, s)
    ensures Inv(setup, s)
  {
  }

  lemma {:induction false} AttemptCounted(log: seq<Attempt>, c: Counters, x: Attempt)
    requires WereTotals(log, c) && c.attempts == |log|
    ensures WereTotals(log + [x], Counted(c, x.fate)) && Counted(c, x.fate).attempts == |log| + 1
  {
    CountSnoc(log, x, Sent);
    CountSnoc(log, x, Omitted);
    CountSnoc(log, x, Failed);
  }

  lemma {:induction false} AttemptsKeepNodeSide(setup: Setup, s: System, ev: Event)
    requires Inv(setup, s) && Enabled(setup, s, ev) && ev.Attempts?
    ensures NodeSide(setup, Next(setup, s, ev))
  {
    var c, t := s.client, Next(setup, s, ev);
    var x := Attempt(FateOf(setup, c.counters.attempts, ev.sendWorks), ev.values);
    AttemptCounted(c.log, c.counters, x);
    assert t.client.log == c.log + [x];
    forall m | Truthful(c.log, m) && !(m.Totals? && m.final)
      ensures Truthful(t.client.log, m)
    {
      TruthfulLater(c.log, [x], m);
    }
    assert NetworkInv(t);
  }

  lemma {:induction false} AttemptsKeepServerSide(setup: Setup, s: System, ev: Event)
    requires Inv(setup, s) && Enabled(setup, s, ev) && ev.Attempts?
    ensures ServerSide(setup, Next(setup, s, ev))
  {
    var c, t := s.client, Next(setup, s, ev);
    var x := Attempt(FateOf(setup, c.counters.attempts, ev.sendWorks), ev.values);
    assert t.client.log == c.log + [x];
    forall m | Truthful(c.log, m) && !(m.Totals? && m.final)
      ensures Truthful(t.client.log, m)
    {
      TruthfulLater(c.log, [x], m);
    }
    if Lookup(s.server, setup.id).Some? {
      FaithfulLater(c.log, [x], Lookup(s.server, setup.id).value);
    }
    assert RequestsInv(setup, t);
  }

  lemma {:induction false} AttemptsKeepInv(setup: Setup, s: System, ev: Event)
    requires Inv(setup, s) && Enabled(setup, s, ev) && ev.Attempts?
    ensures Inv(setup, Next(setup, s, ev))
  {
    AttemptsKeepNodeSide(setup, s, ev);
    AttemptsKeepServerSide(setup, s, ev);
  }

  lemma {:induction false} PausesKeepNodeSide(setup: Setup, s: System, ev: Event)
    requires Inv(setup, s) && Enabled(setup, s, ev) && (ev.Stop? || ev.Opens? || ev.ControlFails?)
    ensures NodeSide(setup, Next(setup, s, ev))
  {
    var t := Next(setup, s, ev);
    assert ClientInv(setup, t) && NetworkInv(t) && ConnInv(setup, t);
  }

  lemma {:induction false} PausesKeepServerSide(setup: Setup, s: System, ev: Event)
    requires Inv(setup, s) && Enabled(setup, s, ev) && (ev.Stop? || ev.Opens? || ev.ControlFails?)
    ensures ServerSide(setup, Next(setup, s, ev))
  {
    var t := Next(setup, s, ev);
    assert RequestsInv(setup, t);
    assert ServerInv(setup, t);
    assert AnswersInv(setup, t) && AckInv(setup, t);
  }

  lemma {:induction false} PausesKeepInv(setup: Setup, s: System, ev: Event)
    requires Inv(setup, s) && Enabled(setup, s, ev) && (ev.Stop? || ev.Opens? || ev.ControlFails?)
    ensures Inv(setup, Next(setup, s, ev))
  {
    PausesKeepNodeSide(setup, s, ev);
    PausesKeepServerSide(setup, s, ev);
  }

  lemma {:induction false} HelloAcceptedKeepsInv(setup: Setup, s: System, ev: Event)
    requires Inv(setup, s) && Enabled(setup, s, ev) && (ev.HelloAnswered? && ev.code == REPLY_OK)
    ensures Inv(setup, Next(setup, s, ev))
  {
    var t := Next(setup, s, ev);
    assert ClientInv(setup, t);
    assert NetworkInv(t);
    assert RequestsInv(setup, t);
    assert ServerInv(setup, t);
    assert AnswersInv(setup, t) && AckInv(setup, t);
    assert ConnInv(setup, t);
  }

  lemma {:induction false} RejectionKeepsNodeSide(setup: Setup, s: System, ev: Event)
    requires Inv(setup, s) && Enabled(setup, s, ev) && (ev.HelloAnswered? && ev.code != REPLY_OK)
    ensures NodeSide(setup, Next(setup, s, ev))
  {
    var t := Next(setup, s, ev);
    assert ClientInv(setup, t) && NetworkInv(t) && ConnInv(setup, t);
  }

  lemma {:induction false} RejectionKeepsServerSide(setup: Setup, s: System, ev: Event)
    requires Inv(setup, s) && Enabled(setup, s, ev) && (ev.HelloAnswered? && ev.code != REPLY_OK)
    ensures ServerSide(setup, Next(setup, s, ev))
  {
    var t := Next(setup, s, ev);
    assert RequestsInv(setup, t);
    assert ServerInv(setup, t);
    assert AnswersInv(setup, t) && AckInv(setup, t);
  }

  lemma {:induction false} RejectionKeepsInv(setup: Setup, s: System, ev: Event)
    requires Inv(setup, s) && Enabled(setup, s, ev) && (ev.HelloAnswered? && ev.code != REPLY_OK)
    ensures Inv(setup, Next(setup, s, ev))
  {
    RejectionKeepsNodeSide(setup, s, ev);
    RejectionKeepsServerSide(setup, s, ev);
  }

  lemma {:induction false} ReportAnsweredKeepsInv(setup: Setup, s: System, ev: Event)
    requires Inv(setup, s) && Enabled(setup, s, ev) && (ev.ReportAnswered?)
    ensures Inv(setup, Next(setup, s, ev))
  {
    var t := Next(setup, s, ev);
    assert ClientInv(setup, t);
    assert NetworkInv(t);
    assert RequestsInv(setup, t);
    assert ServerInv(setup, t);
    assert AnswersInv(setup, t) && AckInv(setup, t);
    assert ConnInv(setup, t);
  }

  lemma {:induction false} StatusKeepsNodeSide(setup: Setup, s: System, ev: Event)
    requires Inv(setup, s) && Enabled(setup, s, ev) && ev.StatusArrives?
    ensures NodeSide(setup, Next(setup, s, ev))
  {
    var t := Next(setup, s, ev);
    assert ClientInv(setup, t) && NetworkInv(t) && ConnInv(setup, t);
  }

  lemma {:induction false} StatusKeepsServerSide(setup: Setup, s: System, ev: Event)
    requires Inv(setup, s) && Enabled(setup, s, ev) && ev.StatusArrives?
    ensures ServerSide(setup, Next(setup, s, ev))
  {
    var t := Next(setup, s, ev);
    assert RequestsInv(setup, t);
    assert ServerInv(setup, t);
    assert AnswersInv(setup, t) && AckInv(setup, t);
  }

  lemma {:induction false} StatusKeepsInv(setup: Setup, s: System, ev: Event)
    requires Inv(setup, s) && Enabled(setup, s, ev) && ev.StatusArrives?
    ensures Inv(setup, Next(setup, s, ev))
  {
    StatusKeepsNodeSide(setup, s, ev);
    StatusKeepsServerSide(setup, s, ev);
  }

  /** The request the node is waiting on, if the running server gets to handle it. */
  lemma {:induction false} AwaitedReportIsAccepted(setup: Setup, s: System)
    requires Inv(setup, s) && s.client.phase.WaitReport? && s.client.phase.boot == s.boot
    ensures var c := s.client;
            Reply(s.server, ReportRequest(setup, c, c.phase.conn, c.phase.boot).op) == REPLY_OK
  {
    var c, e := s.client, Lookup(s.server, setup.id).value;
    CurrentTotalsAccepted(c.log, e, c.counters, c.stopping);
  }

  lemma {:induction false} TruthfulReportKeepsServerInv(setup: Setup, s: System, op: Op)
    requires ServerInv(setup, s) && op.Report? && op.id == setup.id && op.session == s.client.session
    requires Truthful(s.client.log, Totals(op.counters, op.final)) && (op.final ==> s.client.stopping)
    ensures ServerInv(setup, s.(server := Step(s.server, op)))
    ensures Lookup(Step(s.server, op), setup.id).Some? <==> Lookup(s.server, setup.id).Some?
    ensures SealedOnServer(setup, s) || (op.final && Reply(s.server, op) == REPLY_OK) ==>
              SealedOnServer(setup, s.(server := Step(s.server, op)))
  {
    StepIsLocal(s.server, op, setup.id);
    if Lookup(s.server, setup.id).Some? {
      FaithfulStep(s.client.log, Lookup(s.server, setup.id).value, Totals(op.counters, op.final));
    }
  }

  lemma {:induction false} HelloKeepsServerInv(setup: Setup, s: System, op: Op)
    requires ServerInv(setup, s) && op.Hello? && op.id == setup.id && op.session == s.client.session
    requires s.client.boot == Some(s.boot)
    ensures ServerInv(setup, s.(server := Step(s.server, op)))
    ensures Lookup(s.server, setup.id).Some? ==> Lookup(Step(s.server, op), setup.id).Some?
    ensures SealedOnServer(setup, s) ==> SealedOnServer(setup, s.(server := Step(s.server, op)))
    ensures Reply(s.server, op) == REPLY_OK <==> Lookup(Step(s.server, op), setup.id).Some?
    ensures Reply(s.server, op) == REPLY_OK || Reply(s.server, op) == ERR_SERVER_FULL
  {
    StepIsLocal(s.server, op, setup.id);
    FaithfulFresh(s.client.log, setup.id, op.session);
  }

  lemma {:induction false} HandlingHelloKeepsNodeSide(setup: Setup, s: System, ev: Event)
    requires Inv(setup, s) && Enabled(setup, s, ev) && ev.ServerHandles? && ev.request.op.Hello?
    ensures NodeSide(setup, Next(setup, s, ev))
  {
    var t := Next(setup, s, ev);
    assert ClientInv(setup, t) && NetworkInv(t) && ConnInv(setup, t);
  }

  lemma {:induction false} HandlingHelloKeepsServerSide(setup: Setup, s: System, ev: Event)
    requires Inv(setup, s) && Enabled(setup, s, ev) && ev.ServerHandles? && ev.request.op.Hello?
    ensures ServerSide(setup, Next(setup, s, ev))
  {
    var t, op := Next(setup, s, ev), ev.request.op;
    assert LiveRequestOk(setup, s, ev.request);
    HelloKeepsServerInv(setup, s, op);
    assert ServerInv(setup, t);
    assert AnswersInv(setup, t);
    assert AckInv(setup, t);
    assert RequestsInv(setup, t);
  }

  lemma {:induction false} HandlingHelloKeepsInv(setup: Setup, s: System, ev: Event)
    requires Inv(setup, s) && Enabled(setup, s, ev) && ev.ServerHandles? && ev.request.op.Hello?
    ensures Inv(setup, Next(setup, s, ev))
  {
    HandlingHelloKeepsNodeSide(setup, s, ev);
    HandlingHelloKeepsServerSide(setup, s, ev);
  }

  lemma {:induction false} HandlingReportKeepsNodeSide(setup: Setup, s: System, ev: Event)
    requires Inv(setup, s) && Enabled(setup, s, ev) && ev.ServerHandles? && ev.request.op.Report?
    ensures NodeSide(setup, Next(setup, s, ev))
  {
    var t := Next(setup, s, ev);
    assert ClientInv(setup, t) && NetworkInv(t) && ConnInv(setup, t);
  }

  lemma {:induction false} HandlingReportKeepsAnswers(setup: Setup, s: System, ev: Event)
    requires Inv(setup, s) && Enabled(setup, s, ev) && ev.ServerHandles? && ev.request.op.Report?
    ensures AnswersInv(setup, Next(setup, s, ev)) && AckInv(setup, Next(setup, s, ev))
  {
    assert LiveRequestOk(setup, s, ev.request);
    TruthfulReportKeepsServerInv(setup, s, ev.request.op);
    if UsedBy(s, ev.request.conn) {
      AwaitedReportIsAccepted(setup, s);
    }
  }

  lemma {:induction false} HandlingReportKeepsRequests(setup: Setup, s: System, ev: Event)
    requires Inv(setup, s) && Enabled(setup, s, ev) && ev.ServerHandles? && ev.request.op.Report?
    ensures ServerInv(setup, Next(setup, s, ev)) && RequestsInv(setup, Next(setup, s, ev))
  {
    assert LiveRequestOk(setup, s, ev.request);
    TruthfulReportKeepsServerInv(setup, s, ev.request.op);
  }

  lemma {:induction false} HandlingReportKeepsServerSide(setup: Setup, s: System, ev: Event)
    requires Inv(setup, s) && Enabled(setup, s, ev) && ev.ServerHandles? && ev.request.op.Report?
    ensures ServerSide(setup, Next(setup, s, ev))
  {
    HandlingReportKeepsAnswers(setup, s, ev);
    HandlingReportKeepsRequests(setup, s, ev);
  }

  lemma {:induction false} HandlingReportKeepsInv(setup: Setup, s: System, ev: Event)
    requires Inv(setup, s) && Enabled(setup, s, ev) && ev.ServerHandles? && ev.request.op.Report?
    ensures Inv(setup, Next(setup, s, ev))
  {
    HandlingReportKeepsNodeSide(setup, s, ev);
    HandlingReportKeepsServerSide(setup, s, ev);
  }

  lemma {:induction false} DatagramKeepsServerInv(setup: Setup, s: System, p: Packet)
    requires ServerInv(setup, s) && NetworkInv(s) && p in s.network
    ensures var t := s.(server := Step(s.server, Arrival(setup, p)));
            && ServerInv(setup, t)
            && (Lookup(t.server, setup.id).Some? <==> Lookup(s.server, setup.id).Some?)
            && (SealedOnServer(setup, s) ==> SealedOnServer(setup, t))
  {
    var op := Arrival(setup, p);
    StepIsLocal(s.server, op, setup.id);
    if Addressed(s.server, op) {
      FaithfulStep(s.client.log, Lookup(s.server, setup.id).value, Data(p.datagram));
    }
  }

  lemma {:induction false} ArrivalKeepsInv(setup: Setup, s: System, ev: Event)
    requires Inv(setup, s) && Enabled(setup, s, ev) && ev.ServerReceives?
    ensures Inv(setup, Next(setup, s, ev))
  {
    var t := Next(setup, s, ev);
    DatagramKeepsServerInv(setup, s, ev.packet);
    assert ClientInv(setup, t) && NetworkInv(t) && ConnInv(setup, t);
    assert ServerInv(setup, t);
    assert AnswersInv(setup, t) && AckInv(setup, t);
    assert RequestsInv(setup, t);
  }

  lemma {:induction false} OthersKeepNodeSide(setup: Setup, s: System, ev: Event)
    requires Inv(setup, s) && Enabled(setup, s, ev) && (ev.OthersAct? || ev.Restart?)
    ensures NodeSide(setup, Next(setup, s, ev))
  {
    var t := Next(setup, s, ev);
    assert ClientInv(setup, t) && NetworkInv(t) && ConnInv(setup, t);
  }

  lemma {:induction false} OthersKeepServerSide(setup: Setup, s: System, ev: Event)
    requires Inv(setup, s) && Enabled(setup, s, ev) && (ev.OthersAct? || ev.Restart?)
    ensures ServerSide(setup, Next(setup, s, ev))
  {
    var t := Next(setup, s, ev);
    if ev.OthersAct? {
      StepIsLocal(s.server, ev.op, setup.id);
      assert Lookup(t.server, setup.id) == Lookup(s.server, setup.id);
    }
    assert ServerInv(setup, t);
    assert AnswersInv(setup, t) && AckInv(setup, t);
    assert RequestsInv(setup, t);
  }

  lemma {:induction false} OthersKeepInv(setup: Setup, s: System, ev: Event)
    requires Inv(setup, s) && Enabled(setup, s, ev) && (ev.OthersAct? || ev.Restart?)
    ensures Inv(setup, Next(setup, s, ev))
  {
    OthersKeepNodeSide(setup, s, ev);
    OthersKeepServerSide(setup, s, ev);
  }

  lemma {:induction false} NextKeepsInv(setup: Setup, s: System, ev: Event)
    requires Inv(setup, s) && Enabled(setup, s, ev)
    ensures Inv(setup, Next(setup, s, ev))
  {
    match ev
    case Attempts(_, _) => AttemptsKeepInv(setup, s, ev);
    case Stop => PausesKeepInv(setup, s, ev);
    case Opens => PausesKeepInv(setup, s, ev);
    case ControlFails => PausesKeepInv(setup, s, ev);
    case StatusArrives(_) => StatusKeepsInv(setup, s, ev);
    case HelloAnswered(code) =>
      if code == REPLY_OK {
        HelloAcceptedKeepsInv(setup, s, ev);
      } else {
        RejectionKeepsInv(setup, s, ev);
      }
    case ReportAnswered(_) => ReportAnsweredKeepsInv(setup, s, ev);
    case ServerHandles(request) =>
      assert LiveRequestOk(setup, s, request);
      if request.op.Hello? {
        HandlingHelloKeepsInv(setup, s, ev);
      } else {
        HandlingReportKeepsInv(setup, s, ev);
      }
    case ServerReceives(_) => ArrivalKeepsInv(setup, s, ev);
    case OthersAct(_) => OthersKeepInv(setup, s, ev);
    case Restart => OthersKeepInv(setup, s, ev);
  }

  lemma {:induction false} InvAlways(setup: Setup, trace: seq<System>, events: seq<Event>, i: nat)
    requires Behaviour(setup, trace, events) && i < |trace|
    ensures Inv(setup, trace[i])
  {
    if i == 0 {
      InitialInv(setup, trace[0]);
    } else {
      InvAlways(setup, trace, events, i - 1);
      NextKeepsInv(setup, trace[i - 1], events[i - 1]);
    }
  }

  // What holds in every reachable state

  /** The sequences the node really sent in its current session. */
  ghost function SentInSession(s: System): set<nat> {
    set p | p in s.network && p.session == s.client.session :: p.datagram.sequence
  }

  lemma {:induction false} SentIsLogged(setup: Setup, s: System)
    requires Inv(setup, s)
    ensures SentInSession(s) == SentBelow(s.client.log, |s.client.log|)
  {
    var log := s.client.log;
    forall q | q in SentBelow(log, |log|)
      ensures q in SentInSession(s)
    {
      assert Packet(s.client.session, Datagram(q, log[q].values)) in s.network;
    }
    forall q | q in SentInSession(s)
      ensures q in SentBelow(log, |log|)
    {
      var p :| p in s.network && p.session == s.client.session && p.datagram.sequence == q;
      assert Truthful(log, Data(p.datagram));
    }
  }

  /** In every reachable state, whatever the network and the server did, the server's
      estimate is the exact number of sequences the node sent below the reported attempts
      that have not arrived; it is never clamped; and after the final report it is 0
      exactly when everything sent has arrived. */
  lemma {:induction false} LossIsExactAlways(setup: Setup, trace: seq<System>, events: seq<Event>, i: nat)
    requires Behaviour(setup, trace, events) && i < |trace|
    requires Lookup(trace[i].server, setup.id).Some?
    ensures var s, e := trace[i], Lookup(trace[i].server, setup.id).value;
            && e.rec.session == s.client.session
            && e.rec.lost == |Below(SentInSession(s), e.rec.attempts) - e.seen|
            && e.rec.lost + |Below(e.seen, e.rec.attempts)| == e.rec.sent
            && (e.rec.final ==> (e.rec.lost == 0 <==> e.seen == SentInSession(s)))
  {
    var s, e := trace[i], Lookup(trace[i].server, setup.id).value;
    InvAlways(setup, trace, events, i);
    SentIsLogged(setup, s);
    LossIsExact(s.client.log, e);
    assert Below(SentInSession(s), e.rec.attempts) == SentBelow(s.client.log, e.rec.attempts);
  }

  /** No answer a node gets to its REPORT is an error, and its HELLO can only fail because
      the server is full: stale requests, retries and restarts never get in the way. */
  lemma {:induction false} HonestNodeIsNeverRefused(setup: Setup, trace: seq<System>, events: seq<Event>,
                                                    i: nat, code: int)
    requires Behaviour(setup, trace, events) && i < |trace|
    ensures Enabled(setup, trace[i], ReportAnswered(code)) ==> code == REPLY_OK
    ensures Enabled(setup, trace[i], HelloAnswered(code)) ==> code == REPLY_OK || code == ERR_SERVER_FULL
    ensures var s := trace[i];
            s.client.phase.WaitReport? && s.client.phase.boot == s.boot ==>
              Reply(s.server, ReportRequest(setup, s.client, s.client.phase.conn, s.client.phase.boot).op) == REPLY_OK
  {
    var s := trace[i];
    InvAlways(setup, trace, events, i);
    if s.client.phase.WaitReport? && s.client.phase.boot == s.boot {
      AwaitedReportIsAccepted(setup, s);
    }
  }

  /** At every loop head the counters add up and the omissions meet the schedule. */
  lemma {:induction false} ScheduleIsKeptAlways(setup: Setup, trace: seq<System>, events: seq<Event>, i: nat)
    requires Behaviour(setup, trace, events) && i < |trace|
    ensures var c := trace[i].client.counters;
            && c.Balanced() && c.omitted == Quota(c.attempts, setup.drop)
            && KeepsUp(c.omitted, c.attempts, setup.drop)
  {
    InvAlways(setup, trace, events, i);
    var log := trace[i].client.log;
    CountsAddUp(log, |log|);
    OmittedFollowsSchedule(log, |log|, setup.drop);
    OmissionsMeetQuota(|log|, setup.drop);
    OmissionsKeepUp(|log|, setup.drop);
  }

  // What the node does after failures and refusals

  lemma {:induction false} StoppingStep(setup: Setup, s: System, ev: Event)
    requires Enabled(setup, s, ev)
    ensures var c, d := s.client, Next(setup, s, ev).client;
            && (c.stopping ==> d.stopping && d.total == c.total)
            && ((ev.HelloAnswered? || ev.ReportAnswered?) && ev.code != REPLY_OK ==> d.stopping)
            && (!c.ready && d.ready ==> ev.ReportAnswered? && ev.code == REPLY_OK)
            && (ev.Attempts? && FateOf(setup, c.counters.attempts, ev.sendWorks) == Failed ==> !d.ready)
            && (ev.ControlFails? ==> d.stopping || !d.ready)
  {
  }

  ghost predicate Halted(s: System, total: nat) {
    s.client.stopping && s.client.total == total
  }

  lemma {:induction false} HaltedNext(setup: Setup, trace: seq<System>, events: seq<Event>, i: nat, total: nat)
    requires Behaviour(setup, trace, events) && i < |events| && Halted(trace[i], total)
    ensures Halted(trace[i + 1], total)
  {
    BehaviourStep(setup, trace, events, i);
    StoppingStep(setup, trace[i], events[i]);
  }

  /** Once the node stops, because its count is reached, on SIGTERM or after a refusal of its
      HELLO or REPORT, it never attempts a datagram again. */
  lemma {:induction false} StoppedStaysStopped(setup: Setup, trace: seq<System>, events: seq<Event>, i: nat, j: nat)
    requires Behaviour(setup, trace, events) && i <= j < |trace|
    requires trace[i].client.stopping
    ensures Halted(trace[j], trace[i].client.total)
  {
    if i < j {
      StoppedStaysStopped(setup, trace, events, i, j - 1);
      HaltedNext(setup, trace, events, j - 1, trace[i].client.total);
    }
  }

  lemma {:induction false} BehaviourStep(setup: Setup, trace: seq<System>, events: seq<Event>, i: nat)
    requires Behaviour(setup, trace, events) && i < |events|
    ensures Enabled(setup, trace[i], events[i]) && trace[i + 1] == Next(setup, trace[i], events[i])
  {
  }

  lemma {:induction false} RefusalStops(setup: Setup, trace: seq<System>, events: seq<Event>, i: nat)
    requires Behaviour(setup, trace, events) && i < |events|
    requires (events[i].HelloAnswered? || events[i].ReportAnswered?) && events[i].code != REPLY_OK
    ensures trace[i + 1].client.stopping
  {
    StoppingStep(setup, trace[i], events[i]);
  }

  lemma {:induction false} ReadyNeedsReport(setup: Setup, trace: seq<System>, events: seq<Event>, i: nat, j: nat)
    requires Behaviour(setup, trace, events) && i <= j < |trace|
    requires !trace[i].client.ready && trace[j].client.ready
    ensures exists k :: i <= k < j && events[k] == ReportAnswered(REPLY_OK)
  {
    StoppingStep(setup, trace[j - 1], events[j - 1]);
    if trace[j - 1].client.ready {
      ReadyNeedsReport(setup, trace, events, i, j - 1);
    } else {
      assert events[j - 1] == ReportAnswered(REPLY_OK);
    }
  }

  /** An event after which the node attempts nothing until a control exchange succeeds. */
  predicate Interrupts(setup: Setup, c: Client, ev: Event) {
    ev.ControlFails? || (ev.Attempts? && FateOf(setup, c.counters.attempts, ev.sendWorks) == Failed)
  }

  /** Before its first attempt, and between a failed control exchange or a failed send and
      the next attempt, the node has a whole control exchange with an accepted REPORT. */
  lemma {:induction false} AttemptsNeedControl(setup: Setup, trace: seq<System>, events: seq<Event>, i: nat, j: nat)
    requires Behaviour(setup, trace, events) && i < j < |events| && events[j].Attempts?
    ensures exists k :: 0 <= k < j && events[k] == ReportAnswered(REPLY_OK)
    ensures Interrupts(setup, trace[i].client, events[i]) ==>
              exists k :: i < k < j && events[k] == ReportAnswered(REPLY_OK)
  {
    ReadyNeedsReport(setup, trace, events, 0, j);
    StoppingStep(setup, trace[i], events[i]);
    if trace[i + 1].client.stopping {
      StoppedStaysStopped(setup, trace, events, i + 1, j);
    } else if !trace[i + 1].client.ready {
      ReadyNeedsReport(setup, trace, events, i + 1, j);
    }
  }

  /** How many connections were opened for the final report. */
  ghost function FinalOpens(trace: seq<System>, events: seq<Event>, n: nat): nat
    requires n <= |events| <= |trace|
  {
    if n == 0 then 0
    else FinalOpens(trace, events, n - 1) + if events[n - 1].Opens? && trace[n - 1].client.stopping then 1 else 0
  }

  /** How many more the node may open. */
  function OpensLeft(c: Client): int {
    if !c.stopping then 3 else if c.phase == Idle then c.tries else c.tries - 1
  }

  lemma {:induction false} OpensStep(setup: Setup, s: System, ev: Event)
    requires Enabled(setup, s, ev)
    ensures var c, d := s.client, Next(setup, s, ev).client;
            && (c.stopping && ev.Opens? ==> OpensLeft(d) <= OpensLeft(c) - 1)
            && (c.stopping && !ev.Opens? ==> OpensLeft(d) <= OpensLeft(c))
            && (!c.stopping ==> OpensLeft(d) <= 3)
            && (c.stopping && ev.Opens? ==> OpensLeft(c) >= 1)
  {
  }

  /** The final report is tried on at most three connections. */
  lemma {:induction false} FinalReportIsTriedThrice(setup: Setup, trace: seq<System>, events: seq<Event>, n: nat)
    requires Behaviour(setup, trace, events) && n <= |events|
    ensures FinalOpens(trace, events, n) <= 3
    ensures trace[n].client.stopping ==> FinalOpens(trace, events, n) + OpensLeft(trace[n].client) <= 3
    ensures !trace[n].client.stopping ==> FinalOpens(trace, events, n) == 0
  {
    if n > 0 {
      FinalReportIsTriedThrice(setup, trace, events, n - 1);
      OpensStep(setup, trace[n - 1], events[n - 1]);
      StoppingStep(setup, trace[n - 1], events[n - 1]);
    }
  }

  /** No counter ever exceeds the number of attempts the node was asked for, so with a count
      of at most 65536 every sequence and every total fits its field. */
  lemma {:induction false} CountersStayInCount(setup: Setup, trace: seq<System>, events: seq<Event>, i: nat)
    requires Behaviour(setup, trace, events) && i < |trace|
    ensures var c := trace[i].client;
            && c.counters.attempts <= c.total <= setup.count
            && c.counters.sent <= c.total && c.counters.omitted <= c.total && c.counters.errors <= c.total
  {
    AttemptsStayInTotal(setup, trace, events, i);
    ScheduleIsKeptAlways(setup, trace, events, i);
  }

  lemma {:induction false} AttemptsStayInTotal(setup: Setup, trace: seq<System>, events: seq<Event>, i: nat)
    requires Behaviour(setup, trace, events) && i < |trace|
    ensures trace[i].client.counters.attempts <= trace[i].client.total <= setup.count
  {
    if i > 0 {
      AttemptsStayInTotal(setup, trace, events, i - 1);
      TotalStep(setup, trace[i - 1], events[i - 1]);
    }
  }

  lemma {:induction false} TotalStep(setup: Setup, s: System, ev: Event)
    requires Enabled(setup, s, ev) && s.client.counters.attempts <= s.client.total <= setup.count
    ensures Next(setup, s, ev).client.counters.attempts <= Next(setup, s, ev).client.total <= setup.count
  {
  }

  /** final_ack is true only if the server, unless it has restarted since, has sealed the
      node's own final counters. */
  lemma {:induction false} AcknowledgedMeansSealed(setup: Setup, trace: seq<System>, events: seq<Event>, i: nat)
    requires Behaviour(setup, trace, events) && i < |trace|
    requires trace[i].client.acked && trace[i].client.boot == Some(trace[i].boot)
    ensures var found := Lookup(trace[i].server, setup.id);
            found.Some? && Sealed(found.value) && found.value.rec.ReportedExactly(trace[i].client.counters)
  {
    InvAlways(setup, trace, events, i);
  }
}
