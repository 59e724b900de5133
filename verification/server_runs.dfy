/** Whole runs of the server as its sockets see them: any datagrams and any command lines,
    in any order. */
module ServerRuns {
  import opened Config
  import opened Prelude
  import opened Decimal
  import opened Fields
  import opened NodeRecord
  import opened NodeHistory
  import opened NodeAlerts
  import opened RegistrySpec
  import opened RegistryLaws
  import opened LineReader
  import opened TelepProtocol
  import opened Measurements
  import opened SubscriberSpec
  import opened UdpTelemetry
  import opened ClientMessages
  import opened AlertDemux
  import opened TelepConnections
  import opened ListReplies
  import opened ListDelivery
  import opened ReplyTexts
  import opened AlertLimits
  import CommandServer

  /** A datagram, or the bytes of a command line before its LF. */
  datatype Input = Datagram(data: string) | Frame(bytes: string)

  /** What an input asks of the registry. */
  function OpsOf(input: Input): seq<Op> {
    match input
    case Datagram(data) => [OpOf(data)]
    case Frame(bytes) =>
      var request := CommandServer.ReadFrame(bytes);
      if request.Registry? then [request.op] else []
  }

  function Ops(inputs: seq<Input>): seq<Op> {
    if inputs == [] then [] else Ops(inputs[..|inputs| - 1]) + OpsOf(inputs[|inputs| - 1])
  }

  /** The server after these inputs. */
  ghost function After(inputs: seq<Input>): State {
    Run(EMPTY, Ops(inputs))
  }

  predicate SoundOp(op: Op) {
    && ValidOp(op)
    && (op.Malformed? || (IsNodeId(op.id) && IsSession(op.session)))
    && (op.Telemetry? ==> SoundValues(op.values))
  }

  lemma {:induction false} EveryOpIsSound(inputs: seq<Input>)
    ensures forall op | op in Ops(inputs) :: SoundOp(op)
  {
    if inputs != [] {
      EveryOpIsSound(inputs[..|inputs| - 1]);
      var input := inputs[|inputs| - 1];
      match input
      case Datagram(data) => AcceptedIsSound(data);
      case Frame(bytes) => CommandServer.RequestsAreValid(StripCr(bytes));
    }
  }

  // What holds of every registered node

  predicate SoundRecord(rec: TelemetryNode) {
    IsNodeId(rec.id) && IsSession(rec.session) && (rec.unique > 0 ==> SoundValues(rec.stored)) && rec.last >= -1 &&
    (rec.unique == 0 ==> rec.last == -1)
  }

  ghost predicate SoundState(s: State) {
    && (forall i | 0 <= i < |s.nodes| :: SoundRecord(s.nodes[i].rec))
    && (forall a | a in s.alerts :: SoundAlert(a) && IsAlert(AlertLine(a)) && Sendable(AlertLine(a)))
  }

  lemma {:induction false} RecordStaysSound(e: Entry, m: Message)
    requires SoundRecord(e.rec) && (m.Data? ==> SoundValues(m.datagram.values))
    ensures SoundRecord(NodeStep(e, m).rec)
  {
  }

  lemma {:induction false} NewAlertsAreSendable(id: string, stored: seq<Measurement>, values: seq<Measurement>)
    requires IsNodeId(id) && forall m | m in values :: InRange(m)
    ensures forall a | a in NewAlerts(id, stored, values) ::
              SoundAlert(a) && IsAlert(AlertLine(a)) && Sendable(AlertLine(a))
  {
    if values != [] {
      NewAlertsAreSendable(id, stored, values[..|values| - 1]);
      PushedLineIsAlert(id, values[|values| - 1]);
      KindIsKnown(values[|values| - 1].name);
      assert IsAnomalous(values[|values| - 1]) ==> values[|values| - 1].name in NAMES;
    }
  }

  lemma {:induction false} KindIsKnown(name: string)
    requires name in NAMES
    ensures KnownKind(Kind(name))
  {
  }

  lemma {:induction false} NodesStaySound(s: State, op: Op)
    requires SoundOp(op) && forall i | 0 <= i < |s.nodes| :: SoundRecord(s.nodes[i].rec)
    ensures forall i | 0 <= i < |Step(s, op).nodes| :: SoundRecord(Step(s, op).nodes[i].rec)
  {
    if Addressed(s, op) {
      RecordStaysSound(Lookup(s, op.id).value, MessageOf(op).value);
    }
  }

  lemma {:induction false} StateStaysSound(s: State, op: Op)
    requires SoundState(s) && SoundOp(op)
    ensures SoundState(Step(s, op))
  {
    NodesStaySound(s, op);
    AlertsGrowByRaised(s, op);
    if op.Telemetry? && Addressed(s, op) {
      NewAlertsAreSendable(op.id, Lookup(s, op.id).value.rec.stored, op.values);
    }
  }

  lemma {:induction false} RunIsSound(ops: seq<Op>)
    requires forall op | op in ops :: SoundOp(op)
    ensures SoundState(Run(EMPTY, ops))
  {
    if ops != [] {
      RunIsSound(ops[..|ops| - 1]);
      StateStaysSound(Run(EMPTY, ops[..|ops| - 1]), ops[|ops| - 1]);
    }
  }

  /** Whatever arrives on the sockets: ids and sessions are well formed and unique, what is
      stored is a valid set of measurements, and every alert fits into a line. */
  lemma {:induction false} EveryStateIsSound(inputs: seq<Input>)
    ensures SoundState(After(inputs)) && UniqueIds(After(inputs).nodes) && ValidIds(After(inputs).nodes)
    ensures |After(inputs).nodes| <= MAX_NODES
  {
    RegistrationIsWriteOnce(Ops(inputs), "", "");
    EveryOpIsSound(inputs);
    RunIsSound(Ops(inputs));
    IdsStayUnique(Ops(inputs));
  }

  /** Whatever arrives on the sockets, the alerts of one variable of one node are exactly
      the rising edges of its record-setting datagrams. */
  lemma {:induction false} AlertsAreRisingEdgesAlways(inputs: seq<Input>, id: string, name: string)
    requires Lookup(After(inputs), id).Some?
    ensures var s := After(inputs);
            OfKind(ByNode(s.alerts, id), Kind(name)) ==
            RisingEdges(id, name, Records(Delivered(Fresh(id, SessionOf(s, id)), Messages(Ops(inputs), id))))
  {
    EveryOpIsSound(inputs);
    AlertHistoryIsRisingEdges(Ops(inputs), id, name);
  }

  /** Whatever arrives on the sockets, a node's alerts are exactly the readings that rose
      above 40 (TEMP), 85 (HUM), 500 (POWER) and 7 (VIB), and the failures of STATUS, along
      its record-setting datagrams. */
  lemma {:induction false} AlertsCrossLimitsAlways(inputs: seq<Input>, id: string, name: string, limit: real)
    requires Lookup(After(inputs), id).Some? && IsLimit(name, limit)
    ensures var s := After(inputs);
            var rs := Records(Delivered(Fresh(id, SessionOf(s, id)), Messages(Ops(inputs), id)));
            && OfKind(ByNode(s.alerts, id), name + "_HIGH") == HighEdges(id, name, limit, rs)
            && OfKind(ByNode(s.alerts, id), "STATUS_FAIL") == FailEdges(id, rs)
  {
    EveryOpIsSound(inputs);
    AlertsCrossLimits(Ops(inputs), id, name, limit);
  }

  /** Whatever arrives on the sockets, a subscriber decodes each alert it is pushed as the
      word ALERT, the node, the kind and the value, which it reads back in hundredths. */
  lemma {:induction false} AlertsAreToldAlways(inputs: seq<Input>, a: Alert)
    requires a in After(inputs).alerts
    ensures DecodeMessage(AlertLine(a)) == ["ALERT", a.id, a.kind, ValueText(a.value)]
    ensures ParseDecimal(ValueText(a.value)) == Some(Rounded(a.value)) && -0.005 <= Rounded(a.value) - a.value <= 0.005
  {
    EveryStateIsSound(inputs);
    AlertIsTold(a);
    RoundedIsNearest(a.value);
  }

  /** What take_alerts has handed out on a connection on which alerts were pushed, when no
      reply line looks like one: row after row, each pushed alert taken apart. */
  lemma {:induction false} HandedOutAlways(inputs: seq<Input>, alerts: seq<Alert>, wire: seq<Written>, i: nat)
    requires (forall a | a in alerts :: a in After(inputs).alerts) && i < |alerts|
    requires PushesOf(wire) == PushedLines(alerts) && NoAlertAmong(RepliesOf(wire)) && PushesAreAlerts(wire)
    ensures var rows := DecodeEach(Alerts(LinesOf(wire)));
            |rows| == |alerts| && rows[i] == ["ALERT", alerts[i].id, alerts[i].kind, ValueText(alerts[i].value)]
  {
    EveryStateIsSound(inputs);
    SeparationIsExact(wire);
    HandedOutAlerts(alerts, i);
  }

  /** Whatever arrives on the sockets, the client of STATS finds the ten counters of each
      node, under their names, in the third part of its row. */
  lemma {:induction false} StatsAreToldAlways(inputs: seq<Input>, i: nat)
    requires i < |After(inputs).nodes| && FitsLong(After(inputs).nodes[i].rec)
    ensures var rec := After(inputs).nodes[i].rec;
            && DecodeMessage(StatsRow(rec)) == [rec.id, rec.session, StatsText(rec)]
            && DictOf(StatsFields(rec), DecodeMeasurements(StatsText(rec)))
  {
    EveryStateIsSound(inputs);
    StatsRowIsTold(After(inputs).nodes[i].rec);
  }

  // The commands of a node, end to end

  function FlagText(final: bool): string {
    if final then "1" else "0"
  }

  function ReportParts(id: string, session: string, c: Counters, final: bool): seq<string> {
    ["REPORT", id, session, Digits(c.attempts), Digits(c.sent), Digits(c.omitted), Digits(c.errors), FlagText(final)]
  }

  predicate Reportable(c: Counters) {
    c.attempts <= 65536 && c.sent <= 65536 && c.omitted <= 65536 && c.errors <= 65536
  }

  lemma {:induction false} CounterText(n: nat)
    requires n <= SESSION_LIMIT
    ensures PlainPart(Digits(n)) && ParseUint(Digits(n), SESSION_LIMIT) == Some(n)
  {
    assert Power10(3) == 1000 && Power10(5) == 100000;
    DigitsAreShort(n, 5);
    NumberOfDigits(n);
  }

  lemma {:induction false} FlagIsRead(final: bool)
    ensures PlainPart(FlagText(final)) && ParseUint(FlagText(final), 1) == Some(if final then 1 else 0)
  {
    NumberOfDigits(if final then 1 else 0);
    assert FlagText(final) == Digits(if final then 1 else 0);
  }

  /** A message of up to nine plain parts is encoded, and the server reads its parts. */
  lemma {:induction false} PlainMessageArrives(parts: seq<string>)
    requires 1 <= |parts| <= MAX_ARGS + 1 && forall p | p in parts :: PlainPart(p)
    ensures EncodeMessage(parts).Some?
    ensures var frame := EncodeMessage(parts).value;
            CommandServer.ReadFrame(frame[..|frame| - 1]) == CommandServer.ReadParts(parts)
  {
    JoinIsShort(parts, SEPARATOR, 96);
    var line := Join(parts, SEPARATOR);
    forall c | c in line
      ensures Graphic(c)
    {
      CharsOfJoin(parts, SEPARATOR, c);
    }
    assert forall p | p in parts :: Encodable(p);
    ServerParsesEncoded(parts);
    assert forall p | p in parts :: forall c | c in p :: Graphic(c);
  }

  /** Every REPORT a node sends reaches the registry as exactly those totals. */
  lemma {:induction false} ReportRoundTrip(id: string, session: string, c: Counters, final: bool)
    requires IsNodeId(id) && IsSession(session) && Reportable(c)
    ensures EncodeMessage(ReportParts(id, session, c, final)).Some?
    ensures var frame := EncodeMessage(ReportParts(id, session, c, final)).value;
            OpsOf(Frame(frame[..|frame| - 1])) == [Report(id, session, c, final)]
  {
    var parts := ReportParts(id, session, c, final);
    assert PlainPart("REPORT") && PlainPart(id) && PlainPart(session);
    CounterText(c.attempts);
    CounterText(c.sent);
    CounterText(c.omitted);
    CounterText(c.errors);
    FlagIsRead(final);
    PlainMessageArrives(parts);
    ReportIsRead(id, session, c, final);
  }

  lemma {:induction false} ReportIsRead(id: string, session: string, c: Counters, final: bool)
    requires IsNodeId(id) && IsSession(session) && Reportable(c)
    ensures CommandServer.ReadParts(ReportParts(id, session, c, final)) ==
            CommandServer.Registry(Report(id, session, c, final))
  {
    var texts := ReportParts(id, session, c, final)[3..];
    CounterText(c.attempts);
    CounterText(c.sent);
    CounterText(c.omitted);
    CounterText(c.errors);
    FlagIsRead(final);
    assert texts == [Digits(c.attempts), Digits(c.sent), Digits(c.omitted), Digits(c.errors), FlagText(final)];
    assert CommandServer.AreNumbers(texts, 5);
  }

  /** Every HELLO a node sends reaches the registry. */
  lemma {:induction false} HelloRoundTrip(id: string, session: string)
    requires IsNodeId(id) && IsSession(session)
    ensures EncodeMessage(["HELLO", id, session]).Some?
    ensures var frame := EncodeMessage(["HELLO", id, session]).value;
            OpsOf(Frame(frame[..|frame| - 1])) == [Hello(id, session)]
  {
    assert PlainPart("HELLO") && PlainPart(id) && PlainPart(session);
    PlainMessageArrives(["HELLO", id, session]);
  }

  /** The parts of the message that asks for `request`. */
  function PartsOf(request: CommandServer.Request): seq<string>
    requires CanBeAsked(request)
  {
    match request
    case Bye => ["BYE"]
    case GetStatus => ["GET_STATUS"]
    case GetNodes => ["GET_NODES"]
    case GetAlerts => ["GET_ALERTS"]
    case Stats(None) => ["STATS"]
    case Stats(Some(id)) => ["STATS", id]
    case GetLast(id) => ["GET_LAST", id]
    case Subscribe => ["SUBSCRIBE"]
    case Registry(Hello(id, session)) => ["HELLO", id, session]
    case Registry(Report(id, session, c, final)) => ReportParts(id, session, c, final)
  }

  predicate CanBeAsked(request: CommandServer.Request) {
    match request
    case Refused(_) => false
    case Stats(id) => id.Some? ==> IsNodeId(id.value)
    case GetLast(id) => IsNodeId(id)
    case Registry(Hello(id, session)) => IsNodeId(id) && IsSession(session)
    case Registry(Report(id, session, c, _)) => IsNodeId(id) && IsSession(session) && Reportable(c)
    case Registry(_) => false
    case _ => true
  }

  lemma {:induction false} PartsAreRead(request: CommandServer.Request)
    requires CanBeAsked(request)
    ensures CommandServer.ReadParts(PartsOf(request)) == request
  {
    if request.Registry? && request.op.Report? {
      ReportIsRead(request.op.id, request.op.session, request.op.counters, request.op.final);
    }
  }

  lemma {:induction false} WordsArePlain(word: string)
    requires word in {"BYE", "GET_STATUS", "GET_NODES", "GET_ALERTS", "STATS", "GET_LAST", "SUBSCRIBE", "HELLO"}
    ensures PlainPart(word)
  {
  }

  lemma {:induction false} PartsCanBeSent(request: CommandServer.Request)
    requires CanBeAsked(request) && !(request.Registry? && request.op.Report?)
    ensures 1 <= |PartsOf(request)| <= 3 && forall p | p in PartsOf(request) :: PlainPart(p)
  {
    WordsArePlain(PartsOf(request)[0]);
  }

  /** Every request a client can make is understood by the server as that request. */
  lemma {:induction false} RequestRoundTrip(request: CommandServer.Request)
    requires CanBeAsked(request)
    ensures EncodeMessage(PartsOf(request)).Some?
    ensures var frame := EncodeMessage(PartsOf(request)).value;
            CommandServer.ReadFrame(frame[..|frame| - 1]) == request
  {
    if request.Registry? && request.op.Report? {
      ReportRoundTrip(request.op.id, request.op.session, request.op.counters, request.op.final);
    } else {
      PartsCanBeSent(request);
      PlainMessageArrives(PartsOf(request));
      PartsAreRead(request);
    }
  }

  /** The parts of a REPORT, its numbers spelled in any way. */
  predicate SpellsReport(parts: seq<string>, id: string, session: string, c: Counters, final: bool) {
    && |parts| == 8 && parts[0] == "REPORT" && parts[1] == id && parts[2] == session
    && Denotes(parts[3], c.attempts) && Denotes(parts[4], c.sent)
    && Denotes(parts[5], c.omitted) && Denotes(parts[6], c.errors)
    && Denotes(parts[7], if final then 1 else 0)
  }

  lemma {:induction false} NumbersAreRead(parts: seq<string>, i: nat, n: nat)
    requires |parts| == 8 && i < 5
    ensures ParseUint(parts[3..][i], CommandServer.Limit(i)) == Some(n) <==>
            Denotes(parts[3 + i], n) && n <= CommandServer.Limit(i)
    ensures CommandServer.IsNumber(parts[3..], i) <==> ParseUint(parts[3..][i], CommandServer.Limit(i)).Some?
  {
    DenotesIsParsed(parts[3 + i], n, CommandServer.Limit(i));
  }

  /** A line is taken for a REPORT of these totals if and only if it spells them. */
  lemma {:induction false} ReportIsReadExactly(parts: seq<string>, id: string, session: string,
                                               c: Counters, final: bool)
    requires parts != [] && IsNodeId(id) && IsSession(session) && Reportable(c)
    ensures CommandServer.ReadParts(parts) == CommandServer.Registry(Report(id, session, c, final)) <==>
            SpellsReport(parts, id, session, c, final)
  {
    if |parts| == 8 {
      NumbersAreRead(parts, 0, c.attempts);
      NumbersAreRead(parts, 1, c.sent);
      NumbersAreRead(parts, 2, c.omitted);
      NumbersAreRead(parts, 3, c.errors);
      NumbersAreRead(parts, 4, if final then 1 else 0);
      if SpellsReport(parts, id, session, c, final) {
        assert CommandServer.AreNumbers(parts[3..], 5);
      }
    }
  }

  /** Conversely, a line is taken for a request only if it is the text of that request; a
      REPORT may have leading zeros in its numbers, but nothing else. */
  lemma {:induction false} OnlyItsOwnText(parts: seq<string>)
    requires parts != []
    ensures var request := CommandServer.ReadParts(parts);
            || request.Refused?
            || (CanBeAsked(request) && PartsOf(request) == parts)
            || (request.Registry? && request.op.Report? && CanBeAsked(request) &&
                SpellsReport(parts, request.op.id, request.op.session, request.op.counters, request.op.final))
  {
    var request := CommandServer.ReadParts(parts);
    if request.Registry? && request.op.Report? {
      var op := request.op;
      ReportIsReadExactly(parts, op.id, op.session, op.counters, op.final);
    }
  }

  predicate IsCommandWord(word: string) {
    || word == "HELLO" || word == "REPORT" || word == "GET_LAST" || word == "STATS" || word == "BYE"
    || word == "GET_STATUS" || word == "GET_NODES" || word == "GET_ALERTS" || word == "SUBSCRIBE"
  }

  /** Which error a frame gets: TOO_LONG for 1024 bytes or more, UNKNOWN_CMD for a well-formed
      message that begins with no command word, BAD_FORMAT for everything else refused. */
  lemma {:induction false} RefusalCodes(bytes: string)
    ensures var request, text := CommandServer.ReadFrame(bytes), StripCr(bytes);
            && (request == CommandServer.Refused(103) <==> |bytes| >= 1024)
            && (request == CommandServer.Refused(101) <==>
                  |bytes| < 1024 && IsMessage(text) && !IsCommandWord(Split(text, '|')[0]))
            && (request.Refused? ==> request.code == 100 || request.code == 101 || request.code == 103)
  {
    var text := StripCr(bytes);
    if |bytes| < 1024 {
      GraphicIsPrintable(text);
      PartsRefused(Split(text, SEPARATOR));
    }
  }

  lemma {:induction false} GraphicIsPrintable(text: string)
    ensures IsMessage(text) ==> forall c | c in text :: Printable(c)
  {
  }

  lemma {:induction false} PartsRefused(parts: seq<string>)
    requires parts != []
    ensures var request := CommandServer.ReadParts(parts);
            && (request == CommandServer.Refused(101) <==> !IsCommandWord(parts[0]))
            && (request.Refused? ==> request.code == 100 || request.code == 101)
  {
  }

  /** One CR before the LF makes no difference. */
  lemma {:induction false} CrIsOptional(line: string)
    requires |line| <= 1022 && (line != "" ==> line[|line| - 1] != '\r')
    ensures CommandServer.ReadFrame(line + "\r") == CommandServer.ReadFrame(line)
  {
    assert StripCr(line + "\r") == line == StripCr(line);
  }

  // GET_LAST and the lists, end to end

  /** In every run, the client that asks for a node with data decodes exactly its stored
      variables, each with the text the server printed. */
  lemma {:induction false} LastMeasurementRoundTrip(inputs: seq<Input>, id: string, seen: int)
    requires var found := Lookup(After(inputs), id); found.Some? && found.value.rec.unique > 0
    ensures var rec := Lookup(After(inputs), id).value.rec;
            var parts := DecodeMessage(CommandServer.LastLine(rec, seen));
            && |parts| == 4 && parts[0] == "OK" && parts[1] == id && parts[2] == IntText(seen)
            && DecodesTo(parts[3], rec.stored)
  {
    var rec := Lookup(After(inputs), id).value.rec;
    RegisteredIsSound(inputs, id);
    LastLineParts(rec, seen);
    DecodedFieldIsEachPair(rec.stored);
  }

  lemma {:induction false} RegisteredIsSound(inputs: seq<Input>, id: string)
    requires Lookup(After(inputs), id).Some?
    ensures var rec := Lookup(After(inputs), id).value.rec; SoundRecord(rec) && rec.id == id
  {
    EveryStateIsSound(inputs);
    var nodes := After(inputs).nodes;
    assert SoundRecord(nodes[Find(nodes, id)].rec);
  }

  lemma {:induction false} LastLineParts(rec: TelemetryNode, seen: int)
    requires SoundRecord(rec) && rec.unique > 0
    ensures DecodeMessage(CommandServer.LastLine(rec, seen)) == ["OK", rec.id, IntText(seen), FieldText(rec.stored)]
  {
    var field := FieldText(rec.stored);
    FieldIsPlain(rec.stored);
    StampIsPlain(seen);
    assert PartChar('O') && PartChar('K') && !PartChar('|');
    assert "OK" + "|" == "OK|" && field[|field| - 1] in field;
    DecodeFour("OK", rec.id, IntText(seen), field);
  }

  lemma {:induction false} StampIsPlain(seen: int)
    ensures '|' !in IntText(seen)
  {
    assert AllDigits(Digits(if seen < 0 then -seen else seen));
  }

  /** The pushed lines of a connection are broadcasts of these alerts. */
  predicate PushesComeFrom(alerts: seq<Alert>, wire: seq<Written>) {
    forall w | w in wire && w.Push? :: exists a :: a in alerts && w.line == AlertLine(a)
  }

  /** In every run, GET_NODES gives the client every registered node, and every alert pushed
      meanwhile stays apart, if and only if no node is registered under the name ALERT. */
  lemma {:induction false} NodeListAlways(inputs: seq<Input>, later: seq<Input>, activity: seq<string>,
                                          wire: seq<Written>, trouble: Problem)
    requires |activity| >= |After(inputs).nodes|
    requires RepliesOf(wire) == Listing(NodeRows(After(inputs).nodes, activity))
    requires PushesComeFrom(After(inputs + later).alerts, wire)
    ensures var nodes := After(inputs).nodes;
            var named := Lookup(After(inputs), "ALERT").Some?;
            var all := DecodeEach([Header(|nodes|)] + NodeRows(nodes, activity));
            && (AlertDemux.Answer("GET_NODES", Replies(LinesOf(wire)), trouble) == Ok(all) <==> !named)
            && (Alerts(LinesOf(wire)) == PushesOf(wire) <==> !named)
  {
    EveryStateIsSound(inputs);
    EveryStateIsSound(inputs + later);
    NodeListIsDelivered(After(inputs), activity, wire, trouble);
  }

  // From the bytes on a socket

  lemma {:induction false} RowsAreSendable(nodes: seq<Entry>, activity: seq<string>)
    requires ValidIds(nodes) && |nodes| <= |activity|
    requires forall a | a in activity :: PlainText(a) && |a| <= 1000
    ensures forall l | l in NodeRows(nodes, activity) :: Sendable(l)
  {
    forall l | l in NodeRows(nodes, activity)
      ensures Sendable(l)
    {
      var i :| 0 <= i < |nodes| && l == NodeRow(nodes[i].rec, activity[i]);
      assert activity[i] in activity;
      PlainTextConcat(nodes[i].rec.id, "|");
      PlainTextConcat(nodes[i].rec.id + "|", activity[i]);
    }
  }

  lemma {:induction false} HeaderIsSendable(n: nat)
    requires n <= MAX_NODES
    ensures Sendable(Header(n)) && Sendable(END_OF_LIST)
  {
    CounterText(n);
    PlainTextConcat("OK|", Digits(n));
  }

  lemma {:induction false} ListingIsSendable(rows: seq<string>)
    requires |rows| <= MAX_NODES && forall l | l in rows :: Sendable(l)
    ensures forall l | l in Listing(rows) :: Sendable(l)
  {
    HeaderIsSendable(|rows|);
  }

  lemma {:induction false} RepliesComeFromWire(wire: seq<Written>)
    ensures forall w | w in wire && w.Reply? :: w.line in RepliesOf(wire)
  {
    if wire != [] {
      RepliesComeFromWire(wire[1..]);
      assert forall w :: w in wire <==> w == wire[0] || w in wire[1..];
    }
  }

  lemma {:induction false} WireIsSendable(s: State, wire: seq<Written>)
    requires SoundState(s) && PushesComeFrom(s.alerts, wire)
    requires forall l | l in RepliesOf(wire) :: Sendable(l)
    ensures forall w | w in wire :: Sendable(w.line)
  {
    RepliesComeFromWire(wire);
  }

  /** From bytes to rows: whatever reached the server, however alerts fall among the lines
      of the reply and however recv cuts the bytes, send_one_request("GET_NODES") on a fresh
      connection returns the header and every registered node if and only if no node is
      registered under the name ALERT. */
  lemma {:induction false} NodeListFromBytes(inputs: seq<Input>, later: seq<Input>, activity: seq<string>,
                                             wire: seq<Written>, incoming: seq<Ready>)
    requires |activity| >= |After(inputs).nodes| && forall a | a in activity :: PlainText(a) && |a| <= 1000
    requires RepliesOf(wire) == Listing(NodeRows(After(inputs).nodes, activity))
    requires PushesComeFrom(After(inputs + later).alerts, wire)
    requires Future(incoming) == Wire(LinesOf(wire))
    ensures var nodes := After(inputs).nodes;
            var all := DecodeEach([Header(|nodes|)] + NodeRows(nodes, activity));
            FreshAnswer("GET_NODES", incoming) == Ok(all) <==> Lookup(After(inputs), "ALERT").None?
  {
    EveryStateIsSound(inputs);
    EveryStateIsSound(inputs + later);
    RowsAreSendable(After(inputs).nodes, activity);
    ListingIsSendable(NodeRows(After(inputs).nodes, activity));
    WireIsSendable(After(inputs + later), wire);
    SocketCarriesLines(wire, incoming);
    assert "" + Future(incoming) == Future(incoming);
    NodeListAlways(inputs, later, activity, wire, Stop(incoming));
  }
}
