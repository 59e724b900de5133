/** server/tcp_command_server.c: from the bytes of one frame to what the registry does and
    what is answered. */
module CommandServer {
  import opened Config
  import opened Prelude
  import opened Decimal
  import opened Fields
  import opened NodeRecord
  import opened RegistrySpec
  import opened LineReader
  import opened TelepProtocol
  import opened Measurements
  import opened ListReplies
  import NodeRegistry
  import AlertSubscribers
  import SubscriberSpec

  /** What a line asks for. */
  datatype Request =
    | Refused(code: nat)
    | Registry(op: Op)
    | Bye
    | GetStatus
    | GetNodes
    | GetAlerts
    | Stats(id: Option<string>)
    | GetLast(node: string)
    | Subscribe

  /** How many arguments a command takes; None for an unknown one. STATS takes none or one. */
  function Expected(command: string, args: nat): Option<nat> {
    if command == "HELLO" then Some(2)
    else if command == "REPORT" then Some(7)
    else if command == "GET_LAST" then Some(1)
    else if command == "STATS" then Some(if args <= 1 then args else 0)
    else if command == "BYE" || command == "GET_STATUS" || command == "GET_NODES" ||
            command == "GET_ALERTS" || command == "SUBSCRIBE" then Some(0)
    else None
  }

  /** The five numbers of a REPORT; the last one is the final flag. */
  function Limit(i: nat): nat {
    if i == 4 then 1 else SESSION_LIMIT
  }

  predicate AreNumbers(texts: seq<string>, n: nat)
    requires n <= |texts|
  {
    forall i | 0 <= i < n :: IsNumber(texts, i)
  }

  predicate IsNumber(texts: seq<string>, i: nat)
    requires i < |texts|
  {
    ParseUint(texts[i], Limit(i)).Some?
  }

  lemma {:induction false} AreNumbersStep(texts: seq<string>, n: nat)
    requires n < |texts|
    ensures AreNumbers(texts, n + 1) <==> AreNumbers(texts, n) && IsNumber(texts, n)
  {
  }

  function NumberAt(texts: seq<string>, i: nat): nat
    requires i < |texts|
  {
    match ParseUint(texts[i], Limit(i)) case Some(n) => n case None => 0
  }

  function ReadReport(parts: seq<string>): Request
    requires |parts| == 8
  {
    var texts := parts[3..];
    if IsNodeId(parts[1]) && IsSession(parts[2]) && AreNumbers(texts, 5) then
      var c := Counters(NumberAt(texts, 0), NumberAt(texts, 1), NumberAt(texts, 2), NumberAt(texts, 3));
      Registry(Report(parts[1], parts[2], c, NumberAt(texts, 4) == 1))
    else Refused(ERR_BAD_FORMAT)
  }

  function ReadHello(parts: seq<string>): Request
    requires |parts| == 3
  {
    if IsNodeId(parts[1]) && IsSession(parts[2]) then Registry(Hello(parts[1], parts[2])) else Refused(ERR_BAD_FORMAT)
  }

  function ReadParts(parts: seq<string>): Request
    requires parts != []
  {
    var command, args := parts[0], |parts| - 1;
    match Expected(command, args)
    case None => Refused(ERR_UNKNOWN_COMMAND)
    case Some(n) =>
      if args != n then Refused(ERR_BAD_FORMAT)
      else if command == "STATS" then
        if args == 0 then Stats(None)
        else if IsNodeId(parts[1]) then Stats(Some(parts[1])) else Refused(ERR_BAD_FORMAT)
      else if command == "REPORT" then ReadReport(parts)
      else if command == "BYE" then Bye
      else if command == "GET_STATUS" then GetStatus
      else if command == "GET_NODES" then GetNodes
      else if command == "GET_ALERTS" then GetAlerts
      else if command == "SUBSCRIBE" then Subscribe
      else if command == "HELLO" then ReadHello(parts)
      else if IsNodeId(parts[1]) then GetLast(parts[1]) else Refused(ERR_BAD_FORMAT)
  }

  function ReadLine(line: string): Request {
    if IsMessage(line) then ReadParts(Split(line, SEPARATOR)) else Refused(ERR_BAD_FORMAT)
  }

  /** What the bytes before an LF ask for: the line reader's verdict comes first. */
  function ReadFrame(bytes: string): Request {
    if Verdict(bytes, MAX_LINE) == TOO_LONG then Refused(ERR_TOO_LONG)
    else if Verdict(bytes, MAX_LINE) == INVALID then Refused(ERR_BAD_FORMAT)
    else ReadLine(StripCr(bytes))
  }

  // What is answered

  /** Everything in a reply that depends on clocks and on other threads. */
  datatype Clock = Clock(activity: seq<string>, stamps: seq<int>, status: string, seen: int) {
    predicate Valid() {
      |activity| == MAX_NODES && |stamps| == MAX_ALERTS
    }
  }

  /** reply_last_measurement for a node that is registered. */
  function LastLine(rec: TelemetryNode, seen: int): string {
    if rec.unique == 0 then "OK|" + rec.id + "|0|NO_DATA"
    else "OK|" + rec.id + "|" + IntText(seen) + "|" + FieldText(rec.stored)
  }

  ghost function LastReply(s: State, id: string, seen: int): seq<string> {
    match Lookup(s, id)
    case Some(e) => [LastLine(e.rec, seen)]
    case None => [ErrorLine(ERR_UNKNOWN_NODE)]
  }

  function OpReply(op: Op, code: int): string {
    if code > 0 then ErrorLine(code) else if op.Report? then "OK|REPORTED" else "OK|REGISTERED"
  }

  function SubscribeLine(full: bool): string {
    if full then ErrorLine(ERR_SERVER_FULL) else "OK|SUBSCRIBED"
  }

  /** What SUBSCRIBE does to the table, and what it answers. */
  ghost predicate Subscribed(slots: seq<SubscriberSpec.Slot>, fd: int, after: seq<SubscriberSpec.Slot>,
                             lines: seq<string>) {
    exists result ::
      && SubscriberSpec.Added(slots, fd, after, result)
      && lines == [SubscribeLine(result < 0)]
  }

  /** The lines that answer a request other than SUBSCRIBE. */
  ghost function Response(s: State, request: Request, clock: Clock): seq<string>
    requires clock.Valid() && |s.nodes| <= MAX_NODES
  {
    match request
    case Refused(code) => [ErrorLine(code)]
    case Registry(op) => [OpReply(op, Reply(s, op))]
    case Bye => ["OK|BYE"]
    case GetStatus => ["OK|" + clock.status]
    case GetNodes => Listing(NodeRows(s.nodes, clock.activity))
    case GetAlerts => Listing(AlertRows(s.alerts, clock.stamps, OldestShown(|s.alerts|)))
    case Stats(id) => StatsReply(s, id)
    case GetLast(id) => LastReply(s, id, clock.seen)
    case Subscribe => []
  }

  // The parser, in place

  /** The numbers read so far, 0 for one that is not well formed. */
  ghost predicate AreRead(texts: seq<string>, values: seq<nat>) {
    |values| <= |texts| && forall k | 0 <= k < |values| :: values[k] == NumberAt(texts, k)
  }

  lemma {:induction false} AreReadSnoc(texts: seq<string>, values: seq<nat>, value: nat)
    requires AreRead(texts, values) && |values| < |texts| && value == NumberAt(texts, |values|)
    ensures AreRead(texts, values + [value])
  {
  }

  method ReadNumber(message: ParsedMessage, i: nat, ghost parts: seq<string>, ghost texts: seq<string>)
    returns (value: Option<nat>)
    requires message.Leaves(parts) && |parts| == 8 && i < 5 && texts == parts[3..]
    ensures value == ParseUint(texts[i], Limit(i))
    ensures value.Some? <==> IsNumber(texts, i)
    ensures (if value.Some? then value.value else 0) == NumberAt(texts, i)
  {
    var text := message.Part(i + 3, parts);
    value := ParseUnsignedInt(text, if i == 4 then 1 else SESSION_LIMIT);
  }

  /** The loop over the five numbers of a REPORT, which does not stop at the first bad one. */
  method ReadNumbers(message: ParsedMessage, ghost parts: seq<string>, ghost texts: seq<string>)
    returns (valid: bool, values: seq<nat>)
    requires message.Leaves(parts) && |parts| == 8 && texts == parts[3..]
    ensures valid <==> AreNumbers(texts, 5)
    ensures |values| == 5 && AreRead(texts, values)
  {
    valid, values := true, [];
    for i := 0 to 5
      invariant valid <==> AreNumbers(texts, i)
      invariant |values| == i && AreRead(texts, values)
    {
      var value := ReadNumber(message, i, parts, texts);
      AreNumbersStep(texts, i);
      valid := valid && value.Some?;
      var number := if value.Some? then value.value else 0;
      AreReadSnoc(texts, values, number);
      values := values + [number];
    }
  }

  method ParseReport(message: ParsedMessage, ghost parts: seq<string>) returns (request: Request)
    requires message.Leaves(parts) && |parts| == 8
    ensures request == ReadReport(parts)
  {
    var id := message.Part(1, parts);
    var session := message.Part(2, parts);
    var goodId := IsValidNodeId(id);
    var goodSession := IsValidSession(session);
    var valid, values := ReadNumbers(message, parts, parts[3..]);
    if !goodId || !goodSession || !valid {
      return Refused(ERR_BAD_FORMAT);
    }
    return Registry(Report(id, session, Counters(values[0], values[1], values[2], values[3]), values[4] == 1));
  }

  method ParseHello(message: ParsedMessage, ghost parts: seq<string>) returns (request: Request)
    requires message.Leaves(parts) && |parts| == 3
    ensures request == ReadHello(parts)
  {
    var id := message.Part(1, parts);
    var session := message.Part(2, parts);
    var goodId := IsValidNodeId(id);
    var goodSession := IsValidSession(session);
    return if goodId && goodSession then Registry(Hello(id, session)) else Refused(ERR_BAD_FORMAT);
  }

  method ParseNode(message: ParsedMessage, ghost parts: seq<string>) returns (id: Option<string>)
    requires message.Leaves(parts) && |parts| == 2
    ensures id == if IsNodeId(parts[1]) then Some(parts[1]) else None
  {
    var text := message.Part(1, parts);
    var good := IsValidNodeId(text);
    return if good then Some(text) else None;
  }

  /** The parsing half of handle_command. */
  method ParseRequest(message: ParsedMessage, line: string) returns (request: Request)
    requires message.raw.Length == MAX_LINE && message.args.Length == MAX_ARGS && '\0' !in line
    modifies message, message.raw, message.args
    ensures request == ReadLine(line)
  {
    var ok := message.Parse(line);
    if !ok {
      return Refused(ERR_BAD_FORMAT);
    }
    ghost var parts := Split(line, SEPARATOR);
    var command := message.Part(0, parts);
    var expected := Expected(command, message.argCount);
    if expected.None? {
      return Refused(ERR_UNKNOWN_COMMAND);
    }
    if message.argCount != expected.value {
      return Refused(ERR_BAD_FORMAT);
    }
    request := ParseArguments(message, command, parts);
  }

  method ParseArguments(message: ParsedMessage, command: string, ghost parts: seq<string>) returns (request: Request)
    requires message.Leaves(parts) && command == parts[0]
    requires Expected(command, |parts| - 1) == Some(|parts| - 1)
    ensures request == ReadParts(parts)
  {
    match command {
      case "HELLO" => request := ParseHello(message, parts);
      case "REPORT" => request := ParseReport(message, parts);
      case "STATS" =>
        if message.argCount == 0 {
          return Stats(None);
        }
        var id := ParseNode(message, parts);
        return if id.Some? then Stats(id) else Refused(ERR_BAD_FORMAT);
      case "GET_LAST" =>
        var id := ParseNode(message, parts);
        return if id.Some? then GetLast(id.value) else Refused(ERR_BAD_FORMAT);
      case "BYE" => request := Bye;
      case "GET_STATUS" => request := GetStatus;
      case "GET_NODES" => request := GetNodes;
      case "GET_ALERTS" => request := GetAlerts;
      case _ => request := Subscribe;
    }
  }

  // The answering half of handle_command

  method ReplyLast(r: NodeRegistry.Registry, id: string, seen: int) returns (lines: seq<string>)
    requires r.Valid()
    ensures lines == LastReply(r.View(), id, seen)
  {
    var node := r.FindNode(id);
    if node == -1 {
      return [ErrorLine(ERR_UNKNOWN_NODE)];
    }
    if r.nodes[node].unique == 0 {
      return ["OK|" + r.nodes[node].id + "|0|NO_DATA"];
    }
    var text := FormatMeasurements(r.nodes[node].stored);
    return ["OK|" + r.nodes[node].id + "|" + IntText(seen) + "|" + text];
  }

  method Execute(r: NodeRegistry.Registry, op: Op) returns (line: string)
    requires r.Valid() && ValidOp(op) && (op.Hello? || op.Report?)
    modifies r, r.nodes
    ensures r.Valid() && r.View() == Step(old(r.View()), op)
    ensures line == OpReply(op, old(Reply(r.View(), op)))
  {
    var code;
    if op.Hello? {
      code := r.RegisterNode(op.id, op.session);
    } else {
      var c := op.counters;
      code := r.Report(op.id, op.session, c.attempts, c.sent, c.omitted, c.errors, op.final);
    }
    line := OpReply(op, code);
  }

  /** handle_command for everything but SUBSCRIBE: exactly the specified reply, and the
      registry changes exactly when the line was a well-formed HELLO or REPORT. */
  method Answer(r: NodeRegistry.Registry, request: Request, clock: Clock) returns (lines: seq<string>)
    requires r.Valid() && clock.Valid() && UniqueIds(r.View().nodes)
    requires request.Registry? ==> ValidOp(request.op) && (request.op.Hello? || request.op.Report?)
    modifies r, r.nodes
    ensures r.Valid()
    ensures r.View() == if request.Registry? then Step(old(r.View()), request.op) else old(r.View())
    ensures lines == Response(old(r.View()), request, clock)
  {
    match request {
      case Refused(code) => lines := [ErrorLine(code)];
      case Registry(op) =>
        var line := Execute(r, op);
        lines := [line];
      case Bye => lines := ["OK|BYE"];
      case GetStatus => lines := ["OK|" + clock.status];
      case GetNodes => lines := ReplyNodeList(r, clock.activity);
      case GetAlerts => lines := ReplyAlertList(r, clock.stamps);
      case Stats(id) => lines := ReplyStats(r, id);
      case GetLast(id) => lines := ReplyLast(r, id, clock.seen);
      case Subscribe => lines := [];
    }
  }

  method AddSubscriber(subscribers: AlertSubscribers.Subscribers, fd: int) returns (lines: seq<string>)
    requires subscribers.Valid() && fd > 0
    modifies subscribers.slots
    ensures subscribers.Valid() && Subscribed(old(subscribers.View()), fd, subscribers.View(), lines)
  {
    var result := subscribers.Add(fd);
    lines := [SubscribeLine(result < 0)];
  }

  /** handle_command: the lines it sends, and whether the connection must close. */
  method HandleCommand(r: NodeRegistry.Registry, subscribers: AlertSubscribers.Subscribers, message: ParsedMessage,
                       fd: int, line: string, clock: Clock)
    returns (lines: seq<string>, close: bool)
    requires r.Valid() && subscribers.Valid() && clock.Valid() && UniqueIds(r.View().nodes) && fd > 0
    requires message.raw.Length == MAX_LINE && message.args.Length == MAX_ARGS && '\0' !in line
    modifies r, r.nodes, subscribers.slots, message, message.raw, message.args
    ensures r.Valid() && subscribers.Valid()
    ensures close <==> ReadLine(line) == Bye
    ensures var request := ReadLine(line);
            r.View() == if request.Registry? then Step(old(r.View()), request.op) else old(r.View())
    ensures ReadLine(line) != Subscribe ==>
              lines == Response(old(r.View()), ReadLine(line), clock) && subscribers.View() == old(subscribers.View())
    ensures ReadLine(line) == Subscribe ==>
              Subscribed(old(subscribers.View()), fd, subscribers.View(), lines)
  {
    var request := ParseRequest(message, line);
    RequestsAreValid(line);
    if request == Subscribe {
      lines := AddSubscriber(subscribers, fd);
      return lines, false;
    }
    lines := Answer(r, request, clock);
    close := request == Bye;
  }

  /** A request that reaches the registry is within its limits and has valid names. */
  lemma {:induction false} RequestsAreValid(line: string)
    ensures var request := ReadLine(line);
            request.Registry? ==>
              && ValidOp(request.op) && (request.op.Hello? || request.op.Report?)
              && IsNodeId(request.op.id) && IsSession(request.op.session)
  {
  }
}
