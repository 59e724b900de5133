/** server/udp_telemetry_server.c: which datagrams are taken, what they record, and the
    alerts they broadcast. */
module UdpTelemetry {
  import opened Config
  import opened Prelude
  import opened Decimal
  import opened Fields
  import opened NodeRecord
  import opened NodeAlerts
  import opened RegistrySpec
  import opened RegistryLaws
  import opened TelepProtocol
  import opened Measurements
  import opened ClientMessages
  import opened SubscriberSpec
  import NodeRegistry
  import AlertSubscribers

  /** A datagram that is one whole frame: a final LF, no other LF and no NUL. */
  predicate IsFrame(data: string) {
    && 1 <= |data| <= MAX_LINE
    && data[|data| - 1] == '\n'
    && '\0' !in data
    && '\n' !in data[..|data| - 1]
  }

  /** The telemetry a line carries; None when any check of the chain fails. */
  function ReadTelemetry(line: string): Option<Op> {
    var parts := Split(line, SEPARATOR);
    if IsMessage(line) && parts[0] == "TELEMETRY" && |parts| == 5 && IsNodeId(parts[1]) && IsSession(parts[2]) then
      match (ParseUint(parts[3], SESSION_LIMIT - 1), ReadField(parts[4], MAX_VARS))
      case (Some(sequence), Some(values)) => Some(Telemetry(parts[1], parts[2], sequence, values))
      case _ => None
    else None
  }

  function Accept(data: string): Option<Op> {
    if IsFrame(data) then ReadTelemetry(data[..|data| - 1]) else None
  }

  /** What a datagram does to the registry. */
  function OpOf(data: string): Op {
    match Accept(data)
    case Some(op) => op
    case None => Malformed
  }

  /** Whatever passes the chain is within the registry's limits, and names each of its
      three to five variables once and within its range. */
  lemma {:induction false} AcceptedIsSound(data: string)
    ensures ValidOp(OpOf(data))
    ensures var op := OpOf(data);
            op.Telemetry? ==>
              && IsNodeId(op.id) && IsSession(op.session) && op.sequence < SESSION_LIMIT
              && 3 <= |op.values| <= 5 && DistinctNames(op.values) && forall m | m in op.values :: InRange(m)
  {
    if Accept(data).Some? {
      AcceptedFieldIsSound(Split(data[..|data| - 1], SEPARATOR)[4], MAX_VARS);
    }
  }

  /** The datagram is one frame of five parts, which spell this operation. */
  ghost predicate SpellsTelemetry(data: string, op: Op) {
    && op.Telemetry? && 1 <= |data| <= 1024 && data[|data| - 1] == '\n'
    && var line := data[..|data| - 1];
    && var parts := Split(line, '|');
    && (forall c | c in line :: 33 <= c as int <= 126)
    && |parts| == 5 && parts[0] == "TELEMETRY" && parts[1] == op.id && parts[2] == op.session
    && IsNodeId(op.id) && IsSession(op.session)
    && Denotes(parts[3], op.sequence) && op.sequence <= 65535
    && SpellsField(parts[4], op.values)
  }

  lemma {:induction false} SpelledIsFrame(data: string)
    requires 1 <= |data| <= 1024 && data[|data| - 1] == '\n'
    requires forall c | c in data[..|data| - 1] :: Graphic(c)
    ensures IsFrame(data)
  {
    var line := data[..|data| - 1];
    assert data == line + "\n";
    assert !Graphic('\0') && !Graphic('\n') && '\0' !in line && '\n' !in line;
  }

  lemma {:induction false} SpelledFieldIsThere(field: string, values: seq<Measurement>)
    requires SpellsField(field, values)
    ensures field != ""
  {
    FieldIsSpelled(field, values);
  }

  lemma {:induction false} SpelledIsMessage(data: string, op: Op)
    requires SpellsTelemetry(data, op)
    ensures IsFrame(data) && IsMessage(data[..|data| - 1])
  {
    var line := data[..|data| - 1];
    var parts := Split(line, '|');
    SpelledIsFrame(data);
    SpelledFieldIsThere(parts[4], op.values);
    FiveParts(parts);
    LineIsThere(line);
    MessageMeans(line);
  }

  lemma {:induction false} FiveParts(parts: seq<string>)
    requires |parts| == 5 && parts[0] != "" && parts[1] != "" && parts[2] != "" && parts[3] != "" && parts[4] != ""
    ensures "" !in parts
  {
  }

  lemma {:induction false} LineIsThere(line: string)
    ensures |Split(line, '|')| > 1 ==> line != ""
  {
    assert Split("", '|') == [""];
  }

  /** A datagram is taken for telemetry if and only if it spells it: one frame whose five
      parts are the word TELEMETRY, the id, the session, the sequence in digits and a field
      that names and spells the values in order. */
  lemma {:induction false} AcceptedExactly(data: string, op: Op)
    ensures Accept(data) == Some(op) <==> SpellsTelemetry(data, op)
  {
    if Accept(data) == Some(op) {
      var parts := Split(data[..|data| - 1], SEPARATOR);
      MessageMeans(data[..|data| - 1]);
      FieldIsSpelled(parts[4], op.values);
      DenotesIsParsed(parts[3], op.sequence, SESSION_LIMIT - 1);
    }
    if SpellsTelemetry(data, op) {
      var parts := Split(data[..|data| - 1], SEPARATOR);
      SpelledIsMessage(data, op);
      FieldIsSpelled(parts[4], op.values);
      DenotesIsParsed(parts[3], op.sequence, SESSION_LIMIT - 1);
    }
  }

  // What a node sends

  function TelemetryParts(id: string, session: string, sequence: nat, values: seq<Measurement>): seq<string> {
    ["TELEMETRY", id, session, Digits(sequence), FieldText(values)]
  }

  predicate CanBeSent(id: string, session: string, sequence: nat, values: seq<Measurement>) {
    && IsNodeId(id) && IsSession(session) && sequence < SESSION_LIMIT
    && 3 <= |values| <= 5 && DistinctNames(values) && forall m | m in values :: InRange(m)
  }

  /** A character that may stand in a part of a telemetry message. */
  predicate PartChar(c: char) {
    Graphic(c) && c != SEPARATOR
  }

  predicate PlainPart(p: string) {
    1 <= |p| <= 95 && forall c | c in p :: PartChar(c)
  }

  lemma {:induction false} FieldIsPlain(values: seq<Measurement>)
    requires 3 <= |values| <= 5 && forall m | m in values :: InRange(m)
    ensures PlainPart(FieldText(values))
  {
    FieldIsShort(values);
    PairsHaveNoSeparator(values);
    assert forall c | PairChar(c) || c == ';' :: PartChar(c);
  }

  lemma {:induction false} NumberIsPlain(n: nat)
    ensures n < SESSION_LIMIT ==> PlainPart(Digits(n))
  {
    if n < SESSION_LIMIT {
      assert Power10(3) == 1000 && Power10(5) == 100000;
      DigitsAreShort(n, 5);
    }
  }

  lemma {:induction false} IdentityIsPlain(id: string, session: string)
    requires IsNodeId(id) && IsSession(session)
    ensures PlainPart("TELEMETRY") && PlainPart(id) && PlainPart(session)
  {
  }

  lemma {:induction false} PartsArePlain(id: string, session: string, sequence: nat, values: seq<Measurement>)
    requires CanBeSent(id, session, sequence, values)
    ensures forall p | p in TelemetryParts(id, session, sequence, values) :: PlainPart(p)
  {
    FieldIsPlain(values);
    NumberIsPlain(sequence);
    IdentityIsPlain(id, session);
  }

  /** Every datagram a valid node builds can be encoded. */
  lemma {:induction false} TelemetryIsEncoded(id: string, session: string, sequence: nat, values: seq<Measurement>)
    requires CanBeSent(id, session, sequence, values)
    ensures EncodeMessage(TelemetryParts(id, session, sequence, values)).Some?
    ensures AllGraphic(TelemetryParts(id, session, sequence, values))
  {
    var parts := TelemetryParts(id, session, sequence, values);
    PartsArePlain(id, session, sequence, values);
    JoinIsShort(parts, SEPARATOR, 96);
    var line := Join(parts, SEPARATOR);
    forall c | c in line
      ensures c as int < 128
    {
      CharsOfJoin(parts, SEPARATOR, c);
    }
    assert forall p | p in parts :: Encodable(p);
  }

  /** Every datagram a valid node builds passes the whole chain and is recorded with the
      same id, session and sequence and with its values in hundredths. */
  lemma {:induction false} TelemetryRoundTrip(id: string, session: string, sequence: nat, values: seq<Measurement>)
    requires CanBeSent(id, session, sequence, values)
    ensures var frame := EncodeMessage(TelemetryParts(id, session, sequence, values));
            frame.Some? && Accept(frame.value) == Some(Telemetry(id, session, sequence, AllAsRead(values)))
  {
    var parts := TelemetryParts(id, session, sequence, values);
    TelemetryIsEncoded(id, session, sequence, values);
    var frame := EncodeMessage(parts).value;
    ServerParsesEncoded(parts);
    EncodedIsFrame(parts);
    TelemetryIsRead(id, session, sequence, values, frame[..|frame| - 1]);
  }

  lemma {:induction false} EncodedIsFrame(parts: seq<string>)
    requires parts != [] && EncodeMessage(parts).Some?
    ensures IsFrame(EncodeMessage(parts).value)
  {
    EncodedLine(parts);
    var line := Join(parts, SEPARATOR);
    assert (line + "\n")[..|line + "\n"| - 1] == line;
  }

  lemma {:induction false} TelemetryIsRead(id: string, session: string, sequence: nat, values: seq<Measurement>,
                                           line: string)
    requires CanBeSent(id, session, sequence, values) && IsMessage(line)
    requires Split(line, SEPARATOR) == TelemetryParts(id, session, sequence, values)
    ensures ReadTelemetry(line) == Some(Telemetry(id, session, sequence, AllAsRead(values)))
  {
    NumberOfDigits(sequence);
    FieldRoundTrip(values);
    assert ParseUint(Digits(sequence), SESSION_LIMIT - 1) == Some(sequence);
  }

  /** A frame that was sent only in part is never taken for telemetry. */
  lemma {:induction false} ShortSendIsRefused(parts: seq<string>, k: nat)
    requires parts != [] && EncodeMessage(parts).Some? && k < |EncodeMessage(parts).value|
    ensures Accept(EncodeMessage(parts).value[..k]) == None
  {
    var frame := EncodeMessage(parts).value;
    ServerParsesEncoded(parts);
    if k > 0 {
      assert frame[..k][k - 1] == frame[..|frame| - 1][k - 1];
      assert frame[..k][k - 1] in frame[..|frame| - 1];
    }
  }

  function Meanings(data: seq<string>): seq<Op> {
    if data == [] then [] else Meanings(data[..|data| - 1]) + [OpOf(data[|data| - 1])]
  }

  lemma {:induction false} MeaningsStep(s: State, data: seq<string>, i: nat)
    requires i < |data|
    ensures Run(s, Meanings(data[..i + 1])) == Step(Run(s, Meanings(data[..i])), OpOf(data[i]))
  {
    assert data[..i + 1][..i] == data[..i];
    SnocInit(Meanings(data[..i]), OpOf(data[i]));
  }

  // The server's loop body

  function BroadcastAll(slots: seq<Slot>, alerts: seq<Alert>): seq<Slot> {
    if alerts == [] then slots
    else Broadcast(BroadcastAll(slots, alerts[..|alerts| - 1]), AlertLine(alerts[|alerts| - 1]))
  }

  ghost function DroppedBy(slots: seq<Slot>, alerts: seq<Alert>): nat {
    if alerts == [] then 0
    else DroppedBy(slots, alerts[..|alerts| - 1]) + FullSlots(BroadcastAll(slots, alerts[..|alerts| - 1]))
  }

  /** Broadcasting the alerts of two datagrams is broadcasting their concatenation: the
      queues see the registry's alert history in its own order. */
  lemma {:induction false} BroadcastsCompose(slots: seq<Slot>, a: seq<Alert>, b: seq<Alert>)
    ensures BroadcastAll(slots, a + b) == BroadcastAll(BroadcastAll(slots, a), b)
    ensures DroppedBy(slots, a + b) == DroppedBy(slots, a) + DroppedBy(BroadcastAll(slots, a), b)
  {
    if b == [] {
      assert a + b == a;
    } else {
      SnocConcat(a, b);
      SnocInit(a + b[..|b| - 1], b[|b| - 1]);
      BroadcastsCompose(slots, a, b[..|b| - 1]);
    }
  }

  /** memchr */
  method MemChr(buffer: array<char>, c: char, n: nat) returns (found: bool)
    requires n <= buffer.Length
    ensures found <==> c in buffer[..n]
  {
    var i := 0;
    while i < n
      invariant 0 <= i <= n
      invariant forall k | 0 <= k < i :: buffer[k] != c
    {
      if buffer[i] == c {
        assert buffer[..n][i] == c;
        return true;
      }
      i := i + 1;
    }
    return false;
  }

  class UdpServer {
    const registry: NodeRegistry.Registry
    const subscribers: AlertSubscribers.Subscribers
    const datagram: array<char>
    const message: ParsedMessage
    const values: array<Measurement>
    const newAlerts: array<Alert>

    ghost predicate Buffers()
      reads this
    {
      && datagram.Length == MAX_LINE + 1 && values.Length == MAX_VARS && newAlerts.Length == MAX_VARS
      && message.raw.Length == MAX_LINE && message.args.Length == MAX_ARGS
      && datagram != message.raw && newAlerts != registry.alerts
    }

    ghost predicate Valid()
      reads this, registry, registry.nodes, registry.seen, registry.alerts, subscribers, subscribers.slots
    {
      Buffers() && registry.Valid() && subscribers.Valid()
    }

    constructor (registry: NodeRegistry.Registry, subscribers: AlertSubscribers.Subscribers)
      requires registry.Valid() && subscribers.Valid()
      ensures Valid() && this.registry == registry && this.subscribers == subscribers
      ensures fresh(datagram) && fresh(message) && fresh(message.raw) && fresh(message.args)
      ensures fresh(values) && fresh(newAlerts)
    {
      this.registry, this.subscribers := registry, subscribers;
      datagram := new char[MAX_LINE + 1](_ => '\0');
      message := new ParsedMessage();
      values := new Measurement[MAX_VARS](_ => Measurement("", 0.0));
      newAlerts := new Alert[MAX_VARS](_ => Alert("", "", 0.0));
    }

    /** recvfrom with MSG_TRUNC: at most MAX_LINE + 1 bytes are stored, but the whole
        length of the datagram is returned. */
    method ReceiveFrom(data: string) returns (received: nat)
      requires datagram.Length == MAX_LINE + 1
      modifies datagram
      ensures received == |data|
      ensures received <= MAX_LINE ==> datagram[..received] == data
    {
      var i := 0;
      while i < |data| && i < MAX_LINE + 1
        invariant 0 <= i <= |data| && i <= MAX_LINE + 1
        invariant datagram[..i] == data[..i]
      {
        datagram[i] := data[i];
        i := i + 1;
      }
      return |data|;
    }

    /** The checks on the raw bytes; what they let through is a C string in the buffer. */
    method Screen(received: nat, ghost data: string) returns (ok: bool)
      requires datagram.Length == MAX_LINE + 1
      requires received == |data| && (received <= MAX_LINE ==> datagram[..received] == data)
      modifies datagram
      ensures ok <==> IsFrame(data)
      ensures ok ==> Lies(datagram[..], 0, data[..|data| - 1])
    {
      if received == 0 || received > MAX_LINE || datagram[received - 1] != '\n' {
        return false;
      }
      var nul := MemChr(datagram, '\0', received);
      var newline := MemChr(datagram, '\n', received - 1);
      assert datagram[..received - 1] == data[..|data| - 1];
      if nul || newline {
        return false;
      }
      datagram[received] := '\0';
      datagram[received - 1] := '\0';
      ghost var line := data[..|data| - 1];
      assert datagram[..][0..|line|] == line;
      assert '\0' !in line by {
        assert forall c | c in line :: c in data;
      }
      return true;
    }

    /** The chain of checks on a line. */
    method Interpret(line: string) returns (op: Option<Op>)
      requires Buffers() && '\0' !in line
      modifies message, message.raw, message.args, values
      ensures op == ReadTelemetry(line)
    {
      var ok := message.Parse(line);
      if !ok {
        return None;
      }
      ghost var parts := Split(line, SEPARATOR);
      var command := message.Part(0, parts);
      if command != "TELEMETRY" || message.argCount != 4 {
        return None;
      }
      op := CheckArguments(parts);
    }

    method CheckArguments(ghost parts: seq<string>) returns (op: Option<Op>)
      requires Buffers() && |parts| == 5 && message.Leaves(parts)
      modifies values
      ensures op == if IsNodeId(parts[1]) && IsSession(parts[2]) &&
                       ParseUint(parts[3], SESSION_LIMIT - 1).Some? && ReadField(parts[4], MAX_VARS).Some?
                    then Some(Telemetry(parts[1], parts[2], ParseUint(parts[3], SESSION_LIMIT - 1).value,
                                        ReadField(parts[4], MAX_VARS).value))
                    else None
    {
      var id := message.Part(1, parts);
      var session := message.Part(2, parts);
      var number := message.Part(3, parts);
      var field := message.Part(4, parts);
      var goodId := IsValidNodeId(id);
      var goodSession := IsValidSession(session);
      var sequence := ParseUnsignedInt(number, SESSION_LIMIT - 1);
      if !goodId || !goodSession || sequence.None? {
        return None;
      }
      var count := ParseMeasurements(field, values, MAX_VARS);
      if count == -1 {
        return None;
      }
      return Some(Telemetry(id, session, sequence.value, values[..count]));
    }

    /** Records one accepted datagram, then broadcasts its alerts in order. */
    method Record(op: Op)
      requires Valid() && op.Telemetry? && ValidOp(op)
      modifies registry, registry.nodes, registry.seen, registry.alerts, subscribers, subscribers.slots, newAlerts
      ensures Valid()
      ensures registry.View() == Step(old(registry.View()), op)
      ensures var raised := old(Raised(registry.View(), op));
              && subscribers.View() == BroadcastAll(old(subscribers.View()), raised)
              && subscribers.dropped == old(subscribers.dropped) + DroppedBy(old(subscribers.View()), raised)
    {
      ghost var slots := subscribers.View();
      var count := registry.RecordTelemetry(op.id, op.session, op.sequence, op.values, newAlerts);
      ghost var raised := old(Raised(registry.View(), op));
      if count == -1 {
        RefusedRaisesNothing(old(registry.View()), op);
      } else {
        BroadcastEach(count, raised);
      }
    }

    method Discard()
      requires Valid()
      modifies registry
      ensures Valid()
      ensures registry.View() == Step(old(registry.View()), Malformed)
      ensures var raised := old(Raised(registry.View(), Malformed));
              && subscribers.View() == BroadcastAll(old(subscribers.View()), raised)
              && subscribers.dropped == old(subscribers.dropped) + DroppedBy(old(subscribers.View()), raised)
    {
      registry.InvalidDatagram();
    }

    method BroadcastEach(count: nat, ghost raised: seq<Alert>)
      requires Buffers() && subscribers.Valid() && count <= MAX_VARS && newAlerts[..count] == raised
      modifies subscribers, subscribers.slots
      ensures subscribers.Valid()
      ensures subscribers.View() == BroadcastAll(old(subscribers.View()), raised)
      ensures subscribers.dropped == old(subscribers.dropped) + DroppedBy(old(subscribers.View()), raised)
    {
      ghost var slots := subscribers.View();
      var i := 0;
      while i < count
        invariant 0 <= i <= count
        invariant subscribers.Valid()
        invariant subscribers.View() == BroadcastAll(slots, newAlerts[..i])
        invariant subscribers.dropped == old(subscribers.dropped) + DroppedBy(slots, newAlerts[..i])
      {
        assert newAlerts[..i + 1][..i] == newAlerts[..i];
        var _ := subscribers.Broadcast(newAlerts[i]);
        i := i + 1;
      }
    }

    /** The endless loop, after any number of datagrams: the registry has seen each of them
        in order, and the queues have been offered exactly the alerts it raised since. */
    method Serve(data: seq<string>)
      requires Valid()
      modifies datagram, message, message.raw, message.args, values, newAlerts
      modifies registry, registry.nodes, registry.seen, registry.alerts, subscribers, subscribers.slots
      ensures Valid()
      ensures registry.View() == Run(old(registry.View()), Meanings(data))
      ensures |registry.View().alerts| >= |old(registry.View().alerts)|
      ensures var raised := registry.View().alerts[|old(registry.View().alerts)|..];
              && registry.View().alerts == old(registry.View().alerts) + raised
              && subscribers.View() == BroadcastAll(old(subscribers.View()), raised)
              && subscribers.dropped == old(subscribers.dropped) + DroppedBy(old(subscribers.View()), raised)
    {
      ghost var s, slots := registry.View(), subscribers.View();
      ghost var raised: seq<Alert> := [];
      assert s.alerts + [] == s.alerts;
      for i := 0 to |data|
        invariant Valid()
        invariant registry.View() == Run(s, Meanings(data[..i]))
        invariant registry.View().alerts == s.alerts + raised
        invariant subscribers.View() == BroadcastAll(slots, raised)
        invariant subscribers.dropped == old(subscribers.dropped) + DroppedBy(slots, raised)
      {
        ghost var now := registry.View();
        Handle(data[i]);
        ghost var more := Raised(now, OpOf(data[i]));
        AlertsGrow(now, OpOf(data[i]), s.alerts, raised);
        MeaningsStep(s, data, i);
        BroadcastsCompose(slots, raised, more);
        raised := raised + more;
      }
      assert data[..|data|] == data;
      assert (s.alerts + raised)[|s.alerts|..] == raised;
    }

    static lemma {:induction false} RefusedRaisesNothing(s: State, op: Op)
      requires !Addressed(s, op) || RefusedBySeal(s, op)
      ensures Raised(s, op) == []
    {
    }

    static lemma {:induction false} AlertsGrow(s: State, op: Op, before: seq<Alert>, raised: seq<Alert>)
      requires s.alerts == before + raised
      ensures Step(s, op).alerts == before + (raised + Raised(s, op))
    {
      AlertsGrowByRaised(s, op);
    }

    /** The body of the endless loop for one datagram. */
    method Handle(data: string)
      requires Valid()
      modifies datagram, message, message.raw, message.args, values, newAlerts
      modifies registry, registry.nodes, registry.seen, registry.alerts, subscribers, subscribers.slots
      ensures Valid()
      ensures registry.View() == Step(old(registry.View()), OpOf(data))
      ensures var raised := old(Raised(registry.View(), OpOf(data)));
              && subscribers.View() == BroadcastAll(old(subscribers.View()), raised)
              && subscribers.dropped == old(subscribers.dropped) + DroppedBy(old(subscribers.View()), raised)
    {
      AcceptedIsSound(data);
      var received := ReceiveFrom(data);
      var ok := Screen(received, data);
      if !ok {
        Discard();
        return;
      }
      var line := ReadCString(datagram, 0, data[..|data| - 1]);
      var op := Interpret(line);
      if op.None? {
        Discard();
        return;
      }
      Record(op.value);
    }
  }
}
