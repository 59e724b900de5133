/** What the lines of the server say to the client that decodes them. */
module ReplyTexts {
  import opened Config
  import opened Prelude
  import opened Decimal
  import opened Fields
  import opened NodeRecord
  import opened RegistrySpec
  import opened RegistryLaws
  import opened TelepProtocol
  import opened Measurements
  import opened ClientMessages
  import opened AlertDemux
  import opened ListReplies
  import SubscriberSpec
  import CommandServer
  import SessionProtocol

  // Single words

  /** Capital letters and `_`, at least one. */
  predicate IsWord(s: string) {
    s != "" && forall c | c in s :: 'A' <= c <= 'Z' || c == '_'
  }

  lemma {:induction false} WordCloses(s: string)
    requires IsWord(s)
    ensures Closes(s)
  {
    assert s[|s| - 1] in s;
  }

  lemma {:induction false} DigitsClose(n: nat)
    ensures Closes(Digits(n))
  {
    assert Digits(n)[|Digits(n)| - 1] in Digits(n);
  }

  lemma {:induction false} OkWord(word: string)
    requires IsWord(word)
    ensures DecodeMessage("OK|" + word) == ["OK", word]
  {
    WordCloses(word);
    assert SEPARATOR !in "OK" && "OK" + "|" == "OK|";
    DecodeTwo("OK", word);
  }

  lemma {:induction false} ErrorWord(code: nat, word: string)
    requires ErrorName(code) == word && IsWord(word)
    ensures DecodeMessage(ErrorLine(code)) == ["ERR", Digits(code), word]
  {
    WordCloses(word);
    DigitsClose(code);
    assert SEPARATOR !in "ERR" && "ERR" + "|" == "ERR|";
    DecodeThree("ERR", Digits(code), word);
  }

  lemma {:induction false} HundredAnd(k: nat)
    requires k <= 5
    ensures Digits(100 + k) == ['1', '0', DigitChar(k)]
  {
    assert (100 + k) / 10 == 10 && (100 + k) % 10 == k;
    assert Digits(10) == ['1', '0'] by {
      assert Digits(1) == ['1'];
    }
  }

  /** The six error replies, taken apart. */
  function ErrorParts(code: nat): seq<string> {
    if code == 100 then ["ERR", "100", "BAD_FORMAT"]
    else if code == 101 then ["ERR", "101", "UNKNOWN_CMD"]
    else if code == 102 then ["ERR", "102", "UNKNOWN_NODE"]
    else if code == 103 then ["ERR", "103", "TOO_LONG"]
    else if code == 104 then ["ERR", "104", "SERVER_FULL"]
    else if code == 105 then ["ERR", "105", "ID_IN_USE"]
    else []
  }

  lemma {:induction false} ErrorNamed(k: nat, number: string, word: string)
    requires k <= 5 && number == ['1', '0', DigitChar(k)] && ErrorName(100 + k) == word && IsWord(word)
    ensures DecodeMessage(ErrorLine(100 + k)) == ["ERR", number, word]
  {
    HundredAnd(k);
    ErrorWord(100 + k, word);
  }

  /** What the client decodes from an error line. */
  lemma {:induction false} ErrorIsTold(code: nat)
    requires 100 <= code <= 105
    ensures DecodeMessage(ErrorLine(code)) == ErrorParts(code)
  {
    if code == 100 {
      ErrorNamed(0, "100", "BAD_FORMAT");
    } else if code == 101 {
      ErrorNamed(1, "101", "UNKNOWN_CMD");
    } else if code == 102 {
      ErrorNamed(2, "102", "UNKNOWN_NODE");
    } else {
      LaterErrorIsTold(code);
    }
  }

  lemma {:induction false} LaterErrorIsTold(code: nat)
    requires 103 <= code <= 105
    ensures DecodeMessage(ErrorLine(code)) == ErrorParts(code)
  {
    if code == 103 {
      ErrorNamed(3, "103", "TOO_LONG");
    } else if code == 104 {
      ErrorNamed(4, "104", "SERVER_FULL");
    } else {
      ErrorNamed(5, "105", "ID_IN_USE");
    }
  }

  // HELLO, REPORT, BYE and SUBSCRIBE

  /** What the client decodes from the answer to a HELLO or a REPORT. */
  ghost function Told(s: State, op: Op): seq<string> {
    DecodeMessage(CommandServer.OpReply(op, RegistrySpec.Reply(s, op)))
  }

  function Registered(): seq<string> {
    ["OK", "REGISTERED"]
  }

  function Reported(): seq<string> {
    ["OK", "REPORTED"]
  }

  function Subscribed(): seq<string> {
    ["OK", "SUBSCRIBED"]
  }

  lemma {:induction false} RegisteredIsTold()
    ensures DecodeMessage("OK|REGISTERED") == Registered()
  {
    OkWord("REGISTERED");
    assert "OK|" + "REGISTERED" == "OK|REGISTERED";
  }

  lemma {:induction false} ReportedIsTold()
    ensures DecodeMessage("OK|REPORTED") == Reported()
  {
    OkWord("REPORTED");
    assert "OK|" + "REPORTED" == "OK|REPORTED";
  }

  lemma {:induction false} SubscribedIsTold()
    ensures DecodeMessage("OK|SUBSCRIBED") == Subscribed()
  {
    OkWord("SUBSCRIBED");
    assert "OK|" + "SUBSCRIBED" == "OK|SUBSCRIBED";
  }

  /** BYE is answered OK|BYE. */
  lemma {:induction false} ByeIsTold(s: State, clock: CommandServer.Clock)
    requires clock.Valid() && |s.nodes| <= MAX_NODES
    ensures DecodeEach(CommandServer.Response(s, CommandServer.Bye, clock)) == [["OK", "BYE"]]
  {
    OkWord("BYE");
    assert "OK|" + "BYE" == "OK|BYE";
  }

  /** The text of an answer, given the registry's code. */
  lemma {:induction false} HelloText(id: string, session: string, code: int)
    requires code == 0 || 100 <= code <= 105
    ensures DecodeMessage(CommandServer.OpReply(Hello(id, session), code)) ==
            if code == 0 then Registered() else ErrorParts(code)
  {
    if code == 0 {
      RegisteredIsTold();
    } else {
      ErrorIsTold(code);
    }
  }

  lemma {:induction false} ReportText(id: string, session: string, c: Counters, final: bool, code: int)
    requires code == 0 || 100 <= code <= 105
    ensures DecodeMessage(CommandServer.OpReply(Report(id, session, c, final), code)) ==
            if code == 0 then Reported() else ErrorParts(code)
  {
    if code == 0 {
      ReportedIsTold();
    } else {
      ErrorIsTold(code);
    }
  }

  /** In every run HELLO is answered OK|REGISTERED for a new id while there is room for its
      64 bindings and for the session an id is bound to; another session is told ID_IN_USE,
      and a new id without room SERVER_FULL. */
  lemma {:induction false} HelloIsTold(ops: seq<Op>, id: string, session: string)
    ensures var m := Bindings(ops);
            Told(Run(EMPTY, ops), Hello(id, session)) ==
            if id in m then (if m[id] == session then Registered() else ErrorParts(105))
            else if |m| < 64 then Registered() else ErrorParts(104)
  {
    RegistrationIsWriteOnce(ops, id, session);
    HelloText(id, session, RegistrySpec.Reply(Run(EMPTY, ops), Hello(id, session)));
  }

  /** In every run REPORT is answered OK|REPORTED exactly when the id is bound to the session
      and the registry accepts the totals; otherwise UNKNOWN_NODE or BAD_FORMAT. */
  lemma {:induction false} ReportIsTold(ops: seq<Op>, id: string, session: string, c: Counters, final: bool)
    ensures var m := Bindings(ops);
            var found := Lookup(Run(EMPTY, ops), id);
            Told(Run(EMPTY, ops), Report(id, session, c, final)) ==
            if id !in m || m[id] != session then ErrorParts(102)
            else if found.Some? && ReportAccepted(found.value, c, final) then Reported() else ErrorParts(100)
  {
    var s := Run(EMPTY, ops);
    RegistrationIsWriteOnce(ops, id, session);
    BoundIsInMap(s, Bindings(ops), id, session);
    ReportText(id, session, c, final, RegistrySpec.Reply(s, Report(id, session, c, final)));
  }

  lemma {:induction false} BoundIsInMap(s: State, m: map<string, string>, id: string, session: string)
    requires Represents(s, m)
    ensures BoundTo(s, id, session) <==> id in m && m[id] == session
  {
    assert if id in m then BoundTo(s, id, m[id]) else Lookup(s, id).None?;
  }

  /** What `control` looks at in every reachable state: the first part of the answer to the
      node's REPORT is OK, and that of its HELLO is OK unless the server is full. */
  lemma {:induction false} ControlIsTold(setup: SessionProtocol.Setup, trace: seq<SessionProtocol.System>,
                                         events: seq<SessionProtocol.Event>, i: nat, code: int, op: Op)
    requires SessionProtocol.Behaviour(setup, trace, events) && i < |trace|
    ensures var told := DecodeMessage(CommandServer.OpReply(op, code));
            && (op.Report? && SessionProtocol.Enabled(setup, trace[i], SessionProtocol.ReportAnswered(code)) ==>
                  told == Reported())
            && (op.Hello? && SessionProtocol.Enabled(setup, trace[i], SessionProtocol.HelloAnswered(code)) ==>
                  told == Registered() || told == ErrorParts(104))
  {
    SessionProtocol.HonestNodeIsNeverRefused(setup, trace, events, i, code);
    if code == 0 || code == 104 {
      AnswerText(op, code);
    }
  }

  lemma {:induction false} AnswerText(op: Op, code: int)
    requires code == 0 || 100 <= code <= 105
    ensures var told := DecodeMessage(CommandServer.OpReply(op, code));
            && (op.Report? ==> told == if code == 0 then Reported() else ErrorParts(code))
            && (op.Hello? ==> told == if code == 0 then Registered() else ErrorParts(code))
  {
    if op.Report? {
      ReportText(op.id, op.session, op.counters, op.final, code);
    } else if op.Hello? {
      HelloText(op.id, op.session, code);
    }
  }

  lemma {:induction false} SubscribeText(full: bool)
    ensures DecodeMessage(CommandServer.SubscribeLine(full)) == if full then ErrorParts(104) else Subscribed()
  {
    if full {
      ErrorIsTold(104);
    } else {
      SubscribedIsTold();
    }
  }

  /** SUBSCRIBE is answered OK|SUBSCRIBED exactly when the descriptor was in the table or
      there was room, and then it is in the table; otherwise SERVER_FULL. */
  lemma {:induction false} SubscribeIsTold(slots: seq<SubscriberSpec.Slot>, fd: int, after: seq<SubscriberSpec.Slot>,
                                           lines: seq<string>)
    requires CommandServer.Subscribed(slots, fd, after, lines)
    ensures |lines| == 1
    ensures DecodeMessage(lines[0]) == if SubscriberSpec.Holds(after, fd) then Subscribed() else ErrorParts(104)
    ensures SubscriberSpec.Holds(after, fd) <==> SubscriberSpec.Holds(slots, fd) || SubscriberSpec.HasRoom(slots)
  {
    var result :| SubscriberSpec.Added(slots, fd, after, result) && lines == [CommandServer.SubscribeLine(result < 0)];
    TableAfterAdd(slots, fd, after, result);
    SubscribeText(result < 0);
  }

  lemma {:induction false} TableAfterAdd(slots: seq<SubscriberSpec.Slot>, fd: int, after: seq<SubscriberSpec.Slot>,
                                         result: int)
    requires SubscriberSpec.Added(slots, fd, after, result)
    ensures SubscriberSpec.Holds(after, fd) <==> SubscriberSpec.Holds(slots, fd) || SubscriberSpec.HasRoom(slots)
    ensures SubscriberSpec.Holds(after, fd) <==> result == 0
    ensures result == 0 || result == -1
  {
    if !SubscriberSpec.Holds(slots, fd) && SubscriberSpec.HasRoom(slots) {
      var i :| SubscriberSpec.IsLastFree(slots, i) && after == slots[i := SubscriberSpec.Taken(fd, [])];
      assert after[i].Taken? && after[i].fd == fd;
    }
  }

  // Alerts

  predicate KnownKind(kind: string) {
    kind == "TEMP_HIGH" || kind == "HUM_HIGH" || kind == "POWER_HIGH" || kind == "VIB_HIGH" || kind == "STATUS_FAIL"
  }

  predicate SoundAlert(a: Alert) {
    IsNodeId(a.id) && KnownKind(a.kind)
  }

  lemma {:induction false} KindIsWord(kind: string)
    requires KnownKind(kind)
    ensures IsWord(kind)
  {
  }

  lemma {:induction false} ValueCloses(x: real)
    ensures Closes(ValueText(x))
  {
    var text := ValueText(x);
    assert IsDigit(text[|text| - 1]);
    assert forall c | c in text :: IsDigit(c) || c == '-' || c == '.';
  }

  /** What a subscriber decodes from a pushed line: the word ALERT, the node, the kind and
      the value in hundredths. */
  lemma {:induction false} AlertIsTold(a: Alert)
    requires SoundAlert(a)
    ensures DecodeMessage(SubscriberSpec.AlertLine(a)) == ["ALERT", a.id, a.kind, ValueText(a.value)]
    ensures ParseDecimal(ValueText(a.value)) == Some(Rounded(a.value))
  {
    ValueRoundTrip(a.value);
    KindIsWord(a.kind);
    WordCloses(a.kind);
    ValueCloses(a.value);
    assert SEPARATOR !in "ALERT" && "ALERT" + "|" == "ALERT|";
    DecodeFour("ALERT", a.id, a.kind, ValueText(a.value));
  }

  function PushedLines(alerts: seq<Alert>): seq<string> {
    seq(|alerts|, k requires 0 <= k < |alerts| => SubscriberSpec.AlertLine(alerts[k]))
  }

  /** The lines pushed for these alerts, decoded as take_alerts hands them out. */
  lemma {:induction false} HandedOutAlerts(alerts: seq<Alert>, i: nat)
    requires i < |alerts| && forall a | a in alerts :: SoundAlert(a)
    ensures var rows := DecodeEach(PushedLines(alerts));
            |rows| == |alerts| && rows[i] == ["ALERT", alerts[i].id, alerts[i].kind, ValueText(alerts[i].value)]
  {
    assert alerts[i] in alerts;
    AlertIsTold(alerts[i]);
  }

  // Rows of lists

  lemma {:induction false} DigitsAreTold(m: nat)
    ensures ParseUnsigned(Digits(m)) == Some(m as real) && ParseDecimal(Digits(m)) == Some(m as real)
    ensures SEPARATOR !in Digits(m)
  {
    NumberOfDigits(m);
    PlainHasNoExponent(Digits(m));
    WholeIsRead(Digits(m));
    assert Digits(m)[0] in Digits(m);
  }

  lemma {:induction false} MinusIsTold(m: nat)
    ensures ParseDecimal("-" + Digits(m)) == Some(-(m as real)) && SEPARATOR !in "-" + Digits(m)
  {
    DigitsAreTold(m);
    Signed('-', Digits(m));
    assert "-" == ['-'];
  }

  lemma {:induction false} IntIsTold(n: int)
    ensures ParseDecimal(IntText(n)) == Some(n as real) && SEPARATOR !in IntText(n) && IntText(n) != ""
  {
    if n < 0 {
      MinusIsTold(-n);
    } else {
      DigitsAreTold(n);
    }
  }

  /** A row of GET_ALERTS: time stamp, node, kind, value. */
  lemma {:induction false} AlertRowIsTold(stamp: int, a: Alert)
    requires SoundAlert(a)
    ensures DecodeMessage(AlertRow(stamp, a)) == [IntText(stamp), a.id, a.kind, ValueText(a.value)]
  {
    IntIsTold(stamp);
    KindIsWord(a.kind);
    WordCloses(a.kind);
    ValueCloses(a.value);
    DecodeFour(IntText(stamp), a.id, a.kind, ValueText(a.value));
  }

  /** GET_ALERTS: row i of n is alert number total - n + i, where n is the lesser of total
      and 128, and the header says n. */
  lemma {:induction false} AlertListIsTold(s: State, stamps: seq<int>, i: nat)
    requires |stamps| == MAX_ALERTS && forall a | a in s.alerts :: SoundAlert(a)
    ensures var total := |s.alerts|;
            var n := if total < 128 then total else 128;
            var rows := AlertRows(s.alerts, stamps, OldestShown(total));
            && |rows| == n && DecodeMessage(Header(n)) == ["OK", Digits(n)]
            && (i < n ==> var a := s.alerts[total - n + i];
                          DecodeMessage(rows[i])[1..] == [a.id, a.kind, ValueText(a.value)])
  {
    var total := |s.alerts|;
    var n: nat := if total < 128 then total else 128;
    HeaderIsTold(n);
    if i < n {
      ShownAlert(s.alerts, stamps, OldestShown(total), i);
    }
  }

  lemma {:induction false} ShownAlert(history: seq<Alert>, stamps: seq<int>, from: nat, i: nat)
    requires |stamps| == MAX_ALERTS && from + i < |history| && forall a | a in history :: SoundAlert(a)
    ensures var a := history[from + i];
            DecodeMessage(AlertRows(history, stamps, from)[i])[1..] == [a.id, a.kind, ValueText(a.value)]
  {
    assert history[from + i] in history;
    AlertRowIsTold(stamps[(from + i) % MAX_ALERTS], history[from + i]);
  }

  lemma {:induction false} HeaderIsTold(n: nat)
    ensures DecodeMessage(Header(n)) == ["OK", Digits(n)] && Number(Digits(n)) == n
  {
    NumberOfDigits(n);
    DigitsClose(n);
    assert SEPARATOR !in "OK" && "OK" + "|" == "OK|";
    DecodeTwo("OK", Digits(n));
  }

  /** A row of GET_NODES: the node and whatever the clock says about it. */
  lemma {:induction false} NodeRowIsTold(rec: TelemetryNode, state: string, seconds: int)
    requires IsNodeId(rec.id) && IsWord(state)
    ensures DecodeMessage(NodeRow(rec, state + "|" + IntText(seconds))) == [rec.id, state, IntText(seconds)]
  {
    WordCloses(state);
    IntCloses(seconds);
    DecodeThree(rec.id, state, IntText(seconds));
    assert NodeRow(rec, state + "|" + IntText(seconds)) == rec.id + "|" + state + "|" + IntText(seconds) by {
      Associate(rec.id + "|", state + "|", IntText(seconds));
      Associate(rec.id + "|", state, "|");
    }
  }

  lemma {:induction false} IntCloses(n: int)
    ensures Closes(IntText(n))
  {
    IntIsTold(n);
    DigitsClose(if n < 0 then -n else n);
    var m: nat := if n < 0 then -n else n;
    assert IntText(n)[|IntText(n)| - 1] == Digits(m)[|Digits(m)| - 1];
  }

  /** GET_LAST for a node that has sent nothing yet. */
  lemma {:induction false} NoDataIsTold(rec: TelemetryNode, seen: int)
    requires IsNodeId(rec.id) && rec.unique == 0
    ensures DecodeMessage(CommandServer.LastLine(rec, seen)) == ["OK", rec.id, "0", "NO_DATA"]
  {
    WordCloses("NO_DATA");
    assert SEPARATOR !in "OK" && SEPARATOR !in "0";
    DecodeFour("OK", rec.id, "0", "NO_DATA");
    assert "OK" + "|" == "OK|" && "|" + "0" + "|" + "NO_DATA" == "|0|NO_DATA";
    NoDataLine(rec.id);
  }

  lemma {:induction false} NoDataLine(id: string)
    ensures "OK" + "|" + id + "|" + "0" + "|" + "NO_DATA" == "OK|" + id + "|0|NO_DATA"
  {
  }

  // STATS

  /** The ten counters of a node under the names that the protocol gives them. */
  function StatsFields(rec: TelemetryNode): seq<(string, nat)> {
    [("attempts", rec.attempts), ("sent", rec.sent), ("omitted", rec.omitted), ("send_errors", rec.errors),
     ("unique", rec.unique), ("duplicates", rec.duplicates), ("reordered", rec.reordered),
     ("loss_estimated", rec.lost), ("report_seen", if rec.reportSeen then 1 else 0),
     ("final_report", if rec.final then 1 else 0)]
  }

  function FieldTexts(fields: seq<(string, nat)>): seq<string> {
    if fields == [] then []
    else FieldTexts(fields[..|fields| - 1]) + [fields[|fields| - 1].0 + "=" + Digits(fields[|fields| - 1].1)]
  }

  predicate IsKey(s: string) {
    1 <= |s| <= 14 && forall c | c in s :: 'a' <= c <= 'z' || c == '_'
  }

  predicate GoodKeys(fields: seq<(string, nat)>) {
    && (forall f | f in fields :: IsKey(f.0))
    && forall i, j | 0 <= i < j < |fields| :: fields[i].0 != fields[j].0
  }

  /** How long the ten keys are. */
  const LENGTHS: seq<nat> := [8, 4, 7, 11, 6, 10, 9, 14, 11, 12]

  lemma {:induction false} KeyIsWord(rec: TelemetryNode, i: nat)
    requires i < 10
    ensures IsKey(StatsFields(rec)[i].0) && |StatsFields(rec)[i].0| == LENGTHS[i]
  {
    if i < 5 {
      FirstKeys(rec, i);
    } else {
      LastKeys(rec, i);
    }
  }

  lemma {:induction false} FirstKeys(rec: TelemetryNode, i: nat)
    requires i < 5
    ensures IsKey(StatsFields(rec)[i].0) && |StatsFields(rec)[i].0| == LENGTHS[i]
  {
    var key := StatsFields(rec)[i].0;
    assert key == "attempts" || key == "sent" || key == "omitted" || key == "send_errors" || key == "unique";
  }

  lemma {:induction false} LastKeys(rec: TelemetryNode, i: nat)
    requires 5 <= i < 10
    ensures IsKey(StatsFields(rec)[i].0) && |StatsFields(rec)[i].0| == LENGTHS[i]
  {
    var key := StatsFields(rec)[i].0;
    assert key == "duplicates" || key == "reordered" || key == "loss_estimated" || key == "report_seen" ||
           key == "final_report";
  }

  lemma {:induction false} KeysDiffer(rec: TelemetryNode, i: nat, j: nat)
    requires i < j < 10
    ensures StatsFields(rec)[i].0 != StatsFields(rec)[j].0
  {
    KeyIsWord(rec, i);
    KeyIsWord(rec, j);
    if LENGTHS[i] == LENGTHS[j] {
      assert i == 3 && j == 8;
      assert StatsFields(rec)[3].0[0] == 's' && StatsFields(rec)[8].0[0] == 'r';
    }
  }

  lemma {:induction false} KeysAreGood(rec: TelemetryNode)
    ensures GoodKeys(StatsFields(rec))
  {
    var fields := StatsFields(rec);
    forall f | f in fields
      ensures IsKey(f.0)
    {
      var i :| 0 <= i < |fields| && f == fields[i];
      KeyIsWord(rec, i);
    }
    forall i, j | 0 <= i < j < |fields|
      ensures fields[i].0 != fields[j].0
    {
      KeysDiffer(rec, i, j);
    }
  }

  lemma {:induction false} DictGrows(fields: seq<(string, nat)>, d: map<string, string>)
    requires fields != [] && GoodKeys(fields) && DictOf(fields[..|fields| - 1], Some(d))
    ensures var f := fields[|fields| - 1]; DictOf(fields, Some(d[f.0 := Digits(f.1)]))
  {
    var before, f := fields[..|fields| - 1], fields[|fields| - 1];
    var after := d[f.0 := Digits(f.1)];
    assert forall x :: x in fields <==> x in before || x == f;
    assert after.Keys == d.Keys + {f.0};
    forall i | 0 <= i < |fields|
      ensures fields[i].0 in after && after[fields[i].0] == Digits(fields[i].1)
    {
      if i < |before| {
        assert fields[i] == before[i] && before[i] in before;
      }
    }
  }

  lemma {:induction false} FieldTextsDecode(fields: seq<(string, nat)>)
    requires GoodKeys(fields)
    ensures DictOf(fields, DecodePairs(FieldTexts(fields)))
  {
    if fields != [] {
      var before, f := fields[..|fields| - 1], fields[|fields| - 1];
      assert f in fields && IsKey(f.0) && forall x | x in before :: x in fields;
      FieldTextsDecode(before);
      EqualsSplits(f.0, Digits(f.1));
      DecodePairsSnoc(FieldTexts(before), f.0 + "=" + Digits(f.1));
      DictGrows(fields, DecodePairs(FieldTexts(before)).value);
    }
  }

  lemma {:induction false} FieldTextsArePlain(fields: seq<(string, nat)>)
    requires forall f | f in fields :: IsKey(f.0)
    ensures |FieldTexts(fields)| == |fields|
    ensures forall p | p in FieldTexts(fields) ::
              forall c | c in p :: 'a' <= c <= 'z' || c == '_' || c == '=' || IsDigit(c)
  {
    if fields != [] {
      var before, f := fields[..|fields| - 1], fields[|fields| - 1];
      assert f in fields && forall x | x in before :: x in fields;
      FieldTextsArePlain(before);
    }
  }

  lemma {:induction false} StatsTextIsFields(rec: TelemetryNode)
    ensures StatsParts(rec) == FieldTexts(StatsFields(rec))
  {
    var fields, parts := StatsFields(rec), StatsParts(rec);
    FieldTextsOf(fields, 10);
    assert |parts| == 10;
    assert forall i | 0 <= i < 5 :: parts[i] == fields[i].0 + "=" + Digits(fields[i].1);
    assert forall i | 5 <= i < 10 :: parts[i] == fields[i].0 + "=" + Digits(fields[i].1);
  }

  lemma {:induction false} FieldTextsOf(fields: seq<(string, nat)>, n: nat)
    requires n <= |fields|
    ensures FieldTexts(fields[..n]) ==
            seq(n, i requires 0 <= i < n => fields[i].0 + "=" + Digits(fields[i].1))
    ensures fields[..|fields|] == fields
  {
    if n > 0 {
      FieldTextsOf(fields, n - 1);
      assert fields[..n][..n - 1] == fields[..n - 1];
    }
  }

  /** Every counter fits the C type that prints it. */
  predicate FitsLong(rec: TelemetryNode) {
    forall f | f in StatsFields(rec) :: f.1 < 0x8000_0000_0000_0000
  }

  lemma {:induction false} TenToThe19()
    ensures Power10(19) == 10000000000000000000
  {
    assert Power10(4) == 10000;
    assert Power10(8) == 100000000;
    assert Power10(12) == 1000000000000;
    assert Power10(16) == 10000000000000000;
  }

  lemma {:induction false} FieldTextsAreShort(fields: seq<(string, nat)>)
    requires forall f | f in fields :: IsKey(f.0) && f.1 < 0x8000_0000_0000_0000
    ensures forall p | p in FieldTexts(fields) :: |p| <= 34
  {
    if fields != [] {
      var before, f := fields[..|fields| - 1], fields[|fields| - 1];
      assert f in fields && forall x | x in before :: x in fields;
      FieldTextsAreShort(before);
      TenToThe19();
      DigitsAreShort(f.1, 19);
    }
  }

  predicate StatsChar(c: char) {
    'a' <= c <= 'z' || c == '_' || c == '=' || c == ';' || IsDigit(c)
  }

  lemma {:induction false} StatsTextIsPlain(rec: TelemetryNode)
    ensures StatsText(rec) != "" && forall c | c in StatsText(rec) :: StatsChar(c)
    ensures Split(StatsText(rec), ';') == FieldTexts(StatsFields(rec))
  {
    var fields := StatsFields(rec);
    var texts := FieldTexts(fields);
    KeysAreGood(rec);
    StatsTextIsFields(rec);
    FieldTextsArePlain(fields);
    SplitOfJoin(texts, ';');
    EqualsIsThere(rec);
    forall c | c in StatsText(rec)
      ensures StatsChar(c)
    {
      CharsOfJoin(texts, ';', c);
    }
  }

  lemma {:induction false} StatsTextCloses(rec: TelemetryNode)
    ensures Closes(StatsText(rec))
  {
    StatsTextIsPlain(rec);
    assert StatsText(rec)[|StatsText(rec)| - 1] in StatsText(rec);
    assert !StatsChar(SEPARATOR) && !StatsChar('\r') && !StatsChar('\n');
  }

  lemma {:induction false} TenFieldsAreShort(fields: seq<(string, nat)>)
    requires |fields| == 10 && forall f | f in fields :: IsKey(f.0) && f.1 < 0x8000_0000_0000_0000
    ensures |FieldTexts(fields)| == 10 && |Join(FieldTexts(fields), ';')| <= 350
  {
    FieldTextsAreShort(fields);
    FieldTextsArePlain(fields);
    JoinIsShort(FieldTexts(fields), ';', 35);
  }

  lemma {:induction false} StatsTextIsShort(rec: TelemetryNode)
    requires FitsLong(rec)
    ensures Clipped(StatsText(rec)) == StatsText(rec)
  {
    KeysAreGood(rec);
    StatsTextIsFields(rec);
    TenFieldsAreShort(StatsFields(rec));
  }

  lemma {:induction false} EqualsIsThere(rec: TelemetryNode)
    ensures '=' in StatsText(rec)
  {
    var parts := StatsParts(rec);
    assert '=' in parts[0] && parts[0] in parts;
    CharsOfJoin(parts, ';', '=');
  }

  lemma {:induction false} StatsFieldsAreTold(rec: TelemetryNode)
    ensures DecodeMeasurements(StatsText(rec)) == DecodePairs(FieldTexts(StatsFields(rec)))
    ensures DictOf(StatsFields(rec), DecodeMeasurements(StatsText(rec)))
  {
    StatsTextIsPlain(rec);
    EqualsIsThere(rec);
    KeysAreGood(rec);
    FieldTextsDecode(StatsFields(rec));
  }

  /** The dictionary has exactly these keys, each with the digits of its number. */
  ghost predicate DictOf(fields: seq<(string, nat)>, d: Option<map<string, string>>) {
    && d.Some?
    && d.value.Keys == (set f | f in fields :: f.0)
    && forall i | 0 <= i < |fields| :: d.value[fields[i].0] == Digits(fields[i].1)
  }

  /** A row of STATS: the node, its session, and a third part whose ten keys the client finds
      with the values of the node's ten counters, and no other key. */
  lemma {:induction false} StatsRowIsTold(rec: TelemetryNode)
    requires IsNodeId(rec.id) && IsSession(rec.session) && FitsLong(rec)
    ensures DecodeMessage(StatsRow(rec)) == [rec.id, rec.session, StatsText(rec)]
    ensures DictOf(StatsFields(rec), DecodeMeasurements(StatsText(rec)))
  {
    StatsTextIsShort(rec);
    StatsTextCloses(rec);
    StatsFieldsAreTold(rec);
    DecodeThree(rec.id, rec.session, StatsText(rec));
  }
}
