/** From the server's list replies to what the client's request returns, with alerts
    pushed anywhere in between and the stream cut in any way. */
module ListDelivery {
  import opened Config
  import opened Prelude
  import opened Decimal
  import opened Fields
  import opened NodeRecord
  import opened RegistrySpec
  import opened TelepProtocol
  import opened Measurements
  import opened SubscriberSpec
  import opened ClientMessages
  import opened AlertDemux
  import opened TelepConnections
  import opened ListReplies

  // The lines themselves

  /** What a broadcast puts on the wire is an alert line and fits into a frame. */
  lemma {:induction false} PushedLineIsAlert(id: string, m: Measurement)
    requires IsNodeId(id) && InRange(m)
    ensures var line := AlertLine(AlertFor(id, m)); IsAlert(line) && Sendable(line)
  {
    var alert := AlertFor(id, m);
    var line := AlertLine(alert);
    KindIsPlain(m);
    AlertValueIsPlain(m);
    PlainTextConcat("ALERT|", id);
    PlainTextConcat("ALERT|" + id, "|");
    PlainTextConcat("ALERT|" + id + "|", alert.kind);
    PlainTextConcat("ALERT|" + id + "|" + alert.kind, "|");
    PlainTextConcat("ALERT|" + id + "|" + alert.kind + "|", ValueText(alert.value));
    assert line[..6] == "ALERT|";
  }

  lemma {:induction false} PlainTextConcat(a: string, b: string)
    requires PlainText(a) && PlainText(b)
    ensures PlainText(a + b)
  {
  }

  lemma {:induction false} KindIsPlain(m: Measurement)
    requires InRange(m)
    ensures |Kind(m.name)| <= 11 && PlainText(Kind(m.name))
  {
    NamesArePlain(m);
    PlainTextConcat(m.name, "_HIGH");
  }

  lemma {:induction false} AlertValueIsPlain(m: Measurement)
    requires InRange(m)
    ensures var x := if m.name == "STATUS" then 0.0 else m.value;
            |ValueText(x)| <= 11 && PlainText(ValueText(x))
  {
    var x := if m.name == "STATUS" then 0.0 else m.value;
    RoundedStaysInRange(x, -100, 1000000);
    assert Power10(7) == 10000000 by {
      assert Power10(3) == 1000 && Power10(5) == 100000;
    }
    ValueTextIsShort(x, 7);
  }

  /** A row that begins with a node id looks like an alert exactly when the id is ALERT. */
  lemma {:induction false} RowLooksLikeAlert(id: string, rest: string)
    requires IsNodeId(id)
    ensures IsAlert(id + "|" + rest) <==> id == "ALERT"
    ensures id + "|" + rest != END_OF_LIST
  {
    var row := id + "|" + rest;
    assert row == id + ("|" + rest);
    assert forall k | 0 <= k < |id| :: id[k] in id;
    IndexOfConcat(id, "|" + rest, '|');
    assert IndexOf(row, '|') == |id|;
    if IsAlert(row) {
      assert row[..6] == "ALERT|" && row[5] == '|';
      assert forall k | 0 <= k < 5 :: row[k] == "ALERT"[k];
      assert |id| == 5;
      assert id == row[..5] == "ALERT";
    }
    if id == "ALERT" {
      assert row == "ALERT|" + rest;
    }
    assert row[|id|] == '|';
  }

  lemma {:induction false} HeaderIsOk(n: nat)
    ensures DecodeMessage(Header(n))[0] == "OK" && !IsAlert(Header(n))
  {
    var text := Header(n);
    assert Digits(n)[|Digits(n)| - 1] in Digits(n);
    assert text[|text| - 1] == Digits(n)[|Digits(n)| - 1];
    assert TrimRight(text, NEWLINES) == text;
    assert text == "OK" + [SEPARATOR] + Digits(n);
    SplitAt("OK", Digits(n), SEPARATOR);
  }

  // Lists in general

  lemma {:induction false} RepliesConcat(a: seq<string>, b: seq<string>)
    ensures Replies(a + b) == Replies(a) + Replies(b)
  {
    if a == [] {
      assert a + b == b;
    } else {
      var own := if IsAlert(a[0]) then [] else [a[0]];
      RepliesConcat(a[1..], b);
      assert (a + b)[1..] == a[1..] + b && (a + b)[0] == a[0];
      Regroup(own, Replies(a[1..]), Replies(b));
    }
  }

  lemma {:induction false} RepliesCount(lines: seq<string>)
    ensures |Replies(lines)| <= |lines|
    ensures |Replies(lines)| == |lines| <==> NoAlertAmong(lines)
    ensures NoAlertAmong(lines) ==> Replies(lines) == lines
    ensures forall l | l in Replies(lines) :: l in lines
  {
    if lines != [] {
      RepliesCount(lines[1..]);
      assert lines[0] in lines && forall l :: l in lines <==> l == lines[0] || l in lines[1..];
      assert lines == [lines[0]] + lines[1..];
    }
  }

  /** Pushed alerts never reach a reply: what is left is what the reply lines leave. */
  lemma {:induction false} PushesVanish(wire: seq<Written>)
    requires PushesAreAlerts(wire)
    ensures Replies(LinesOf(wire)) == Replies(RepliesOf(wire))
  {
    if wire != [] {
      assert wire[0] in wire && forall w | w in wire[1..] :: w in wire;
      PushesVanish(wire[1..]);
      var own := if wire[0].Reply? then [wire[0].line] else [];
      RepliesConcat([wire[0].line], LinesOf(wire[1..]));
      RepliesConcat(own, RepliesOf(wire[1..]));
    }
  }

  lemma {:induction false} RepliesOfListing(rows: seq<string>)
    ensures Replies(Listing(rows)) == [Header(|rows|)] + Replies(rows) + [END_OF_LIST]
  {
    HeaderIsOk(|rows|);
    RepliesConcat([Header(|rows|)] + rows, [END_OF_LIST]);
    RepliesConcat([Header(|rows|)], rows);
    assert [Header(|rows|)][1..] == [] && [END_OF_LIST][1..] == [];
  }

  /** What request makes of a list reply: its header and those of its rows that do not look
      like an alert, wherever alerts were pushed; the rows are complete if and only if none
      looks like one. */
  lemma {:induction false} ListIsDelivered(command: string, rows: seq<string>, wire: seq<Written>, trouble: Problem)
    requires HasListReply(command) && PushesAreAlerts(wire) && RepliesOf(wire) == Listing(rows)
    requires END_OF_LIST !in rows
    ensures var answer := Answer(command, Replies(LinesOf(wire)), trouble);
            && answer == Ok(DecodeEach([Header(|rows|)] + Replies(rows)))
            && (answer == Ok(DecodeEach([Header(|rows|)] + rows)) <==> NoAlertAmong(rows))
    ensures Alerts(LinesOf(wire)) == PushesOf(wire) <==> NoAlertAmong(rows)
  {
    PushesVanish(wire);
    RepliesOfListing(rows);
    RepliesCount(rows);
    HeaderIsOk(|rows|);
    var reply := [Header(|rows|)] + Replies(rows) + [END_OF_LIST];
    assert reply[..|reply| - 1] == [Header(|rows|)] + Replies(rows);
    ListAnswer(command, reply, [], trouble);
    assert reply + [] == reply;
    assert |DecodeEach([Header(|rows|)] + Replies(rows))| == 1 + |Replies(rows)|;
    assert |DecodeEach([Header(|rows|)] + rows)| == 1 + |rows|;
    SeparationIsExact(wire);
    NoAlertInListing(rows);
  }

  lemma {:induction false} NoAlertInListing(rows: seq<string>)
    ensures NoAlertAmong(Listing(rows)) <==> NoAlertAmong(rows)
  {
    HeaderIsOk(|rows|);
    assert forall l :: l in Listing(rows) <==> l == Header(|rows|) || l in rows || l == END_OF_LIST;
  }

  /** However the socket hands over the bytes, a fresh connection reads the lines written. */
  lemma {:induction false} SocketCarriesLines(wire: seq<Written>, incoming: seq<Ready>)
    requires forall w | w in wire :: Sendable(w.line)
    requires Future(incoming) == Wire(LinesOf(wire))
    ensures ReadAll("" + Future(incoming)) == Reading(LinesOf(wire), Waiting(""))
  {
    LinesComeFromWire(wire);
    WireRoundTrip(LinesOf(wire), "");
    assert "" + Future(incoming) == Wire(LinesOf(wire)) + "";
    ExtractIsFirst("");
    assert LinesOf(wire) + [] == LinesOf(wire);
  }

  lemma {:induction false} LinesComeFromWire(wire: seq<Written>)
    requires forall w | w in wire :: Sendable(w.line)
    ensures forall l | l in LinesOf(wire) :: Sendable(l)
  {
    if wire != [] {
      assert wire[0] in wire && forall w | w in wire[1..] :: w in wire;
      LinesComeFromWire(wire[1..]);
    }
  }

  // The three lists

  ghost predicate ValidIds(nodes: seq<Entry>) {
    forall i | 0 <= i < |nodes| :: IsNodeId(nodes[i].rec.id)
  }

  ghost predicate NoNodeNamedAlert(nodes: seq<Entry>) {
    forall i | 0 <= i < |nodes| :: nodes[i].rec.id != "ALERT"
  }

  lemma {:induction false} NodeRowsAsAlerts(nodes: seq<Entry>, activity: seq<string>)
    requires ValidIds(nodes) && |nodes| <= |activity|
    ensures NoAlertAmong(NodeRows(nodes, activity)) <==> NoNodeNamedAlert(nodes)
    ensures END_OF_LIST !in NodeRows(nodes, activity)
  {
    var rows := NodeRows(nodes, activity);
    forall i | 0 <= i < |nodes|
      ensures (IsAlert(rows[i]) <==> nodes[i].rec.id == "ALERT") && rows[i] != END_OF_LIST && rows[i] in rows
    {
      RowLooksLikeAlert(nodes[i].rec.id, activity[i]);
    }
  }

  lemma {:induction false} StatsRowsAsAlerts(nodes: seq<Entry>)
    requires ValidIds(nodes)
    ensures NoAlertAmong(StatsRows(nodes)) <==> NoNodeNamedAlert(nodes)
    ensures END_OF_LIST !in StatsRows(nodes)
  {
    var rows := StatsRows(nodes);
    forall i | 0 <= i < |nodes|
      ensures (IsAlert(rows[i]) <==> nodes[i].rec.id == "ALERT") && rows[i] != END_OF_LIST && rows[i] in rows
    {
      StatsRowLooksLikeAlert(nodes[i].rec);
    }
  }

  lemma {:induction false} StatsRowLooksLikeAlert(rec: TelemetryNode)
    requires IsNodeId(rec.id)
    ensures (IsAlert(StatsRow(rec)) <==> rec.id == "ALERT") && StatsRow(rec) != END_OF_LIST
  {
    var text := Clipped(StatsText(rec));
    RowLooksLikeAlert(rec.id, rec.session + "|" + text);
    RegroupRow(rec.id, rec.session, text);
  }

  lemma {:induction false} RegroupRow(a: string, b: string, c: string)
    ensures a + "|" + b + "|" + c == a + "|" + (b + "|" + c)
  {
  }

  /** GET_NODES returns every registered node if and only if none is named ALERT. */
  lemma {:induction false} NodeListIsDelivered(s: State, activity: seq<string>, wire: seq<Written>, trouble: Problem)
    requires ValidIds(s.nodes) && |s.nodes| <= |activity| && PushesAreAlerts(wire)
    requires RepliesOf(wire) == Listing(NodeRows(s.nodes, activity))
    ensures var rows := NodeRows(s.nodes, activity);
            Answer("GET_NODES", Replies(LinesOf(wire)), trouble) == Ok(DecodeEach([Header(|s.nodes|)] + rows)) <==>
            NoNodeNamedAlert(s.nodes)
    ensures Alerts(LinesOf(wire)) == PushesOf(wire) <==> NoNodeNamedAlert(s.nodes)
  {
    NodeRowsAsAlerts(s.nodes, activity);
    ListIsDelivered("GET_NODES", NodeRows(s.nodes, activity), wire, trouble);
  }

  /** STATS without an argument likewise. */
  lemma {:induction false} StatsAreDelivered(s: State, wire: seq<Written>, trouble: Problem)
    requires ValidIds(s.nodes) && PushesAreAlerts(wire)
    requires RepliesOf(wire) == StatsReply(s, None)
    ensures var all := DecodeEach([Header(|s.nodes|)] + StatsRows(s.nodes));
            Answer("STATS", Replies(LinesOf(wire)), trouble) == Ok(all) <==> NoNodeNamedAlert(s.nodes)
    ensures Alerts(LinesOf(wire)) == PushesOf(wire) <==> NoNodeNamedAlert(s.nodes)
  {
    StatsRowsAsAlerts(s.nodes);
    ListIsDelivered("STATS", StatsRows(s.nodes), wire, trouble);
  }

  /** STATS for one node: its row arrives if and only if the node is not named ALERT; an
      unknown node gets the error. */
  lemma {:induction false} StatsOfOneAreDelivered(s: State, id: string, wire: seq<Written>, trouble: Problem)
    requires ValidIds(s.nodes) && PushesAreAlerts(wire)
    requires RepliesOf(wire) == StatsReply(s, Some(id))
    ensures var answer := Answer("STATS", Replies(LinesOf(wire)), trouble);
            match Lookup(s, id)
            case Some(e) =>
              && (answer == Ok(DecodeEach([Header(1), StatsRow(e.rec)])) <==> id != "ALERT")
              && (Alerts(LinesOf(wire)) == PushesOf(wire) <==> id != "ALERT")
            case None =>
              && answer == Ok([["ERR", "102", "UNKNOWN_NODE"]])
              && Alerts(LinesOf(wire)) == PushesOf(wire)
  {
    match Lookup(s, id)
    case Some(e) =>
      var row := StatsRow(e.rec);
      assert IsNodeId(s.nodes[Find(s.nodes, id)].rec.id);
      StatsRowLooksLikeAlert(e.rec);
      assert NoAlertAmong([row]) <==> id != "ALERT" by {
        assert row in [row];
      }
      ListIsDelivered("STATS", [row], wire, trouble);
      assert [Header(1)] + [row] == [Header(1), row];
    case None =>
      UnknownNodeIsAnswered(wire, trouble);
  }

  lemma {:induction false} UnknownNodeLine()
    ensures DecodeMessage(ErrorLine(ERR_UNKNOWN_NODE)) == ["ERR", "102", "UNKNOWN_NODE"]
    ensures !IsAlert(ErrorLine(ERR_UNKNOWN_NODE))
  {
    ErrorText();
    DecodeThree("ERR", "102", "UNKNOWN_NODE");
  }

  lemma {:induction false} ErrorText()
    ensures ErrorLine(ERR_UNKNOWN_NODE) == "ERR" + "|" + "102" + "|" + "UNKNOWN_NODE"
    ensures SEPARATOR !in "ERR" && SEPARATOR !in "102" && SEPARATOR !in "UNKNOWN_NODE"
  {
    assert Digits(102) == "102" by {
      assert Digits(10) == "10";
    }
  }

  lemma {:induction false} UnknownNodeIsAnswered(wire: seq<Written>, trouble: Problem)
    requires PushesAreAlerts(wire) && RepliesOf(wire) == [ErrorLine(ERR_UNKNOWN_NODE)]
    ensures Answer("STATS", Replies(LinesOf(wire)), trouble) == Ok([["ERR", "102", "UNKNOWN_NODE"]])
    ensures Alerts(LinesOf(wire)) == PushesOf(wire)
  {
    UnknownNodeLine();
    SeparationIsExact(wire);
  }

  lemma {:induction false} AlertRowIsPlain(stamp: int, alert: Alert)
    ensures !IsAlert(AlertRow(stamp, alert)) && AlertRow(stamp, alert) != END_OF_LIST
  {
    var text := IntText(stamp);
    var magnitude := if stamp < 0 then -stamp else stamp;
    assert Digits(magnitude)[0] in Digits(magnitude);
    assert text[0] == '-' || IsDigit(text[0]);
    assert AlertRow(stamp, alert)[0] == text[0];
  }

  lemma {:induction false} AlertRowsArePlain(history: seq<Alert>, stamps: seq<int>, from: nat)
    requires from <= |history| && |stamps| == MAX_ALERTS
    ensures NoAlertAmong(AlertRows(history, stamps, from)) && END_OF_LIST !in AlertRows(history, stamps, from)
  {
    var rows := AlertRows(history, stamps, from);
    forall i | 0 <= i < |rows|
      ensures !IsAlert(rows[i]) && rows[i] != END_OF_LIST
    {
      AlertRowIsPlain(stamps[(from + i) % MAX_ALERTS], history[from + i]);
    }
  }

  /** GET_ALERTS returns every row whatever the nodes are called: a row begins with its
      time stamp. */
  lemma {:induction false} AlertListIsDelivered(s: State, stamps: seq<int>, wire: seq<Written>, trouble: Problem)
    requires |stamps| == MAX_ALERTS && PushesAreAlerts(wire)
    requires RepliesOf(wire) == Listing(AlertRows(s.alerts, stamps, OldestShown(|s.alerts|)))
    ensures var rows := AlertRows(s.alerts, stamps, OldestShown(|s.alerts|));
            Answer("GET_ALERTS", Replies(LinesOf(wire)), trouble) == Ok(DecodeEach([Header(|rows|)] + rows))
    ensures Alerts(LinesOf(wire)) == PushesOf(wire)
  {
    var from := OldestShown(|s.alerts|);
    AlertRowsArePlain(s.alerts, stamps, from);
    ListIsDelivered("GET_ALERTS", AlertRows(s.alerts, stamps, from), wire, trouble);
  }

  /** The id that breaks GET_NODES: one node named ALERT, and the client returns no row. */
  lemma {:induction false} NodeNamedAlertIsMissing(session: string, activity: string, trouble: Problem)
    ensures IsNodeId("ALERT")
    ensures var s := Step(EMPTY, Hello("ALERT", session));
            && |s.nodes| == 1
            && Answer("GET_NODES", Replies(Listing(NodeRows(s.nodes, [activity]))), trouble) ==
               Ok([DecodeMessage(Header(1))])
  {
    var s := Step(EMPTY, Hello("ALERT", session));
    assert s.nodes == [Fresh("ALERT", session)];
    var rows := NodeRows(s.nodes, [activity]);
    var row := NodeRow(s.nodes[0].rec, activity);
    assert rows == [row];
    RowLooksLikeAlert("ALERT", activity);
    LoneRowVanishes(row, trouble);
  }

  lemma {:induction false} LoneRowVanishes(row: string, trouble: Problem)
    requires IsAlert(row)
    ensures Answer("GET_NODES", Replies(Listing([row])), trouble) == Ok([DecodeMessage(Header(1))])
  {
    RepliesOfListing([row]);
    assert Replies([row]) == [] by {
      assert [row][1..] == [];
    }
    var reply := [Header(1), END_OF_LIST];
    HeaderIsOk(1);
    ListAnswer("GET_NODES", reply, [], trouble);
    assert reply + [] == reply && [Header(1)] + [] + [END_OF_LIST] == reply;
    assert DecodeEach(reply[..1]) == [DecodeMessage(Header(1))];
  }
}
