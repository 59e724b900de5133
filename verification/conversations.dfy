/** Whole conversations on one connection: what the server answers to each request, and what
    the client is given for it when alerts are pushed in between. */
module Conversations {
  import opened Config
  import opened Prelude
  import opened NodeRecord
  import opened RegistrySpec
  import opened TelepProtocol
  import opened ClientMessages
  import opened AlertDemux
  import opened ListReplies
  import opened ListDelivery
  import opened CommandServer

  // Any replies, alerts anywhere

  /** The conversation as the client sees it: without the lines that look like alerts. */
  function Filtered(talk: seq<Exchange>): (filtered: seq<Exchange>)
    ensures |filtered| == |talk|
    ensures forall i | 0 <= i < |talk| :: filtered[i] == Exchange(talk[i].command, Replies(talk[i].reply))
  {
    if talk == [] then [] else [Exchange(talk[0].command, Replies(talk[0].reply))] + Filtered(talk[1..])
  }

  lemma {:induction false} FilteredReplies(talk: seq<Exchange>)
    ensures AllReplies(Filtered(talk)) == Replies(AllReplies(talk))
  {
    if talk != [] {
      FilteredReplies(talk[1..]);
      RepliesConcat(talk[0].reply, AllReplies(talk[1..]));
      assert Filtered(talk)[1..] == Filtered(talk[1..]);
    }
  }

  lemma {:induction false} AnswersByCommand(talk: seq<Exchange>, replies: seq<string>, trouble: Problem)
    ensures Answers(Filtered(talk), replies, trouble) == Answers(talk, replies, trouble)
  {
    if talk != [] {
      AnswersByCommand(talk[1..], Later(talk[0].command, replies), trouble);
      assert Filtered(talk)[1..] == Filtered(talk[1..]);
    }
  }

  /** Conversations stay in step even when rows look like alerts: the i-th request is given
      what is left of the i-th reply. */
  lemma {:induction false} ConversationStaysInStep(talk: seq<Exchange>, wire: seq<Written>, trouble: Problem, i: nat)
    requires i < |talk| && forall x | x in talk :: IsReplyTo(x.command, Replies(x.reply))
    requires PushesAreAlerts(wire) && RepliesOf(wire) == AllReplies(talk)
    ensures var answers := Answers(talk, Replies(LinesOf(wire)), trouble);
            |answers| == |talk| && answers[i] == Ok(AnswerTo(Replies(talk[i].reply)))
  {
    var filtered := Filtered(talk);
    forall x | x in filtered
      ensures IsReplyTo(x.command, x.reply)
    {
      var k :| 0 <= k < |filtered| && x == filtered[k];
      assert talk[k] in talk;
    }
    PushesVanish(wire);
    FilteredReplies(talk);
    AnswersByCommand(talk, Replies(LinesOf(wire)), trouble);
    ConversationIsInStep(filtered, [], trouble, i);
    assert AllReplies(filtered) + [] == AllReplies(filtered);
  }

  // What the server answers

  /** One request as the client encodes it, the state and the clocks when it is answered,
      and whether the subscriber table has no room then. */
  datatype Asked = Asked(parts: seq<string>, state: State, clock: Clock, tableFull: bool)

  predicate CanBeEncoded(parts: seq<string>) {
    parts != [] && EncodeMessage(parts).Some?
  }

  /** What the server makes of the frame, which may be a refusal. */
  function RequestOf(parts: seq<string>): Request
    requires CanBeEncoded(parts)
  {
    var frame := EncodeMessage(parts).value;
    ReadFrame(frame[..|frame| - 1])
  }

  ghost predicate Answerable(x: Asked) {
    CanBeEncoded(x.parts) && x.clock.Valid() && |x.state.nodes| <= MAX_NODES && ValidIds(x.state.nodes)
  }

  ghost function Served(x: Asked): Exchange
    requires Answerable(x)
  {
    Exchange(x.parts[0], ReplyFor(RequestOf(x.parts), x.state, x.clock, x.tableFull))
  }

  ghost function ReplyFor(request: Request, s: State, clock: Clock, tableFull: bool): seq<string>
    requires clock.Valid() && |s.nodes| <= MAX_NODES
  {
    if request.Subscribe? then [SubscribeLine(tableFull)] else Response(s, request, clock)
  }

  /** Whether none of the rows asked for looks like an alert. */
  ghost predicate Complete(x: Asked) {
    CanBeEncoded(x.parts) ==> HidesNothing(RequestOf(x.parts), x.state)
  }

  ghost predicate HidesNothing(request: Request, s: State) {
    match request
    case GetNodes => NoNodeNamedAlert(s.nodes)
    case Stats(None) => NoNodeNamedAlert(s.nodes)
    case Stats(Some(id)) => id == "ALERT" ==> Lookup(s, id).None?
    case _ => true
  }

  predicate AsksForList(request: Request) {
    request.GetNodes? || request.GetAlerts? || request.Stats?
  }

  /** A request and the command it came with. */
  predicate Matches(command: string, request: Request) {
    && (AsksForList(request) ==> HasListReply(command))
    && (HasListReply(command) ==> AsksForList(request) || request.Refused?)
    && (request.Stats? ==> command == "STATS")
  }

  lemma {:induction false} RequestIsRead(parts: seq<string>)
    requires CanBeEncoded(parts)
    ensures RequestOf(parts) == Refused(ERR_BAD_FORMAT) || RequestOf(parts) == ReadParts(parts)
  {
    ServerParsesEncoded(parts);
  }

  /** Which commands are answered with a list. */
  lemma {:induction false} ListCommands(parts: seq<string>)
    requires CanBeEncoded(parts)
    ensures Matches(parts[0], RequestOf(parts))
  {
    RequestIsRead(parts);
    ReadMatches(parts);
  }

  lemma {:induction false} ReadMatches(parts: seq<string>)
    requires parts != []
    ensures Matches(parts[0], ReadParts(parts))
  {
  }

  // Lists

  lemma {:induction false} RowsBetween(command: string, n: nat, rows: seq<string>)
    requires HasListReply(command) && END_OF_LIST !in rows
    ensures var reply := [Header(n)] + rows + [END_OF_LIST];
            IsReplyTo(command, reply) && AnswerTo(reply) == DecodeEach([Header(n)] + rows)
  {
    var reply := [Header(n)] + rows + [END_OF_LIST];
    HeaderIsOk(n);
    EndIsNoHeader();
    assert "OK" != END_OF_LIST;
    assert forall i | 1 <= i <= |rows| :: reply[i] == rows[i - 1] && rows[i - 1] in rows;
    EndOfListIs(reply, |rows| + 1);
    assert reply[..|rows| + 1] == [Header(n)] + rows;
  }

  /** The reply as it is, the reply as the client sees it, and whether they agree. */
  ghost predicate Fits(command: string, reply: seq<string>, complete: bool) {
    && IsReplyTo(command, reply) && IsReplyTo(command, Replies(reply))
    && (AnswerTo(Replies(reply)) == AnswerTo(reply) <==> complete)
    && (NoAlertAmong(reply) <==> complete)
  }

  lemma {:induction false} ListingFits(command: string, rows: seq<string>)
    requires HasListReply(command) && END_OF_LIST !in rows
    ensures Fits(command, Listing(rows), NoAlertAmong(rows))
  {
    RepliesCount(rows);
    RepliesOfListing(rows);
    NoAlertInListing(rows);
    RowsBetween(command, |rows|, rows);
    RowsBetween(command, |rows|, Replies(rows));
    assert |DecodeEach([Header(|rows|)] + rows)| == 1 + |rows|;
    assert |DecodeEach([Header(|rows|)] + Replies(rows))| == 1 + |Replies(rows)|;
  }

  lemma {:induction false} NodesFit(command: string, s: State, clock: Clock)
    requires HasListReply(command) && clock.Valid() && |s.nodes| <= MAX_NODES && ValidIds(s.nodes)
    ensures Fits(command, Response(s, GetNodes, clock), HidesNothing(GetNodes, s))
  {
    NodeRowsAsAlerts(s.nodes, clock.activity);
    ListingFits(command, NodeRows(s.nodes, clock.activity));
  }

  lemma {:induction false} AlertsFit(command: string, s: State, clock: Clock)
    requires HasListReply(command) && clock.Valid() && |s.nodes| <= MAX_NODES
    ensures Fits(command, Response(s, GetAlerts, clock), HidesNothing(GetAlerts, s))
  {
    AlertRowsFit(command, s.alerts, clock.stamps, OldestShown(|s.alerts|), Response(s, GetAlerts, clock));
  }

  lemma {:induction false} AlertRowsFit(command: string, alerts: seq<Alert>, stamps: seq<int>, from: nat,
                                        reply: seq<string>)
    requires HasListReply(command) && |stamps| == MAX_ALERTS && from <= |alerts|
    requires reply == Listing(AlertRows(alerts, stamps, from))
    ensures Fits(command, reply, true)
  {
    AlertRowsArePlain(alerts, stamps, from);
    ListingFits(command, AlertRows(alerts, stamps, from));
  }

  lemma {:induction false} StatsFit(s: State, clock: Clock)
    requires clock.Valid() && |s.nodes| <= MAX_NODES && ValidIds(s.nodes)
    ensures Fits("STATS", Response(s, Stats(None), clock), HidesNothing(Stats(None), s))
  {
    StatsRowsFit(s.nodes, Response(s, Stats(None), clock), HidesNothing(Stats(None), s));
  }

  lemma {:induction false} StatsRowsFit(nodes: seq<Entry>, reply: seq<string>, complete: bool)
    requires ValidIds(nodes)
    requires reply == Listing(StatsRows(nodes)) && (complete <==> NoNodeNamedAlert(nodes))
    ensures Fits("STATS", reply, complete)
  {
    StatsRowsAsAlerts(nodes);
    ListingFits("STATS", StatsRows(nodes));
  }

  lemma {:induction false} OneNodeFits(s: State, id: string, clock: Clock)
    requires clock.Valid() && |s.nodes| <= MAX_NODES && ValidIds(s.nodes)
    ensures Fits("STATS", Response(s, Stats(Some(id)), clock), HidesNothing(Stats(Some(id)), s))
  {
    OneReplyFits(s, id, Response(s, Stats(Some(id)), clock), HidesNothing(Stats(Some(id)), s));
  }

  /** The four requests that ask for a list, and what is left of their replies. */
  lemma {:induction false} ListsFit(command: string, request: Request, s: State, clock: Clock)
    requires AsksForList(request) && Matches(command, request)
    requires clock.Valid() && |s.nodes| <= MAX_NODES && ValidIds(s.nodes)
    ensures Fits(command, Response(s, request, clock), HidesNothing(request, s))
  {
    match request
    case GetNodes => NodesFit(command, s, clock);
    case GetAlerts => AlertsFit(command, s, clock);
    case Stats(None) => StatsFit(s, clock);
    case Stats(Some(id)) => OneNodeFits(s, id, clock);
  }

  lemma {:induction false} OneReplyFits(s: State, id: string, reply: seq<string>, complete: bool)
    requires ValidIds(s.nodes)
    requires reply == StatsReply(s, Some(id)) && (complete <==> (id == "ALERT" ==> Lookup(s, id).None?))
    ensures Fits("STATS", reply, complete)
  {
    match Lookup(s, id)
    case Some(e) =>
      var row := StatsRow(e.rec);
      assert IsNodeId(s.nodes[Find(s.nodes, id)].rec.id);
      StatsRowLooksLikeAlert(e.rec);
      assert NoAlertAmong([row]) <==> id != "ALERT" by {
        assert row in [row];
      }
      ListingFits("STATS", [row]);
    case None =>
      ErrorIsNoHeader(ERR_UNKNOWN_NODE);
      LineFits("STATS", ErrorLine(ERR_UNKNOWN_NODE));
  }

  // Single lines

  lemma {:induction false} LineFits(command: string, line: string)
    requires !IsAlert(line) && (HasListReply(command) ==> DecodeMessage(line)[0] != "OK")
    ensures Fits(command, [line], true)
  {
    assert [line][1..] == [];
  }

  lemma {:induction false} ErrorIsNoHeader(code: nat)
    ensures DecodeMessage(ErrorLine(code))[0] != "OK" && !IsAlert(ErrorLine(code))
  {
    var line := ErrorLine(code);
    ErrorNameEnds(code);
    assert line[|line| - 1] == ErrorName(code)[|ErrorName(code)| - 1];
    assert TrimRight(line, NEWLINES) == line;
    assert line[0] == 'E' && line[0] != SEPARATOR;
    assert DecodeMessage(line)[0][0] == 'E';
  }

  lemma {:induction false} ErrorNameEnds(code: nat)
    ensures ErrorName(code) != "" && ErrorName(code)[|ErrorName(code)| - 1] !in NEWLINES
  {
  }

  lemma {:induction false} SinglesFit(command: string, request: Request, s: State, clock: Clock, tableFull: bool)
    requires !AsksForList(request) && Matches(command, request)
    requires clock.Valid() && |s.nodes| <= MAX_NODES
    ensures Fits(command, ReplyFor(request, s, clock, tableFull), HidesNothing(request, s))
  {
    var line := ReplyFor(request, s, clock, tableFull)[0];
    assert ReplyFor(request, s, clock, tableFull) == [line];
    if request.Refused? {
      ErrorIsNoHeader(request.code);
    } else {
      assert line[0] != 'A';
    }
    LineFits(command, line);
  }

  lemma {:induction false} EveryReplyFits(x: Asked)
    requires Answerable(x)
    ensures Fits(Served(x).command, Served(x).reply, Complete(x))
  {
    ListCommands(x.parts);
    if AsksForList(RequestOf(x.parts)) {
      ListsFit(x.parts[0], RequestOf(x.parts), x.state, x.clock);
    } else {
      SinglesFit(x.parts[0], RequestOf(x.parts), x.state, x.clock, x.tableFull);
    }
  }

  // Conversations with the server

  ghost function Talk(asked: seq<Asked>): seq<Exchange>
    requires forall x | x in asked :: Answerable(x)
  {
    seq(|asked|, k requires 0 <= k < |asked| => (assert asked[k] in asked; Served(asked[k])))
  }

  /** Every conversation on one connection, from any requests that can be encoded, SUBSCRIBE
      and malformed ones included, whatever happens to the server in between and wherever
      alerts are pushed: the i-th request returns what is left of the server's answer to it.
      That is the whole answer if and only if none of its rows is that of a node named ALERT;
      and the alerts stay apart if and only if that holds of all answers. */
  lemma {:induction false} EveryConversationIsInStep(asked: seq<Asked>, wire: seq<Written>, trouble: Problem, i: nat)
    requires i < |asked| && forall x | x in asked :: Answerable(x)
    requires PushesAreAlerts(wire) && RepliesOf(wire) == AllReplies(Talk(asked))
    ensures var answers := Answers(Talk(asked), Replies(LinesOf(wire)), trouble);
            var reply := Served(asked[i]).reply;
            && |answers| == |asked| && answers[i] == Ok(AnswerTo(Replies(reply)))
            && (answers[i] == Ok(AnswerTo(reply)) <==> Complete(asked[i]))
    ensures Alerts(LinesOf(wire)) == PushesOf(wire) <==> forall x | x in asked :: Complete(x)
  {
    AllFit(asked);
    assert FitsAt(asked, i);
    ConversationStaysInStep(Talk(asked), wire, trouble, i);
    PushesStayApart(asked, wire);
  }

  lemma {:induction false} AllFit(asked: seq<Asked>)
    requires forall x | x in asked :: Answerable(x)
    ensures forall k | 0 <= k < |asked| :: FitsAt(asked, k)
    ensures forall x | x in Talk(asked) :: IsReplyTo(x.command, Replies(x.reply))
  {
    forall k | 0 <= k < |asked|
      ensures FitsAt(asked, k)
    {
      assert asked[k] in asked;
      EveryReplyFits(asked[k]);
    }
    forall x | x in Talk(asked)
      ensures IsReplyTo(x.command, Replies(x.reply))
    {
      var k :| 0 <= k < |asked| && x == Talk(asked)[k];
      assert FitsAt(asked, k);
    }
  }

  ghost predicate FitsAt(asked: seq<Asked>, k: nat)
    requires k < |asked| && forall x | x in asked :: Answerable(x)
  {
    var x := Talk(asked)[k];
    x == Served(asked[k]) && Fits(x.command, x.reply, Complete(asked[k]))
  }

  lemma {:induction false} PushesStayApart(asked: seq<Asked>, wire: seq<Written>)
    requires forall x | x in asked :: Answerable(x)
    requires PushesAreAlerts(wire) && RepliesOf(wire) == AllReplies(Talk(asked))
    ensures Alerts(LinesOf(wire)) == PushesOf(wire) <==> forall x | x in asked :: Complete(x)
  {
    AllFit(asked);
    SeparationIsExact(wire);
    AlertAmongReplies(Talk(asked));
    forall k | 0 <= k < |asked|
      ensures NoAlertAmong(Talk(asked)[k].reply) <==> Complete(asked[k])
    {
      assert FitsAt(asked, k);
    }
    SameVerdicts(asked, Talk(asked));
  }

  lemma {:induction false} SameVerdicts(asked: seq<Asked>, talk: seq<Exchange>)
    requires |talk| == |asked|
    requires forall k | 0 <= k < |asked| :: NoAlertAmong(talk[k].reply) <==> Complete(asked[k])
    ensures (forall x | x in talk :: NoAlertAmong(x.reply)) <==> (forall x | x in asked :: Complete(x))
  {
    if forall x | x in talk :: NoAlertAmong(x.reply) {
      forall x | x in asked
        ensures Complete(x)
      {
        var k :| 0 <= k < |asked| && x == asked[k];
        assert talk[k] in talk;
      }
    }
    if forall x | x in asked :: Complete(x) {
      forall x | x in talk
        ensures NoAlertAmong(x.reply)
      {
        var k :| 0 <= k < |talk| && x == talk[k];
        assert asked[k] in asked;
      }
    }
  }

  lemma {:induction false} AlertAmongReplies(talk: seq<Exchange>)
    ensures NoAlertAmong(AllReplies(talk)) <==> forall x | x in talk :: NoAlertAmong(x.reply)
  {
    if talk != [] {
      AlertAmongReplies(talk[1..]);
      assert forall x :: x in talk <==> x == talk[0] || x in talk[1..];
      assert forall l :: l in AllReplies(talk) <==> l in talk[0].reply || l in AllReplies(talk[1..]);
    }
  }
}
