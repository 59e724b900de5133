/** client/telep.py: what a connection makes of a stream in which replies and pushed
    alerts are mixed. */
module AlertDemux {
  import opened Fields
  import opened ClientMessages

  const ALERT_PREFIX := "ALERT|"
  const END_OF_LIST := "END"

  predicate IsAlert(line: string) {
    ALERT_PREFIX <= line
  }

  /** The lines that are not pushed alerts, in order. */
  function Replies(lines: seq<string>): seq<string> {
    if lines == [] then [] else (if IsAlert(lines[0]) then [] else [lines[0]]) + Replies(lines[1..])
  }

  /** The pushed alerts, in order. */
  function Alerts(lines: seq<string>): seq<string> {
    if lines == [] then [] else (if IsAlert(lines[0]) then [lines[0]] else []) + Alerts(lines[1..])
  }

  function DecodeEach(lines: seq<string>): seq<seq<string>> {
    seq(|lines|, i requires 0 <= i < |lines| => DecodeMessage(lines[i]))
  }

  lemma {:induction false} DecodeEachSnoc(lines: seq<string>, line: string)
    ensures DecodeEach(lines + [line]) == DecodeEach(lines) + [DecodeMessage(line)]
  {
  }

  lemma {:induction false} AlertsSnoc(lines: seq<string>, line: string)
    ensures Alerts(lines + [line]) == Alerts(lines) + if IsAlert(line) then [line] else []
  {
    if lines == [] {
      assert [] + [line] == [line] && [line][1..] == [];
    } else {
      AlertsSnoc(lines[1..], line);
      assert (lines + [line])[1..] == lines[1..] + [line];
    }
  }

  lemma {:induction false} RepliesSnoc(lines: seq<string>, line: string)
    ensures Replies(lines + [line]) == Replies(lines) + if IsAlert(line) then [] else [line]
  {
    if lines == [] {
      assert [] + [line] == [line] && [line][1..] == [];
    } else {
      RepliesSnoc(lines[1..], line);
      assert (lines + [line])[1..] == lines[1..] + [line];
    }
  }

  lemma {:induction false} RepliesOfPrefix(a: seq<string>, b: seq<string>)
    requires Replies(a) != []
    ensures Replies(a + b) != []
  {
    assert (a + b)[1..] == a[1..] + b;
    if IsAlert(a[0]) {
      RepliesOfPrefix(a[1..], b);
    }
  }

  // What request returns

  datatype Outcome<T> = Ok(value: T) | Error(problem: Problem)

  /** The commands whose reply is a list closed by END. */
  predicate HasListReply(command: string) {
    command == "GET_NODES" || command == "GET_ALERTS" || command == "STATS"
  }

  /** The position of the END line, or |lines|. */
  function EndOfList(lines: seq<string>): (k: nat)
    ensures k <= |lines|
    ensures k < |lines| ==> lines[k] == END_OF_LIST
    ensures forall i | 0 <= i < k :: lines[i] != END_OF_LIST
  {
    if lines == [] || lines[0] == END_OF_LIST then 0 else 1 + EndOfList(lines[1..])
  }

  /** What request makes of the reply lines to come; `trouble` is what stops the stream. */
  function Answer(command: string, replies: seq<string>, trouble: Problem): Outcome<seq<seq<string>>> {
    if replies == [] then Error(trouble)
    else if HasListReply(command) && DecodeMessage(replies[0])[0] == "OK" then
      var rows := EndOfList(replies[1..]);
      if rows + 1 == |replies| then Error(trouble) else Ok(DecodeEach(replies[..rows + 1]))
    else Ok([DecodeMessage(replies[0])])
  }

  /** The reply lines that request leaves unread when it returns an answer. */
  function Later(command: string, replies: seq<string>): seq<string> {
    if replies == [] then []
    else if HasListReply(command) && DecodeMessage(replies[0])[0] == "OK" then
      var rows := EndOfList(replies[1..]);
      if rows + 1 == |replies| then [] else replies[rows + 2..]
    else replies[1..]
  }

  lemma {:induction false} AnswerOfOne(command: string, replies: seq<string>, trouble: Problem)
    requires replies != [] && !(HasListReply(command) && DecodeMessage(replies[0])[0] == "OK")
    ensures Answer(command, replies, trouble) == Ok([DecodeMessage(replies[0])])
    ensures Later(command, replies) == replies[1..]
  {
  }

  /** The answer once its first line is read. */
  lemma {:induction false} AnswerOfRows(command: string, replies: seq<string>, trouble: Problem)
    requires replies != [] && HasListReply(command) && DecodeMessage(replies[0])[0] == "OK"
    ensures var rest := replies[1..];
            var k := EndOfList(rest);
            && (k < |rest| ==> rest[k + 1..] == Later(command, replies))
            && Answer(command, replies, trouble) ==
               if k == |rest| then Error(trouble) else Ok([DecodeMessage(replies[0])] + DecodeEach(rest[..k]))
  {
    var k := EndOfList(replies[1..]);
    assert DecodeEach(replies[..k + 1]) == [DecodeMessage(replies[0])] + DecodeEach(replies[1..][..k]);
  }

  // Replies and alerts put on one wire

  /** The lines of one connection, as the thread that owns it writes them. */
  datatype Written = Reply(line: string) | Push(line: string)

  function LinesOf(wire: seq<Written>): seq<string> {
    if wire == [] then [] else [wire[0].line] + LinesOf(wire[1..])
  }

  function RepliesOf(wire: seq<Written>): seq<string> {
    if wire == [] then [] else (if wire[0].Reply? then [wire[0].line] else []) + RepliesOf(wire[1..])
  }

  function PushesOf(wire: seq<Written>): seq<string> {
    if wire == [] then [] else (if wire[0].Push? then [wire[0].line] else []) + PushesOf(wire[1..])
  }

  predicate PushesAreAlerts(wire: seq<Written>) {
    forall w | w in wire && w.Push? :: IsAlert(w.line)
  }

  predicate NoAlertAmong(lines: seq<string>) {
    forall l | l in lines :: !IsAlert(l)
  }

  lemma {:induction false} RepliesAreFewer(wire: seq<Written>)
    requires PushesAreAlerts(wire)
    ensures |Replies(LinesOf(wire))| <= |RepliesOf(wire)|
    ensures !NoAlertAmong(RepliesOf(wire)) ==> |Replies(LinesOf(wire))| < |RepliesOf(wire)|
  {
    if wire != [] {
      assert wire[0] in wire && forall w | w in wire[1..] :: w in wire;
      RepliesAreFewer(wire[1..]);
      assert LinesOf(wire)[1..] == LinesOf(wire[1..]);
    }
  }

  /** Wherever the alerts fall among the reply lines, the client separates the two exactly
      if and only if no reply line looks like an alert. */
  lemma {:induction false} SeparationIsExact(wire: seq<Written>)
    requires PushesAreAlerts(wire)
    ensures Replies(LinesOf(wire)) == RepliesOf(wire) <==> NoAlertAmong(RepliesOf(wire))
    ensures Alerts(LinesOf(wire)) == PushesOf(wire) <==> NoAlertAmong(RepliesOf(wire))
  {
    if NoAlertAmong(RepliesOf(wire)) {
      SeparationWithoutAlertRows(wire);
    } else {
      RepliesAreFewer(wire);
      AlertsAreMore(wire);
    }
  }

  lemma {:induction false} SeparationWithoutAlertRows(wire: seq<Written>)
    requires PushesAreAlerts(wire) && NoAlertAmong(RepliesOf(wire))
    ensures Replies(LinesOf(wire)) == RepliesOf(wire) && Alerts(LinesOf(wire)) == PushesOf(wire)
  {
    if wire != [] {
      assert wire[0] in wire && forall w | w in wire[1..] :: w in wire;
      assert forall l | l in RepliesOf(wire[1..]) :: l in RepliesOf(wire);
      SeparationWithoutAlertRows(wire[1..]);
      assert LinesOf(wire)[1..] == LinesOf(wire[1..]);
      assert wire[0].Reply? ==> wire[0].line in RepliesOf(wire);
    }
  }

  lemma {:induction false} AlertsAreMore(wire: seq<Written>)
    requires PushesAreAlerts(wire)
    ensures |Alerts(LinesOf(wire))| >= |PushesOf(wire)|
    ensures !NoAlertAmong(RepliesOf(wire)) ==> |Alerts(LinesOf(wire))| > |PushesOf(wire)|
  {
    if wire != [] {
      assert wire[0] in wire && forall w | w in wire[1..] :: w in wire;
      AlertsAreMore(wire[1..]);
      assert LinesOf(wire)[1..] == LinesOf(wire[1..]);
    }
  }

  /** A list reply: a header, rows none of which is END, and END. */
  predicate IsListReply(lines: seq<string>) {
    && |lines| >= 2
    && DecodeMessage(lines[0])[0] == "OK"
    && lines[|lines| - 1] == END_OF_LIST
    && forall i | 1 <= i < |lines| - 1 :: lines[i] != END_OF_LIST
  }

  lemma {:induction false} EndOfListIs(lines: seq<string>, k: nat)
    requires k < |lines| && lines[k] == END_OF_LIST && forall i | 0 <= i < k :: lines[i] != END_OF_LIST
    ensures EndOfList(lines) == k
  {
  }

  /** request returns exactly the header and the rows of a list reply. */
  lemma {:induction false} ListAnswer(command: string, reply: seq<string>, more: seq<string>, trouble: Problem)
    requires HasListReply(command) && IsListReply(reply)
    ensures Answer(command, reply + more, trouble) == Ok(DecodeEach(reply[..|reply| - 1]))
  {
    var replies := reply + more;
    var rest := replies[1..];
    var n := |reply| - 2;
    assert forall i | 0 <= i <= n :: rest[i] == reply[i + 1];
    EndOfListIs(rest, n);
    assert replies[..n + 1] == reply[..|reply| - 1];
    assert replies[0] == reply[0];
  }

  // Conversations

  /** The reply lines that one command is due. */
  predicate IsReplyTo(command: string, reply: seq<string>) {
    && reply != []
    && if HasListReply(command) && DecodeMessage(reply[0])[0] == "OK" then IsListReply(reply) else |reply| == 1
  }

  /** What request makes of them: every line but END. */
  function AnswerTo(reply: seq<string>): seq<seq<string>> {
    DecodeEach(if |reply| == 1 then reply else reply[..EndOfList(reply)])
  }

  lemma {:induction false} EndClosesReply(reply: seq<string>)
    requires IsListReply(reply) && reply[0] != END_OF_LIST
    ensures EndOfList(reply) == |reply| - 1
  {
    EndOfListIs(reply, |reply| - 1);
  }

  lemma {:induction false} EndIsNoHeader()
    ensures DecodeMessage(END_OF_LIST) == [END_OF_LIST]
  {
    assert TrimRight(END_OF_LIST, NEWLINES) == END_OF_LIST;
    SplitNone(END_OF_LIST, '|');
  }

  /** Once the reply to a list command is returned, what is left is what follows its END. */
  lemma {:induction false} ListLater(command: string, reply: seq<string>, more: seq<string>)
    requires HasListReply(command) && IsListReply(reply)
    ensures Later(command, reply + more) == more
  {
    var replies := reply + more;
    var rest := replies[1..];
    var n := |reply| - 2;
    assert forall i | 0 <= i <= n :: rest[i] == reply[i + 1];
    EndOfListIs(rest, n);
    assert replies[0] == reply[0] && replies[n + 2..] == more;
  }

  /** A request takes exactly its own reply off the reply lines. */
  lemma {:induction false} ReplyIsAnswered(command: string, reply: seq<string>, more: seq<string>, trouble: Problem)
    requires IsReplyTo(command, reply)
    ensures Answer(command, reply + more, trouble) == Ok(AnswerTo(reply)) && Later(command, reply + more) == more
  {
    assert (reply + more)[0] == reply[0];
    if HasListReply(command) && DecodeMessage(reply[0])[0] == "OK" {
      EndIsNoHeader();
      assert "OK" != END_OF_LIST;
      EndClosesReply(reply);
      ListAnswer(command, reply, more, trouble);
      ListLater(command, reply, more);
    } else {
      assert (reply + more)[1..] == more && reply == [reply[0]];
      assert DecodeEach(reply) == [DecodeMessage(reply[0])];
    }
  }

  /** A command and the lines the server answers it with. */
  datatype Exchange = Exchange(command: string, reply: seq<string>)

  function AllReplies(talk: seq<Exchange>): seq<string> {
    if talk == [] then [] else talk[0].reply + AllReplies(talk[1..])
  }

  /** The results of one request after the other on the same reply lines. */
  function Answers(talk: seq<Exchange>, replies: seq<string>, trouble: Problem): seq<Outcome<seq<seq<string>>>> {
    if talk == [] then []
    else [Answer(talk[0].command, replies, trouble)] + Answers(talk[1..], Later(talk[0].command, replies), trouble)
  }

  /** In a conversation of any length the i-th request is given the i-th reply. */
  lemma {:induction false} ConversationIsInStep(talk: seq<Exchange>, more: seq<string>, trouble: Problem, i: nat)
    requires i < |talk| && forall x | x in talk :: IsReplyTo(x.command, x.reply)
    ensures var answers := Answers(talk, AllReplies(talk) + more, trouble);
            |answers| == |talk| && answers[i] == Ok(AnswerTo(talk[i].reply))
  {
    assert talk[0] in talk && forall x | x in talk[1..] :: x in talk;
    FirstExchange(talk, more, trouble);
    AnswersLength(talk[1..], AllReplies(talk[1..]) + more, trouble);
    if i > 0 {
      ConversationIsInStep(talk[1..], more, trouble, i - 1);
    }
  }

  lemma {:induction false} FirstExchange(talk: seq<Exchange>, more: seq<string>, trouble: Problem)
    requires talk != [] && IsReplyTo(talk[0].command, talk[0].reply)
    ensures Answers(talk, AllReplies(talk) + more, trouble) ==
            [Ok(AnswerTo(talk[0].reply))] + Answers(talk[1..], AllReplies(talk[1..]) + more, trouble)
  {
    var rest := AllReplies(talk[1..]) + more;
    assert AllReplies(talk) + more == talk[0].reply + rest;
    ReplyIsAnswered(talk[0].command, talk[0].reply, rest, trouble);
  }

  lemma {:induction false} AnswersLength(talk: seq<Exchange>, replies: seq<string>, trouble: Problem)
    ensures |Answers(talk, replies, trouble)| == |talk|
  {
    if talk != [] {
      AnswersLength(talk[1..], Later(talk[0].command, replies), trouble);
    }
  }

  /** The same with alerts pushed anywhere among the replies of the whole conversation. */
  lemma {:induction false} ConversationSurvivesPushes(talk: seq<Exchange>, wire: seq<Written>, trouble: Problem, i: nat)
    requires i < |talk| && forall x | x in talk :: IsReplyTo(x.command, x.reply)
    requires PushesAreAlerts(wire) && RepliesOf(wire) == AllReplies(talk) && NoAlertAmong(AllReplies(talk))
    ensures var answers := Answers(talk, Replies(LinesOf(wire)), trouble);
            |answers| == |talk| && answers[i] == Ok(AnswerTo(talk[i].reply))
    ensures Alerts(LinesOf(wire)) == PushesOf(wire)
  {
    SeparationIsExact(wire);
    ConversationIsInStep(talk, [], trouble, i);
    assert AllReplies(talk) + [] == AllReplies(talk);
  }
}
