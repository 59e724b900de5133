/** client/telep.py: class TelepConnection. The socket is a field that holds what select
    and recv will yield; `stream`, `lines` and `given` record what has happened. */
module TelepConnections {
  import opened Prelude
  import opened ClientMessages
  import opened AlertDemux

  /** One select on the socket and, when it is readable, what recv then returns: no data
      means that the server closed the connection. */
  datatype Ready = Readable(data: string) | NotReady

  /** The bytes that can be received before the first timeout or close. */
  function Future(incoming: seq<Ready>): string {
    if incoming == [] || incoming[0].NotReady? || incoming[0].data == "" then ""
    else incoming[0].data + Future(incoming[1..])
  }

  /** How many times recv returns those bytes. */
  function Chunks(incoming: seq<Ready>): nat {
    if incoming == [] || incoming[0].NotReady? || incoming[0].data == "" then 0 else 1 + Chunks(incoming[1..])
  }

  /** What a caller that waits for more than those bytes runs into. */
  function Stop(incoming: seq<Ready>): (p: Problem)
    ensures p == TimedOut || p == ServerClosed
  {
    if incoming == [] || incoming[0].NotReady? then TimedOut
    else if incoming[0].data == "" then ServerClosed
    else Stop(incoming[1..])
  }

  datatype Progress = Took(line: string) | Received | Stuck(problem: Problem)

  lemma {:induction false} UnreadAfterExtract(buffer: string, future: string)
    ensures match Extract(buffer)
            case Partial => true
            case Bad(problem, _) => ReadAll(buffer + future) == Reading([], Failed(problem))
            case Line(line, rest) => ReadAll(buffer + future) == Prepend([line], ReadAll(rest + future))
  {
    ExtractLonger(buffer, future);
    ExtractIsFirst(buffer + future);
  }

  class TelepConnection {
    var buffer: string
    var pendingAlerts: seq<seq<string>>
    var incoming: seq<Ready>
    ghost var stream: string            // every byte received
    ghost var lines: seq<string>        // every line extracted
    ghost var given: seq<seq<string>>   // every alert take_alerts handed out
    ghost var intact: bool              // no frame has been refused

    /** The lines so far and the buffer are what the whole stream amounts to. */
    ghost predicate Framed()
      reads this
    {
      intact ==> ReadAll(stream) == Prepend(lines, ReadAll(buffer))
    }

    /** Alerts handed out and alerts pending are together the alerts received, in order. */
    ghost predicate Valid()
      reads this
    {
      Framed() && given + pendingAlerts == DecodeEach(Alerts(lines))
    }

    /** What is still to be read before the first timeout or close. */
    ghost function Unread(): Reading
      reads this
    {
      ReadAll(buffer + Future(incoming))
    }

    ghost function Trouble(): (p: Problem)
      reads this
      ensures p != Unsolicited
    {
      if Unread().end.Failed? then Unread().end.problem else Stop(incoming)
    }

    constructor (socket: seq<Ready>)
      ensures Valid() && incoming == socket && intact
      ensures buffer == "" && stream == "" && lines == [] && given == [] && pendingAlerts == []
    {
      buffer, pendingAlerts, incoming := "", [], socket;
      stream, lines, given, intact := "", [], [], true;
      new;
      ExtractIsFirst("");
    }

    /** _extract: a line, None for a partial one, or an error. */
    method ExtractLine() returns (r: Outcome<Option<string>>)
      requires Framed()
      modifies this`buffer, this`lines, this`intact
      ensures Framed()
      ensures match old(Extract(buffer))
              case Partial => r == Ok(None) && buffer == old(buffer) && lines == old(lines) && intact == old(intact)
              case Bad(problem, rest) => r == Error(problem) && buffer == rest && lines == old(lines) && !intact &&
                                         old(Unread()) == Reading([], Failed(problem))
              case Line(line, rest) => r == Ok(Some(line)) && buffer == rest && lines == old(lines) + [line] &&
                                       intact == old(intact) && old(Unread()) == Prepend([line], Unread())
    {
      ExtractIsFirst(buffer);
      UnreadAfterExtract(buffer, Future(incoming));
      match Extract(buffer) {
        case Partial =>
          assert buffer + "" == buffer;
          r := Ok(None);
        case Bad(problem, rest) =>
          buffer, intact := rest, false;
          r := Error(problem);
        case Line(line, rest) =>
          PrependTwice(lines, [line], ReadAll(rest));
          buffer, lines := rest, lines + [line];
          r := Ok(Some(line));
      }
    }

    /** One select with a time limit. */
    method Select() returns (ready: bool)
      modifies this`incoming
      ensures ready <==> old(incoming) != [] && old(incoming)[0].Readable?
      ensures incoming == if ready || old(incoming) == [] then old(incoming) else old(incoming)[1..]
    {
      ready := incoming != [] && incoming[0].Readable?;
      if !ready && incoming != [] {
        incoming := incoming[1..];
      }
    }

    /** _receive, called only when the buffer holds no whole line. */
    method Receive() returns (closed: bool)
      requires Framed() && incoming != [] && incoming[0].Readable?
      requires Extract(buffer).Partial?
      modifies this`buffer, this`incoming, this`stream
      ensures Framed() && incoming == old(incoming)[1..]
      ensures closed <==> old(incoming)[0].data == ""
      ensures stream == old(stream) + old(incoming)[0].data
      ensures closed ==> buffer == old(buffer)
      ensures !closed ==> Unread() == old(Unread())
    {
      var data := incoming[0].data;
      incoming := incoming[1..];
      if data == "" {
        assert stream + data == stream;
        stream := stream + data;
        return true;
      }
      assert buffer + (data + Future(incoming)) == (buffer + data) + Future(incoming);
      ExtractIsFirst(buffer);
      MoreBytes(stream, data);
      assert lines + [] == lines;
      buffer := buffer + data;
      stream := stream + data;
      return false;
    }

    /** Sorts the line just extracted: a pushed alert goes to pending_alerts. */
    method SetAside(line: string, ghost before: seq<string>) returns (alert: bool)
      requires Framed() && lines == before + [line]
      requires given + pendingAlerts == DecodeEach(Alerts(before))
      modifies this`pendingAlerts
      ensures Valid() && alert == IsAlert(line)
    {
      AlertsSnoc(before, line);
      DecodeEachSnoc(Alerts(before), line);
      assert Alerts(before) + [] == Alerts(before);
      if !IsAlert(line) {
        return false;
      }
      assert given + (pendingAlerts + [DecodeMessage(line)]) == (given + pendingAlerts) + [DecodeMessage(line)];
      pendingAlerts := pendingAlerts + [DecodeMessage(line)];
      return true;
    }

    /** What read_line and take_alerts both do in one turn: extract a line or, when there
        is none yet, wait for bytes and receive them. */
    method Turn() returns (turn: Progress)
      requires Framed()
      modifies this`buffer, this`lines, this`intact, this`incoming, this`stream
      ensures Framed()
      ensures match turn
              case Took(line) => lines == old(lines) + [line] && old(Unread()) == Prepend([line], Unread()) &&
                                 incoming == old(incoming) && |buffer| < |old(buffer)|
              case Received => lines == old(lines) && Unread() == old(Unread()) &&
                               Stop(incoming) == old(Stop(incoming)) && Chunks(incoming) + 1 == old(Chunks(incoming)) &&
                               |incoming| < |old(incoming)|
              case Stuck(problem) => lines == old(lines) && old(Unread().lines) == [] && problem == old(Trouble())
    {
      var extracted := ExtractLine();
      if extracted.Error? {
        return Stuck(extracted.problem);
      }
      if extracted.value.Some? {
        return Took(extracted.value.value);
      }
      ExtractIsFirst(buffer);
      assert buffer + "" == buffer;
      var ready := Select();
      if !ready {
        return Stuck(TimedOut);
      }
      var closed := Receive();
      return if closed then Stuck(ServerClosed) else Received;
    }

    /** The turn in terms of what is still unread. */
    static lemma {:induction false} TookFirst(before: seq<string>, line: string, unread: Reading, rest: Reading)
      requires unread == Prepend([line], rest)
      ensures before + unread.lines == (before + [line]) + rest.lines
      ensures Replies(unread.lines) == (if IsAlert(line) then [] else [line]) + Replies(rest.lines)
      ensures unread.end == rest.end
    {
      assert unread.lines[1..] == rest.lines;
    }

    /** read_line: the first line to come that is not a pushed alert, however the stream is
        cut; without one, the error that ends the stream. */
    method ReadLine() returns (r: Outcome<string>)
      requires Valid()
      modifies this`buffer, this`lines, this`intact, this`incoming, this`stream, this`pendingAlerts
      ensures Valid()
      ensures var replies := old(Replies(Unread().lines));
              if replies == [] then r == Error(old(Trouble()))
              else
                && r == Ok(replies[0]) && Replies(Unread().lines) == replies[1..]
                && Trouble() == old(Trouble())
                && lines + Unread().lines == old(lines + Unread().lines)
    {
      while true
        invariant Valid()
        invariant Replies(Unread().lines) == old(Replies(Unread().lines))
        invariant Trouble() == old(Trouble())
        invariant lines + Unread().lines == old(lines + Unread().lines)
        decreases |incoming|, |buffer|
      {
        ghost var before, unread := lines, Unread();
        var turn := Turn();
        match turn {
          case Received =>
          case Stuck(problem) => return Error(problem);
          case Took(line) =>
            TookFirst(before, line, unread, Unread());
            var alert := SetAside(line, before);
            if !alert {
              return Ok(line);
            }
        }
      }
    }

    /** request after sendall: the rows up to END. */
    method ReadRows(header: seq<string>) returns (r: Outcome<seq<seq<string>>>)
      requires Valid()
      modifies this`buffer, this`lines, this`intact, this`incoming, this`stream, this`pendingAlerts
      ensures Valid()
      ensures var replies := old(Replies(Unread().lines));
              var k := EndOfList(replies);
              if k == |replies| then r == Error(old(Trouble()))
              else
                && r == Ok([header] + DecodeEach(replies[..k])) && Replies(Unread().lines) == replies[k + 1..]
                && Trouble() == old(Trouble())
                && lines + Unread().lines == old(lines + Unread().lines)
    {
      var response := [header];
      ghost var replies := Replies(Unread().lines);
      ghost var n := 0;
      while true
        invariant Valid()
        invariant n <= EndOfList(replies)
        invariant Replies(Unread().lines) == replies[n..]
        invariant response == [header] + DecodeEach(replies[..n])
        invariant Trouble() == old(Trouble())
        invariant lines + Unread().lines == old(lines + Unread().lines)
        decreases |replies| - n
      {
        var line := ReadLine();
        if line.Error? {
          return Error(line.problem);
        }
        RowsSnoc(header, replies, n);
        if line.value == END_OF_LIST {
          EndOfListIs(replies, n);
          return Ok(response);
        }
        response := response + [DecodeMessage(line.value)];
        n := n + 1;
      }
    }

    static lemma {:induction false} RowsSnoc(header: seq<string>, replies: seq<string>, n: nat)
      requires n < |replies|
      ensures replies[n..] != [] && replies[n..][0] == replies[n] && replies[n..][1..] == replies[n + 1..]
      ensures [header] + DecodeEach(replies[..n + 1]) ==
              [header] + DecodeEach(replies[..n]) + [DecodeMessage(replies[n])]
    {
      assert replies[..n + 1] == replies[..n] + [replies[n]];
      DecodeEachSnoc(replies[..n], replies[n]);
    }

    /** request after sendall. */
    method ReadAnswer(command: string) returns (r: Outcome<seq<seq<string>>>)
      requires Valid()
      modifies this`buffer, this`lines, this`intact, this`incoming, this`stream, this`pendingAlerts
      ensures Valid()
      ensures r == Answer(command, old(Replies(Unread().lines)), old(Trouble()))
      ensures r.Ok? ==>
                && Replies(Unread().lines) == Later(command, old(Replies(Unread().lines)))
                && Trouble() == old(Trouble())
                && lines + Unread().lines == old(lines + Unread().lines)
    {
      ghost var replies, trouble := Replies(Unread().lines), Trouble();
      var first := ReadLine();
      if first.Error? {
        return Error(first.problem);
      }
      var header := DecodeMessage(first.value);
      if !HasListReply(command) || header[0] != "OK" {
        AnswerOfOne(command, replies, trouble);
        return Ok([header]);
      }
      AnswerOfRows(command, replies, trouble);
      r := ReadRows(header);
    }

    /** request: its result depends only on the reply lines of the stream, not on the
        alerts among them or on how recv cuts it. */
    method Request(command: string, fields: seq<string>) returns (r: Outcome<seq<seq<string>>>)
      requires Valid()
      modifies this`buffer, this`lines, this`intact, this`incoming, this`stream, this`pendingAlerts
      ensures Valid()
      ensures EncodeMessage([command] + fields).None? ==> r == Error(Unencodable) && Unread() == old(Unread())
      ensures EncodeMessage([command] + fields).Some? ==>
                r == Answer(command, old(Replies(Unread().lines)), old(Trouble()))
      ensures r.Ok? ==>
                && Replies(Unread().lines) == Later(command, old(Replies(Unread().lines)))
                && Trouble() == old(Trouble())
                && lines + Unread().lines == old(lines + Unread().lines)
    {
      if EncodeMessage([command] + fields).None? {
        return Error(Unencodable);
      }
      r := ReadAnswer(command);
    }

    static lemma {:induction false} Regroup(a: seq<string>, b: seq<string>, c: seq<string>)
      ensures (a + b) + c == a + (b + c)
    {
    }

    /** The loop of take_alerts: at most 256 turns, never waiting for a partial line. */
    method Collect() returns (trouble: Option<Problem>, ghost taken: seq<string>)
      requires Valid()
      modifies this`buffer, this`lines, this`intact, this`incoming, this`stream, this`pendingAlerts
      ensures Valid()
      ensures given == old(given)
      ensures taken <= old(Unread().lines) && lines == old(lines) + taken
      ensures trouble == Some(Unsolicited) ==> Replies(old(Unread().lines)) != []
      ensures trouble.Some? && trouble.value != Unsolicited ==> trouble.value == old(Trouble()) != TimedOut
      ensures trouble.None? ==> Replies(taken) == []
      ensures trouble.None? && |old(Unread().lines)| + old(Chunks(incoming)) < 256 ==>
                taken == old(Unread().lines) && old(Trouble()) == TimedOut
    {
      taken := [];
      var i := 0;
      ghost var received := 0;
      assert old(lines) + [] == old(lines);
      assert [] + old(Unread().lines) == old(Unread().lines);
      while i < 256
        invariant 0 <= i <= 256 && i == |taken| + received
        invariant Valid() && given == old(given)
        invariant old(Unread().lines) == taken + Unread().lines && lines == old(lines) + taken
        invariant Replies(taken) == [] && Trouble() == old(Trouble())
        invariant received + Chunks(incoming) == old(Chunks(incoming))
      {
        ghost var before, unread := lines, Unread();
        var turn := Turn();
        i := i + 1;
        match turn {
          case Received => received := received + 1;
          case Stuck(problem) =>
            assert taken + [] == taken;
            return if problem == TimedOut then None else Some(problem), taken;
          case Took(line) =>
            TookFirst(taken, line, unread, Unread());
            RepliesSnoc(taken, line);
            var alert := SetAside(line, before);
            Regroup(old(lines), taken, [line]);
            taken := taken + [line];
            if !alert {
              RepliesOfPrefix(taken, Unread().lines);
              return Some(Unsolicited), taken;
            }
        }
      }
      return None, taken;
    }

    /** take_alerts: hands out every alert received and not handed out before, in order.
        What is buffered or ready is drained completely within the limit of 256 turns. */
    method TakeAlerts() returns (r: Outcome<seq<seq<string>>>, ghost taken: seq<string>)
      requires Valid()
      modifies this
      ensures Valid()
      ensures taken <= old(Unread().lines) && lines == old(lines) + taken
      ensures r.Ok? ==> Replies(taken) == [] && given == old(given) + r.value == DecodeEach(Alerts(lines))
      ensures r.Error? ==> given == old(given)
      ensures r.Error? ==>
                (if r.problem == Unsolicited then Replies(old(Unread().lines)) != []
                 else r.problem == old(Trouble()) != TimedOut)
      ensures |old(Unread().lines)| + old(Chunks(incoming)) < 256 ==>
                && (r.Ok? <==> Replies(old(Unread().lines)) == [] && old(Trouble()) == TimedOut)
                && (r.Ok? ==> taken == old(Unread().lines))
    {
      var trouble;
      trouble, taken := Collect();
      if trouble.Some? {
        return Error(trouble.value), taken;
      }
      var alerts := pendingAlerts;
      pendingAlerts := [];
      given := given + alerts;
      assert given + [] == given;
      return Ok(alerts), taken;
    }
  }

  /** What a fresh connection makes of the bytes a socket is going to deliver. */
  function FreshAnswer(command: string, incoming: seq<Ready>): Outcome<seq<seq<string>>> {
    var reading := ReadAll(Future(incoming));
    Answer(command, Replies(reading.lines), if reading.end.Failed? then reading.end.problem else Stop(incoming))
  }

  /** send_one_request: open a connection, send one command, close. */
  method SendOneRequest(command: string, fields: seq<string>, socket: seq<Ready>)
    returns (r: Outcome<seq<seq<string>>>, connection: TelepConnection)
    ensures fresh(connection) && connection.Valid()
    ensures r == if EncodeMessage([command] + fields).None? then Error(Unencodable) else FreshAnswer(command, socket)
  {
    connection := new TelepConnection(socket);
    assert "" + Future(socket) == Future(socket);
    r := connection.Request(command, fields);
  }
}
