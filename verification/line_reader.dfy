/** server/socket_helpers.c: the byte-at-a-time line reader. A byte is a char. */
module LineReader {
  import opened Prelude

  /** What one poll-and-recv of a single byte yields: a byte, EINTR or EAGAIN, end of
      stream, or an error or expired deadline. */
  datatype Arrival = Got(c: char) | Interrupted | EndOfStream | Broken

  const TOO_LONG := -2
  const INVALID := -3
  const CLOSED := 0
  const FAILED := -1

  predicate Printable(c: char) {
    32 <= c as int <= 126
  }

  /** The first index at which reading one line stops, or |input|. */
  function StopAt(input: seq<Arrival>): (k: nat)
    ensures k <= |input|
    ensures k < |input| ==> input[k] == Got('\n') || input[k].EndOfStream? || input[k].Broken?
    ensures forall i | 0 <= i < k :: input[i].Interrupted? || (input[i].Got? && input[i].c != '\n')
  {
    if input == [] || input[0] == Got('\n') || input[0].EndOfStream? || input[0].Broken? then 0
    else 1 + StopAt(input[1..])
  }

  /** The bytes among `input`, in order. */
  function Bytes(input: seq<Arrival>): string {
    if input == [] then ""
    else Bytes(input[..|input| - 1]) + if input[|input| - 1].Got? then [input[|input| - 1].c] else []
  }

  /** One final CR is dropped. */
  function StripCr(bytes: string): string {
    if bytes != [] && bytes[|bytes| - 1] == '\r' then bytes[..|bytes| - 1] else bytes
  }

  /** What a whole line is worth: too long, invalid, or its text. */
  function Verdict(bytes: string, capacity: nat): int {
    if |bytes| > capacity - 1 then TOO_LONG
    else if exists c | c in StripCr(bytes) :: !Printable(c) then INVALID
    else |StripCr(bytes)| + 1
  }

  predicate BadByte(c: char) {
    c != '\r' && !Printable(c)
  }

  /** The two flags the reader keeps decide the verdict. */
  lemma {:induction false} FlagsDecide(bytes: string)
    ensures (exists c :: c in StripCr(bytes) && !Printable(c)) <==>
            (exists c :: c in bytes && BadByte(c)) || '\r' in StripCr(bytes)
    ensures '\0' in StripCr(bytes) ==> exists c :: c in bytes && BadByte(c)
  {
    var text := StripCr(bytes);
    assert BadByte('\0') && ('\0' in text ==> '\0' in bytes);
    assert bytes == text || bytes == text + ['\r'];
    assert forall c :: c in bytes && c != '\r' <==> c in text && c != '\r';
    assert forall c :: BadByte(c) || c == '\r' <==> !Printable(c);
  }

  lemma {:induction false} BadByteSnoc(bytes: string, c: char)
    ensures (exists x :: x in bytes + [c] && BadByte(x)) <==> (exists x :: x in bytes && BadByte(x)) || BadByte(c)
  {
    assert forall x :: x in bytes + [c] <==> x in bytes || x == c;
  }

  /** strchr(buffer, '\r') on the NUL-terminated buffer. */
  method FindCr(buffer: array<char>, n: nat) returns (found: bool)
    requires n < buffer.Length && buffer[n] == '\0'
    ensures found ==> '\r' in buffer[..n]
    ensures !found ==> '\0' in buffer[..n] || '\r' !in buffer[..n]
  {
    var i := 0;
    while buffer[i] != '\0'
      invariant 0 <= i <= n
      invariant forall k | 0 <= k < i :: buffer[k] != '\r'
      decreases n - i
    {
      if buffer[i] == '\r' {
        assert buffer[..n][i] == '\r';
        return true;
      }
      i := i + 1;
    }
    assert i < n ==> buffer[..n][i] == '\0';
    return false;
  }

  /** What receive_line_until does once the LF has arrived. */
  method Finish(buffer: array<char>, capacity: nat, stored: nat, bad: bool, overflow: bool, ghost bytes: string)
    returns (result: int)
    requires 1 <= capacity <= buffer.Length
    requires stored == if |bytes| < capacity then |bytes| else capacity - 1
    requires buffer[..stored] == bytes[..stored]
    requires overflow <==> |bytes| > capacity - 1
    requires bad <==> exists c :: c in bytes && BadByte(c)
    modifies buffer
    ensures result == Verdict(bytes, capacity)
    ensures result > 0 ==> buffer[..result - 1] == StripCr(bytes) && buffer[result - 1] == '\0'
  {
    var n, invalid := stored, bad;
    FlagsDecide(bytes);
    if n > 0 && buffer[n - 1] == '\r' {
      n := n - 1;
    }
    assert !overflow ==> buffer[..n] == StripCr(bytes);
    buffer[n] := '\0';
    assert !overflow ==> buffer[..n] == StripCr(bytes);
    var cr := FindCr(buffer, n);
    if cr {
      invalid := true;
    }
    result := if overflow then TOO_LONG else if invalid then INVALID else n + 1;
  }

  /** receive_line_until: consumes exactly through the LF and leaves the verdict on the
      bytes before it; the text is in the buffer, NUL-terminated. */
  method ReceiveLine(input: seq<Arrival>, buffer: array<char>, capacity: nat) returns (result: int, used: nat)
    requires 1 <= capacity <= buffer.Length
    modifies buffer
    ensures var k := StopAt(input);
            if k < |input| && input[k] == Got('\n') then
              && used == k + 1
              && result == Verdict(Bytes(input[..k]), capacity)
              && (result > 0 ==> buffer[..result - 1] == StripCr(Bytes(input[..k])) && buffer[result - 1] == '\0')
            else
              && used == (if k < |input| then k + 1 else k)
              && result == (if k < |input| && input[k].EndOfStream? then CLOSED else FAILED)
  {
    var n, invalid, overflow := 0, false, false;
    used := 0;
    ghost var bytes := "";
    while true
      invariant 0 <= used <= StopAt(input)
      invariant bytes == Bytes(input[..used])
      invariant n == if |bytes| < capacity then |bytes| else capacity - 1
      invariant buffer[..n] == bytes[..n]
      invariant overflow <==> |bytes| > capacity - 1
      invariant invalid <==> exists c :: c in bytes && BadByte(c)
      decreases |input| - used
    {
      if used == |input| {
        return FAILED, used;
      }
      var arrival := input[used];
      assert input[..used + 1][..used] == input[..used];
      used := used + 1;
      match arrival {
        case Interrupted => continue;
        case EndOfStream => return CLOSED, used;
        case Broken => return FAILED, used;
        case Got(c) =>
          if c == '\n' {
            break;
          }
          if c == '\r' {
            if n + 1 < capacity {
              buffer[n] := c;
              n := n + 1;
            } else {
              overflow := true;
            }
          } else {
            if c as int < 32 || c as int > 126 {
              invalid := true;
            }
            if n + 1 < capacity {
              buffer[n] := c;
              n := n + 1;
            } else {
              overflow := true;
            }
          }
          BadByteSnoc(bytes, c);
          assert (bytes + [c])[..|bytes|] == bytes;
          bytes := bytes + [c];
      }
    }
    assert bytes == Bytes(input[..StopAt(input)]);
    result := Finish(buffer, capacity, n, invalid, overflow, bytes);
  }

  function Feed(bytes: string): seq<Arrival> {
    seq(|bytes|, i requires 0 <= i < |bytes| => Got(bytes[i]))
  }

  /** A frame, good or bad, is consumed exactly through its LF: whatever its verdict, the
      next line starts at the byte after it. */
  lemma {:induction false} FrameIsConsumedWhole(frame: string, rest: seq<Arrival>)
    requires '\n' !in frame
    ensures StopAt(Feed(frame) + [Got('\n')] + rest) == |frame|
    ensures Bytes((Feed(frame) + [Got('\n')] + rest)[..|frame|]) == frame
  {
    var input := Feed(frame) + [Got('\n')] + rest;
    assert forall i | 0 <= i < |frame| :: input[i] == Got(frame[i]) && frame[i] in frame;
    assert input[|frame|] == Got('\n');
    assert input[..|frame|] == Feed(frame);
    BytesOfFeed(frame);
  }

  lemma {:induction false} BytesOfFeed(frame: string)
    ensures Bytes(Feed(frame)) == frame
  {
    if frame != "" {
      var before, c := frame[..|frame| - 1], frame[|frame| - 1];
      BytesOfFeed(before);
      assert Feed(frame) == Feed(before) + [Got(c)];
      SnocInit(Feed(before), Got(c));
      SnocConcat("", frame);
    }
  }
}
