/** client/telep.py: building and taking apart messages, and cutting a byte stream into
    lines. A byte is a char. */
module ClientMessages {
  import opened Config
  import opened Prelude
  import opened Decimal
  import opened Fields
  import opened TelepProtocol
  import opened LineReader

  /** A part that encode_message lets through. */
  predicate Encodable(part: string) {
    part != "" && forall c | c in part :: c !in "|\r\n\0"
  }

  predicate Ascii(s: string) {
    forall c | c in s :: c as int < 128
  }

  /** encode_message; None stands for the ValueError. */
  function EncodeMessage(parts: seq<string>): Option<string>
    requires parts != []
  {
    var line := Join(parts, SEPARATOR);
    if (exists p | p in parts :: !Encodable(p)) || |line| + 1 > MAX_LINE || !Ascii(line) then None
    else Some(line + "\n")
  }

  /** Python's s.rstrip(chars). */
  function TrimRight(s: string, chars: set<char>): string {
    if s != [] && s[|s| - 1] in chars then TrimRight(s[..|s| - 1], chars) else s
  }

  const NEWLINES := {'\r', '\n'}

  function DecodeMessage(line: string): (parts: seq<string>)
    ensures parts != []
  {
    Split(TrimRight(line, NEWLINES), SEPARATOR)
  }

  lemma {:induction false} EncodedLine(parts: seq<string>)
    requires parts != [] && EncodeMessage(parts).Some?
    ensures var line := Join(parts, SEPARATOR);
            && line != "" && Split(line, SEPARATOR) == parts && NonEmpty(parts)
            && '\n' !in line && '\r' !in line && '\0' !in line
  {
    var line := Join(parts, SEPARATOR);
    assert forall p | p in parts :: Encodable(p) && SEPARATOR !in p;
    SplitOfJoin(parts, SEPARATOR);
    forall c | c in "\r\n\0"
      ensures c !in line
    {
      CharsOfJoin(parts, SEPARATOR, c);
    }
    assert "\r\n\0"[0] == '\r' && "\r\n\0"[1] == '\n' && "\r\n\0"[2] == '\0';
    assert parts[0] in parts;
  }

  /** Decoding what was encoded gives the fields back. */
  lemma {:induction false} DecodeInvertsEncode(parts: seq<string>)
    requires parts != [] && EncodeMessage(parts).Some?
    ensures DecodeMessage(EncodeMessage(parts).value) == parts
  {
    var line := Join(parts, SEPARATOR);
    EncodedLine(parts);
    assert (line + "\n")[..|line + "\n"| - 1] == line;
    assert line[|line| - 1] in line;
    assert TrimRight(line + "\n", NEWLINES) == TrimRight(line, NEWLINES) == line;
  }

  /** What can be encoded: parts that are not empty, of ASCII without `|`, CR, LF and NUL,
      in at most 1023 characters with their separators. */
  lemma {:induction false} EncodedExactly(parts: seq<string>)
    requires parts != []
    ensures EncodeMessage(parts).Some? <==>
            && (forall p | p in parts ::
                  p != "" && forall c | c in p :: c as int < 128 && c != '|' && c != '\r' && c != '\n' && c != '\0')
            && |Join(parts, '|')| <= 1023
  {
    AsciiLine(parts);
    forall p | p in parts
      ensures Encodable(p) <==> p != "" && forall c | c in p :: c != '|' && c != '\r' && c != '\n' && c != '\0'
    {
      Delimiters();
    }
  }

  lemma {:induction false} Delimiters()
    ensures forall c: char :: c in "|\r\n\0" <==> c == '|' || c == '\r' || c == '\n' || c == '\0'
  {
    assert "|\r\n\0"[0] == '|' && "|\r\n\0"[1] == '\r' && "|\r\n\0"[2] == '\n' && "|\r\n\0"[3] == '\0';
  }

  lemma {:induction false} AsciiLine(parts: seq<string>)
    requires parts != []
    ensures Ascii(Join(parts, SEPARATOR)) <==> forall p | p in parts :: Ascii(p)
  {
    var line := Join(parts, SEPARATOR);
    if Ascii(line) {
      forall p | p in parts
        ensures Ascii(p)
      {
        forall c | c in p
          ensures c as int < 128
        {
          CharsOfJoin(parts, SEPARATOR, c);
          assert c in line;
        }
      }
    }
    if forall p | p in parts :: Ascii(p) {
      forall c | c in line
        ensures c as int < 128
      {
        CharsOfJoin(parts, SEPARATOR, c);
      }
    }
  }

  /** rstrip: a prefix, what is cut off consists of these characters, and no more of them
      are at its end. */
  lemma {:induction false} TrimMeans(s: string, chars: set<char>)
    ensures var t := TrimRight(s, chars);
            && t <= s && (forall c | c in s[|t|..] :: c in chars)
            && (t != "" ==> t[|t| - 1] !in chars)
  {
    if s != [] && s[|s| - 1] in chars {
      TrimMeans(s[..|s| - 1], chars);
      var t := TrimRight(s, chars);
      assert s[|t|..] == s[..|s| - 1][|t|..] + [s[|s| - 1]];
    }
  }

  /** A part that closes a line: nothing of it is trimmed. */
  predicate Closes(s: string) {
    s != "" && s[|s| - 1] !in NEWLINES && SEPARATOR !in s
  }

  lemma {:induction false} NothingToTrim(before: string, last: string)
    requires Closes(last)
    ensures TrimRight(before + last, NEWLINES) == before + last
  {
    assert (before + last)[|before + last| - 1] == last[|last| - 1];
  }

  lemma {:induction false} DecodeTwo(a: string, b: string)
    requires SEPARATOR !in a && Closes(b)
    ensures DecodeMessage(a + "|" + b) == [a, b]
  {
    NothingToTrim(a + "|", b);
    SplitNone(a, SEPARATOR);
    SplitSnoc(a, b, SEPARATOR);
  }

  lemma {:induction false} DecodeThree(a: string, b: string, c: string)
    requires SEPARATOR !in a && SEPARATOR !in b && Closes(c)
    ensures DecodeMessage(a + "|" + b + "|" + c) == [a, b, c]
  {
    NothingToTrim(a + "|" + b + "|", c);
    SplitNone(a, SEPARATOR);
    SplitSnoc(a, b, SEPARATOR);
    SplitSnoc(a + "|" + b, c, SEPARATOR);
  }

  lemma {:induction false} DecodeFour(a: string, b: string, c: string, d: string)
    requires SEPARATOR !in a && SEPARATOR !in b && SEPARATOR !in c && Closes(d)
    ensures DecodeMessage(a + "|" + b + "|" + c + "|" + d) == [a, b, c, d]
  {
    NothingToTrim(a + "|" + b + "|" + c + "|", d);
    SplitNone(a, SEPARATOR);
    SplitSnoc(a, b, SEPARATOR);
    SplitSnoc(a + "|" + b, c, SEPARATOR);
    SplitSnoc(a + "|" + b + "|" + c, d, SEPARATOR);
  }

  predicate AllGraphic(parts: seq<string>) {
    forall p | p in parts :: forall c | c in p :: Graphic(c)
  }

  lemma {:induction false} GraphicLine(parts: seq<string>)
    requires parts != []
    ensures AllGraphic(parts) <==> forall c | c in Join(parts, SEPARATOR) :: Graphic(c)
  {
    forall c
      ensures c in Join(parts, SEPARATOR) <==> (exists p :: p in parts && c in p) || (c == SEPARATOR && |parts| > 1)
    {
      CharsOfJoin(parts, SEPARATOR, c);
    }
  }

  /** The server reads every encoded frame as one line, and takes it for a message exactly
      when it has at most eight arguments and no space or control character; the parts it
      finds are then the ones that were encoded. */
  lemma {:induction false} ServerParsesEncoded(parts: seq<string>)
    requires parts != [] && EncodeMessage(parts).Some?
    ensures var frame := EncodeMessage(parts).value;
            var line := frame[..|frame| - 1];
            && |frame| <= MAX_LINE && frame == line + "\n" && '\n' !in line
            && Verdict(line, MAX_LINE) == (if forall c | c in line :: Printable(c) then |line| + 1 else INVALID)
            && StripCr(line) == line
            && (IsMessage(line) <==> |parts| <= MAX_ARGS + 1 && AllGraphic(parts))
            && Split(line, SEPARATOR) == parts
  {
    var line := Join(parts, SEPARATOR);
    EncodedLine(parts);
    assert (line + "\n")[..|line + "\n"| - 1] == line;
    assert line[|line| - 1] in line;
    GraphicLine(parts);
  }

  /** Conversely, every message the server accepts is what encode_message makes of its parts. */
  lemma {:induction false} EveryMessageIsEncoded(line: string)
    requires IsMessage(line)
    ensures EncodeMessage(Split(line, SEPARATOR)) == Some(line + "\n")
  {
    var parts := Split(line, SEPARATOR);
    JoinOfSplit(line, SEPARATOR);
    forall p | p in parts
      ensures Encodable(p)
    {
      forall c | c in p
        ensures c !in "|\r\n\0"
      {
        CharsOfJoin(parts, SEPARATOR, c);
      }
    }
  }

  // Cutting the stream into lines

  datatype Problem = OversizedFrame | BadEncoding | ServerClosed | TimedOut | Unsolicited | Unencodable

  datatype End = Waiting(rest: string) | Failed(problem: Problem)

  /** The lines a stream yields, and what comes of the bytes after them. */
  datatype Reading = Reading(lines: seq<string>, end: End)

  function Prepend(lines: seq<string>, reading: Reading): Reading {
    Reading(lines + reading.lines, reading.end)
  }

  function Trimmed(frame: string): string {
    TrimRight(frame, {'\r'})
  }

  /** What the parts of a stream between its LFs are worth, up to the first bad one. */
  function Judge(parts: seq<string>): (r: Reading)
    requires parts != []
    ensures r.end.Failed? ==> r.end.problem == OversizedFrame || r.end.problem == BadEncoding
  {
    if |parts[0]| >= MAX_LINE then Reading([], Failed(OversizedFrame))
    else if |parts| == 1 then Reading([], Waiting(parts[0]))
    else if !Ascii(parts[0]) then Reading([], Failed(BadEncoding))
    else Prepend([Trimmed(parts[0])], Judge(parts[1..]))
  }

  /** The meaning of a whole stream: cut it at its LFs, then judge part after part. */
  function ReadAll(stream: string): (r: Reading)
    ensures r.end.Failed? ==> r.end.problem == OversizedFrame || r.end.problem == BadEncoding
  {
    Judge(Split(stream, '\n'))
  }

  datatype Extraction = Partial | Bad(problem: Problem, rest: string) | Line(line: string, rest: string)

  /** _extract on the bytes buffered so far. */
  function Extract(buffer: string): Extraction {
    var index := IndexOf(buffer, '\n');
    if index == |buffer| then
      if |buffer| >= MAX_LINE then Bad(OversizedFrame, buffer) else Partial
    else if index >= MAX_LINE then Bad(OversizedFrame, buffer)
    else if !Ascii(buffer[..index]) then Bad(BadEncoding, buffer[index + 1..])
    else Line(Trimmed(buffer[..index]), buffer[index + 1..])
  }

  /** One extraction is the first line of the whole stream. */
  lemma {:induction false} ExtractIsFirst(buffer: string)
    ensures ReadAll(buffer) ==
            match Extract(buffer)
            case Partial => Reading([], Waiting(buffer))
            case Bad(problem, _) => Reading([], Failed(problem))
            case Line(line, rest) => Prepend([line], ReadAll(rest))
  {
    var index := IndexOf(buffer, '\n');
    if index < |buffer| {
      var parts := Split(buffer, '\n');
      assert parts[0] == buffer[..index] && parts[1..] == Split(buffer[index + 1..], '\n');
    }
  }

  lemma {:induction false} IndexOfLonger(a: string, b: string, c: char)
    ensures IndexOf(a, c) < |a| ==> IndexOf(a + b, c) == IndexOf(a, c)
    ensures IndexOf(a, c) == |a| ==> IndexOf(a + b, c) >= |a|
  {
    assert forall k | 0 <= k < |a| :: (a + b)[k] == a[k];
    if IndexOf(a, c) < |a| {
      IndexIs(a + b, c, IndexOf(a, c));
    }
  }

  /** A buffer that yields a line or an error yields the same one when it is longer. */
  lemma {:induction false} ExtractLonger(a: string, b: string)
    ensures match Extract(a)
            case Partial => true
            case Bad(problem, _) => Extract(a + b).Bad? && Extract(a + b).problem == problem
            case Line(line, rest) => Extract(a + b) == Line(line, rest + b)
  {
    IndexOfLonger(a, b, '\n');
    var i := IndexOf(a, '\n');
    if i < |a| {
      assert (a + b)[..i] == a[..i];
      assert (a + b)[i + 1..] == a[i + 1..] + b;
    }
  }

  /** Bytes that arrive later never change the lines already read, and a frame that is
      refused stays refused whatever follows. */
  lemma {:induction false} MoreBytes(a: string, b: string)
    ensures match ReadAll(a).end
            case Waiting(rest) => ReadAll(a + b) == Prepend(ReadAll(a).lines, ReadAll(rest + b))
            case Failed(_) => ReadAll(a + b) == ReadAll(a)
    decreases |a|
  {
    ExtractIsFirst(a);
    if Extract(a).Partial? {
      assert [] + ReadAll(a + b).lines == ReadAll(a + b).lines;
    } else {
      ExtractIsFirst(a + b);
      ExtractLonger(a, b);
      if Extract(a).Line? {
        MoreBytes(Extract(a).rest, b);
        LinePlusMore(Extract(a).line, Extract(a).rest, b);
      }
    }
  }

  lemma {:induction false} PrependTwice(a: seq<string>, b: seq<string>, r: Reading)
    ensures Prepend(a, Prepend(b, r)) == Prepend(a + b, r)
  {
    assert a + (b + r.lines) == (a + b) + r.lines;
  }

  lemma {:induction false} LinePlusMore(line: string, rest: string, b: string)
    ensures var r := Prepend([line], ReadAll(rest));
            r.end.Waiting? ==>
              Prepend([line], Prepend(ReadAll(rest).lines, ReadAll(r.end.rest + b))) ==
              Prepend(r.lines, ReadAll(r.end.rest + b))
  {
    if ReadAll(rest).end.Waiting? {
      PrependTwice([line], ReadAll(rest).lines, ReadAll(ReadAll(rest).end.rest + b));
    }
  }

  function Concat(chunks: seq<string>): string {
    if chunks == [] then "" else Concat(chunks[..|chunks| - 1]) + chunks[|chunks| - 1]
  }

  /** Extracting all there is after every recv, with `chunks` as what recv returns. */
  function ReadChunks(chunks: seq<string>): Reading {
    if chunks == [] then ReadAll("")
    else
      var before := ReadChunks(chunks[..|chunks| - 1]);
      match before.end
      case Waiting(rest) => Prepend(before.lines, ReadAll(rest + chunks[|chunks| - 1]))
      case Failed(_) => before
  }

  /** However recv cuts the stream, the same lines come out, and a bad frame is refused
      with the same error after the same lines. */
  lemma {:induction false} ChunkingDoesNotMatter(chunks: seq<string>)
    ensures ReadChunks(chunks) == ReadAll(Concat(chunks))
  {
    if chunks != [] {
      ChunkingDoesNotMatter(chunks[..|chunks| - 1]);
      MoreBytes(Concat(chunks[..|chunks| - 1]), chunks[|chunks| - 1]);
    }
  }

  // What the server sends

  /** send_text_line: the frame it puts on the wire; None when it refuses the text. */
  function SentFrame(text: string): Option<string> {
    if |text| >= MAX_LINE then None else Some(text + "\n")
  }

  /** Text without line ends and beyond ASCII: what the server's replies consist of. */
  predicate PlainText(text: string) {
    forall c | c in text :: PlainChar(c)
  }

  predicate PlainChar(c: char) {
    c as int < 128 && c != '\n' && c != '\r'
  }

  /** The size limits of the two sides agree exactly: the client takes a line if and only
      if send_text_line sends it. */
  lemma {:induction false} SizesAgree(text: string)
    requires PlainText(text)
    ensures SentFrame(text).Some? <==> Extract(text + "\n") == Line(text, "")
    ensures SentFrame(text).None? <==> Extract(text + "\n") == Bad(OversizedFrame, text + "\n")
  {
    assert forall k | 0 <= k < |text| :: text[k] in text;
    IndexOfConcat(text, "\n", '\n');
    assert (text + "\n")[..|text|] == text && (text + "\n")[|text| + 1..] == "";
  }

  /** What the client makes of one whole frame: 1024 bytes or more before the LF are too
      many, a byte beyond ASCII is an error, and otherwise it is a line. */
  lemma {:induction false} FrameVerdict(text: string)
    requires '\n' !in text
    ensures Extract(text + "\n") ==
            if |text| >= 1024 then Bad(OversizedFrame, text + "\n")
            else if exists c | c in text :: c as int >= 128 then Bad(BadEncoding, "")
            else Line(TrimRight(text, {'\r'}), "")
  {
    assert forall k | 0 <= k < |text| :: text[k] in text;
    IndexOfConcat(text, "\n", '\n');
    assert (text + "\n")[..|text|] == text && (text + "\n")[|text| + 1..] == "";
  }

  predicate Sendable(text: string) {
    PlainText(text) && SentFrame(text).Some?
  }

  function Wire(lines: seq<string>): string {
    if lines == [] then "" else lines[0] + "\n" + Wire(lines[1..])
  }

  lemma {:induction false} FrameComesFirst(text: string, after: string)
    requires Sendable(text)
    ensures ReadAll((text + "\n") + after) == Prepend([text], ReadAll(after))
  {
    SizesAgree(text);
    ExtractLonger(text + "\n", after);
    assert "" + after == after;
    ExtractIsFirst((text + "\n") + after);
  }

  lemma {:induction false} WireSplits(lines: seq<string>, rest: string)
    requires lines != []
    ensures Wire(lines) + rest == (lines[0] + "\n") + (Wire(lines[1..]) + rest)
    ensures [lines[0]] + lines[1..] == lines
  {
  }

  /** Lines sent one after the other arrive as those lines, whatever is still to come. */
  lemma {:induction false} WireRoundTrip(lines: seq<string>, rest: string)
    requires forall l | l in lines :: Sendable(l)
    ensures ReadAll(Wire(lines) + rest) == Prepend(lines, ReadAll(rest))
  {
    if lines == [] {
      assert Wire(lines) + rest == rest && [] + ReadAll(rest).lines == ReadAll(rest).lines;
    } else {
      var text, after := lines[0], Wire(lines[1..]) + rest;
      assert text in lines && forall l | l in lines[1..] :: l in lines;
      WireRoundTrip(lines[1..], rest);
      FrameComesFirst(text, after);
      WireSplits(lines, rest);
      PrependTwice([text], lines[1..], ReadAll(rest));
    }
  }
}
