/** server/telep_protocol.c: the in-place message splitter and the field validators. */
module TelepProtocol {
  import opened Config
  import opened Prelude
  import opened Decimal
  import opened Fields

  const SEPARATOR := '|'

  /** Printable and not a space: the bytes a message may consist of. */
  predicate Graphic(c: char) {
    33 <= c as int <= 126
  }

  predicate NonEmpty(parts: seq<string>) {
    forall p | p in parts :: p != ""
  }

  lemma {:induction false} NonEmptySnoc(parts: seq<string>, p: string)
    ensures NonEmpty(parts + [p]) <==> NonEmpty(parts) && p != ""
  {
    assert p in parts + [p] && forall x :: x in parts + [p] <==> x in parts || x == p;
  }

  /** A line that is a message, seen as its `|`-separated parts. */
  predicate IsMessage(line: string) {
    && 1 <= |line| < MAX_LINE
    && (forall c | c in line :: Graphic(c))
    && |Split(line, SEPARATOR)| <= MAX_ARGS + 1
    && NonEmpty(Split(line, SEPARATOR))
  }

  // C strings

  predicate Terminated(raw: seq<char>, start: nat) {
    start <= |raw| && '\0' in raw[start..]
  }

  /** The C string that starts at `start`. */
  function CString(raw: seq<char>, start: nat): string
    requires Terminated(raw, start)
  {
    raw[start..start + IndexOf(raw[start..], '\0')]
  }

  /** `text` lies at `start` and is followed by a NUL. */
  predicate Lies(raw: seq<char>, start: nat, text: string) {
    && start + |text| < |raw|
    && raw[start..start + |text|] == text
    && raw[start + |text|] == '\0'
    && '\0' !in text
  }

  lemma {:induction false} LyingIsCString(raw: seq<char>, start: nat, text: string)
    requires Lies(raw, start, text)
    ensures Terminated(raw, start) && CString(raw, start) == text
  {
    var rest := raw[start..];
    assert rest == text + raw[start + |text|..];
    assert forall k | 0 <= k < |text| :: text[k] in text;
    IndexOfConcat(text, raw[start + |text|..], '\0');
    assert rest[|text|] == '\0';
  }

  lemma {:induction false} CStringLies(raw: seq<char>, start: nat)
    requires Terminated(raw, start)
    ensures Lies(raw, start, CString(raw, start))
  {
    var rest := raw[start..];
    var i := IndexOf(rest, '\0');
    assert i < |rest| by {
      var k :| 0 <= k < |rest| && rest[k] == '\0';
    }
    assert rest[i] == raw[start + i];
    assert forall k | 0 <= k < i :: CString(raw, start)[k] == rest[k];
  }

  /** strchr(raw + start, c) for a C string that lies at `start`. */
  method StrChr(raw: array<char>, start: nat, ghost text: string, c: char) returns (at: int)
    requires Lies(raw[..], start, text) && c != '\0'
    ensures at == -1 ==> IndexOf(text, c) == |text|
    ensures at != -1 ==> at == start + IndexOf(text, c) < start + |text|
  {
    at := start;
    while raw[at] != '\0'
      invariant start <= at <= start + |text|
      invariant forall k | 0 <= k < at - start :: text[k] != c
      decreases start + |text| - at
    {
      assert raw[at] == raw[..][start..start + |text|][at - start] == text[at - start];
      if raw[at] == c {
        IndexIs(text, c, at - start);
        return;
      }
      at := at + 1;
    }
    IndexOfNone(text, c);
    return -1;
  }

  lemma {:induction false} IndexIs(s: string, c: char, i: nat)
    requires i < |s| && s[i] == c && forall k | 0 <= k < i :: s[k] != c
    ensures IndexOf(s, c) == i
  {
  }

  lemma {:induction false} IndexOfNone(s: string, c: char)
    requires forall k | 0 <= k < |s| :: s[k] != c
    ensures IndexOf(s, c) == |s|
  {
  }

  /** The text of the C string at `start`. */
  method ReadCString(raw: array<char>, start: nat, ghost text: string) returns (s: string)
    requires Lies(raw[..], start, text)
    ensures s == text
  {
    s := "";
    var at := start;
    while raw[at] != '\0'
      invariant start <= at <= start + |text|
      invariant s == text[..at - start]
      decreases start + |text| - at
    {
      assert raw[at] == raw[..][start..start + |text|][at - start];
      s := s + [raw[at]];
      at := at + 1;
    }
  }

  /** Writing a NUL inside a C string cuts it in two and disturbs nothing before it. */
  lemma {:induction false} CutInTwo(raw: seq<char>, start: nat, text: string, i: nat)
    requires Lies(raw, start, text) && i < |text|
    ensures var cut := raw[start + i := '\0'];
            && Lies(cut, start, text[..i])
            && Lies(cut, start + i + 1, text[i + 1..])
            && (forall s: nat, t | Lies(raw, s, t) && s + |t| < start :: Lies(cut, s, t))
  {
    var cut := raw[start + i := '\0'];
    assert text == raw[start..start + |text|];
    assert cut[start..start + i] == text[..i];
    assert cut[start + i + 1..start + |text|] == text[i + 1..];
    forall s: nat, t | Lies(raw, s, t) && s + |t| < start
      ensures Lies(cut, s, t)
    {
      assert cut[s..s + |t|] == raw[s..s + |t|];
    }
  }

  lemma {:induction false} CutShowsEnds(raw: seq<char>, start: nat, text: string, i: nat)
    requires Lies(raw, start, text) && i < |text|
    ensures var cut := raw[start + i := '\0'];
            && (cut[start] == '\0' <==> i == 0)
            && (cut[start + i + 1] == '\0' <==> i + 1 == |text|)
  {
    assert forall k | 0 <= k < |text| :: raw[start + k] == raw[start..start + |text|][k] == text[k] && text[k] in text;
  }

  /** Taking the next part off the text still to be split. */
  lemma {:induction false} SplitMoves(line: string, parts: seq<string>, rest: string)
    requires Split(line, SEPARATOR) == parts + Split(rest, SEPARATOR) && IndexOf(rest, SEPARATOR) < |rest|
    ensures var i := IndexOf(rest, SEPARATOR);
            Split(line, SEPARATOR) == (parts + [rest[..i]]) + Split(rest[i + 1..], SEPARATOR)
  {
  }

  /** The three reasons for which the splitter gives up. */
  lemma {:induction false} RefusalIsRight(line: string, parts: seq<string>, rest: string)
    requires Split(line, SEPARATOR) == parts + Split(rest, SEPARATOR) && IndexOf(rest, SEPARATOR) < |rest|
    requires var i := IndexOf(rest, SEPARATOR); i == 0 || i + 1 == |rest| || |parts| == MAX_ARGS
    ensures !IsMessage(line)
  {
    var i := IndexOf(rest, SEPARATOR);
    var all := Split(line, SEPARATOR);
    SplitMoves(line, parts, rest);
    if i == 0 {
      assert all[|parts|] == "" && all[|parts|] in all;
    } else if i + 1 == |rest| {
      assert Split("", SEPARATOR) == [""];
      assert all[|parts| + 1] == "" && all[|parts| + 1] in all;
    }
  }

  lemma {:induction false} AcceptanceIsRight(line: string, parts: seq<string>, rest: string)
    requires 1 <= |line| < MAX_LINE && forall c | c in line :: Graphic(c)
    requires Split(line, SEPARATOR) == parts + Split(rest, SEPARATOR) && IndexOf(rest, SEPARATOR) == |rest|
    requires |parts| <= MAX_ARGS && rest != "" && NonEmpty(parts)
    ensures IsMessage(line) && Split(line, SEPARATOR) == parts + [rest]
  {
    NonEmptySnoc(parts, rest);
  }

  /** The C struct ParsedMessage: `raw_copy` with the offsets its pointers have. */
  class ParsedMessage {
    const raw: array<char>
    const args: array<nat>
    var argCount: nat

    constructor ()
      ensures raw.Length == MAX_LINE && args.Length == MAX_ARGS && fresh(raw) && fresh(args)
    {
      raw := new char[MAX_LINE](_ => '\0');
      args := new nat[MAX_ARGS](_ => 0);
      argCount := 0;
    }

    /** Where part k starts; part 0 is the command. */
    function Start(k: nat): nat
      reads args
      requires k <= args.Length
    {
      if k == 0 then 0 else args[k - 1]
    }

    /** The parts found so far lie in the buffer, all of them before offset `limit`. */
    ghost predicate Holds(parts: seq<string>, limit: nat)
      reads raw, args
    {
      && |parts| <= args.Length + 1
      && forall k | 0 <= k < |parts| :: Lies(raw[..], Start(k), parts[k]) && Start(k) + |parts[k]| < limit
    }

    /** strcpy into raw_copy */
    method Copy(line: string)
      requires raw.Length == MAX_LINE && |line| < MAX_LINE && '\0' !in line
      modifies raw
      ensures Lies(raw[..], 0, line)
    {
      var i := 0;
      while i < |line|
        invariant 0 <= i <= |line|
        invariant raw[..i] == line[..i]
      {
        raw[i] := line[i];
        i := i + 1;
      }
      raw[|line|] := '\0';
      assert raw[..][0..|line|] == line;
    }

    /** The checks on a whole line that come before splitting. */
    static method IsGraphic(line: string) returns (ok: bool)
      ensures ok <==> forall c | c in line :: Graphic(c)
    {
      var i := 0;
      while i < |line|
        invariant 0 <= i <= |line|
        invariant forall k | 0 <= k < i :: Graphic(line[k])
      {
        if line[i] as int < 33 || line[i] as int > 126 {
          assert line[i] in line;
          return false;
        }
        i := i + 1;
      }
      return true;
    }

    /** The body of the splitting loop once a separator is found at `next`. */
    method Cut(part: nat, next: nat, ghost parts: seq<string>, ghost rest: string) returns (ok: bool)
      requires raw.Length == MAX_LINE && args.Length == MAX_ARGS
      requires argCount == |parts| <= MAX_ARGS && part == Start(argCount)
      requires Holds(parts, part) && Lies(raw[..], part, rest)
      requires next == part + IndexOf(rest, SEPARATOR) < part + |rest|
      modifies this, raw, args
      ensures ok <==> next != part && next + 1 < part + |rest| && |parts| < MAX_ARGS
      ensures ok ==> argCount == |parts| + 1 && Start(argCount) == next + 1
      ensures ok ==> Holds(parts + [rest[..next - part]], next + 1) && Lies(raw[..], next + 1, rest[next - part + 1..])
    {
      CutInTwo(raw[..], part, rest, next - part);
      CutShowsEnds(raw[..], part, rest, next - part);
      raw[next] := '\0';
      assert raw[..] == old(raw[..])[next := '\0'];
      if raw[part] == '\0' || raw[next + 1] == '\0' || argCount == MAX_ARGS {
        return false;
      }
      assert Holds(parts, part);
      Push(next, parts, rest[..next - part]);
      return true;
    }

    /** The part that ends before `next` is complete; the next argument starts after it. */
    method Push(next: nat, ghost parts: seq<string>, ghost piece: string)
      requires args.Length == MAX_ARGS && argCount == |parts| < MAX_ARGS
      requires Holds(parts, Start(argCount))
      requires Lies(raw[..], Start(argCount), piece) && Start(argCount) + |piece| == next
      modifies this`argCount, args
      ensures argCount == |parts| + 1 && Start(argCount) == next + 1
      ensures Holds(parts + [piece], next + 1)
    {
      args[argCount] := next + 1;
      argCount := argCount + 1;
      ghost var all := parts + [piece];
      forall k | 0 <= k < |all|
        ensures Lies(raw[..], Start(k), all[k]) && Start(k) + |all[k]| < next + 1
      {
        assert Start(k) == old(Start(k));
      }
    }

    /** The loop invariant: `parts` are split off, `rest` starts at `part`. */
    ghost predicate Progress(line: string, part: nat, parts: seq<string>, rest: string)
      reads this, raw, args
    {
      && raw.Length == MAX_LINE && args.Length == MAX_ARGS
      && Split(line, SEPARATOR) == parts + Split(rest, SEPARATOR)
      && argCount == |parts| <= MAX_ARGS && part == Start(argCount)
      && Holds(parts, part) && Lies(raw[..], part, rest) && rest != ""
      && NonEmpty(parts)
    }

    lemma {:induction false} NothingSplitYet(line: string)
      requires raw.Length == MAX_LINE && args.Length == MAX_ARGS && argCount == 0
      requires Lies(raw[..], 0, line) && line != ""
      ensures Progress(line, 0, [], line)
    {
      assert [] + Split(line, SEPARATOR) == Split(line, SEPARATOR);
    }

    /** The loop ends when no separator is left: the rest is the last part. */
    lemma {:induction false} AllSplit(line: string, part: nat, parts: seq<string>, rest: string)
      requires Progress(line, part, parts, rest) && IndexOf(rest, SEPARATOR) == |rest|
      requires 1 <= |line| < MAX_LINE && forall c | c in line :: Graphic(c)
      ensures IsMessage(line)
      ensures |Split(line, SEPARATOR)| == argCount + 1 && Holds(Split(line, SEPARATOR), MAX_LINE)
    {
      AcceptanceIsRight(line, parts, rest);
    }

    /** One turn of the splitting loop; on refusal the line is no message. */
    method Advance(ghost line: string, part: nat, next: nat, ghost parts: seq<string>, ghost rest: string)
      returns (ok: bool, ghost more: seq<string>, ghost tail: string)
      requires Progress(line, part, parts, rest)
      requires next == part + IndexOf(rest, SEPARATOR) < part + |rest|
      modifies this, raw, args
      ensures !ok ==> !IsMessage(line)
      ensures ok ==> Progress(line, next + 1, more, tail) && |tail| < |rest|
    {
      more, tail := parts + [rest[..next - part]], rest[next - part + 1..];
      ok := Cut(part, next, parts, rest);
      if ok {
        SplitMoves(line, parts, rest);
        NonEmptySnoc(parts, rest[..next - part]);
      } else {
        RefusalIsRight(line, parts, rest);
      }
    }

    /** The splitting loop of parse_message. */
    method SplitCopy(ghost line: string) returns (ok: bool)
      requires raw.Length == MAX_LINE && args.Length == MAX_ARGS
      requires Lies(raw[..], 0, line) && line != "" && forall c | c in line :: Graphic(c)
      modifies this, raw, args
      ensures ok <==> IsMessage(line)
      ensures ok ==> |Split(line, SEPARATOR)| == argCount + 1 && Holds(Split(line, SEPARATOR), MAX_LINE)
    {
      argCount := 0;
      var part: nat := 0;
      ghost var parts: seq<string>, rest := [], line;
      NothingSplitYet(line);
      var next := StrChr(raw, part, rest, SEPARATOR);
      while next != -1
        invariant Progress(line, part, parts, rest)
        invariant next == if IndexOf(rest, SEPARATOR) == |rest| then -1 else part + IndexOf(rest, SEPARATOR)
        decreases |rest|
      {
        var good;
        good, parts, rest := Advance(line, part, next, parts, rest);
        if !good {
          return false;
        }
        part := next + 1;
        next := StrChr(raw, part, rest, SEPARATOR);
      }
      AllSplit(line, part, parts, rest);
      return true;
    }

    /** The parts of a parsed message are the C strings that `args` points to. */
    ghost predicate Leaves(parts: seq<string>)
      reads this, raw, args
    {
      && |parts| == argCount + 1 <= args.Length + 1
      && forall k | 0 <= k < |parts| :: Terminated(raw[..], Start(k)) && CString(raw[..], Start(k)) == parts[k]
    }

    /** Part k of a parsed message; part 0 is the command. */
    method Part(k: nat, ghost parts: seq<string>) returns (part: string)
      requires Leaves(parts) && k < |parts|
      ensures part == parts[k] && '\0' !in part
    {
      CStringLies(raw[..], Start(k));
      part := ReadCString(raw, Start(k), parts[k]);
    }

    /** parse_message: accepts exactly the messages, and leaves each part as a C string. */
    method Parse(line: string) returns (ok: bool)
      requires raw.Length == MAX_LINE && args.Length == MAX_ARGS && '\0' !in line
      modifies this, raw, args
      ensures ok <==> IsMessage(line)
      ensures ok ==> Leaves(Split(line, SEPARATOR))
    {
      var n := |line|;
      if n == 0 || n >= MAX_LINE {
        return false;
      }
      var graphic := IsGraphic(line);
      if !graphic {
        return false;
      }
      Copy(line);
      ok := SplitCopy(line);
      if ok {
        forall k | 0 <= k <= argCount
          ensures Terminated(raw[..], Start(k)) && CString(raw[..], Start(k)) == Split(line, SEPARATOR)[k]
        {
          LyingIsCString(raw[..], Start(k), Split(line, SEPARATOR)[k]);
        }
      }
    }
  }

  // Field validators

  predicate IsNodeIdChar(c: char) {
    'a' <= c <= 'z' || 'A' <= c <= 'Z' || '0' <= c <= '9' || c == '_' || c == '-'
  }

  predicate IsNodeId(id: string) {
    1 <= |id| < MAX_NODE_ID && forall c | c in id :: IsNodeIdChar(c)
  }

  predicate IsSessionChar(c: char) {
    '0' <= c <= '9' || 'a' <= c <= 'f'
  }

  predicate IsSession(session: string) {
    |session| == 32 && forall c | c in session :: IsSessionChar(c)
  }

  /** Ids, sessions and messages byte by byte: letters, digits, `_` and `-`; lower-case
      hexadecimal digits; printable bytes without the space. */
  lemma {:induction false} NamesMean(id: string, session: string)
    ensures IsNodeId(id) <==>
            1 <= |id| <= 15 &&
            forall c | c in id :: 48 <= c as int <= 57 || 65 <= c as int <= 90 || 97 <= c as int <= 122 ||
                                  c as int == 95 || c as int == 45
    ensures IsSession(session) <==>
            |session| == 32 && forall c | c in session :: 48 <= c as int <= 57 || 97 <= c as int <= 102
  {
  }

  lemma {:induction false} MessageMeans(line: string)
    ensures IsMessage(line) <==>
            && 1 <= |line| <= 1023 && (forall c | c in line :: 33 <= c as int <= 126)
            && |Split(line, '|')| <= 9 && "" !in Split(line, '|')
  {
  }

  /** is_valid_node_id */
  method IsValidNodeId(id: string) returns (ok: bool)
    ensures ok <==> IsNodeId(id)
  {
    if |id| == 0 || |id| >= MAX_NODE_ID {
      return false;
    }
    var i := 0;
    while i < |id|
      invariant 0 <= i <= |id|
      invariant forall k | 0 <= k < i :: IsNodeIdChar(id[k])
    {
      if !IsNodeIdChar(id[i]) {
        assert id[i] in id;
        return false;
      }
      i := i + 1;
    }
    return true;
  }

  /** is_valid_session */
  method IsValidSession(session: string) returns (ok: bool)
    ensures ok <==> IsSession(session)
  {
    if |session| != 32 {
      return false;
    }
    var i := 0;
    while i < 32
      invariant 0 <= i <= 32
      invariant forall k | 0 <= k < i :: IsSessionChar(session[k])
    {
      if !IsSessionChar(session[i]) {
        assert session[i] in session;
        return false;
      }
      i := i + 1;
    }
    return true;
  }

  /** parse_uint; strtol's value on a string of digits is Number. */
  method ParseUnsignedInt(text: string, max: nat) returns (value: Option<nat>)
    ensures value == ParseUint(text, max)
  {
    if text == "" {
      return None;
    }
    var i := 0;
    while i < |text|
      invariant 0 <= i <= |text|
      invariant forall k | 0 <= k < i :: IsDigit(text[k])
    {
      if text[i] < '0' || text[i] > '9' {
        assert text[i] in text;
        return None;
      }
      i := i + 1;
    }
    if Number(text) > max {
      return None;
    }
    return Some(Number(text));
  }

  function ErrorName(code: nat): string {
    if code == ERR_BAD_FORMAT then "BAD_FORMAT"
    else if code == ERR_UNKNOWN_COMMAND then "UNKNOWN_CMD"
    else if code == ERR_UNKNOWN_NODE then "UNKNOWN_NODE"
    else if code == ERR_TOO_LONG then "TOO_LONG"
    else if code == ERR_ID_IN_USE then "ID_IN_USE"
    else if code == ERR_SERVER_FULL then "SERVER_FULL"
    else "UNKNOWN"
  }

  /** build_error_response */
  function ErrorLine(code: nat): string {
    "ERR|" + Digits(code) + "|" + ErrorName(code)
  }
}
