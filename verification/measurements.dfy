/** Measurement fields: parse_measurements of server/telep_protocol.c, format_measurements
    of server/response_format.c, and the client's encoder and decoder. */
module Measurements {
  import opened Config
  import opened Prelude
  import opened NodeRecord
  import opened NodeAlerts
  import opened Decimal
  import opened Fields
  import opened TelepProtocol

  const NAMES: set<string> := {"TEMP", "HUM", "POWER", "VIB", "STATUS"}

  predicate InRange(m: Measurement) {
    match m.name
    case "TEMP" => -100.0 <= m.value <= 200.0
    case "HUM" => 0.0 <= m.value <= 100.0
    case "POWER" => 0.0 <= m.value <= 1000000.0
    case "VIB" => 0.0 <= m.value <= 1000.0
    case "STATUS" => m.value == 0.0 || m.value == 1.0
    case _ => false
  }

  /** What an accepted datagram carries: three to five variables, each once and in range. */
  predicate SoundValues(values: seq<Measurement>) {
    3 <= |values| <= 5 && DistinctNames(values) && forall m | m in values :: InRange(m)
  }

  /** The value a variable is given by its text; None if the variable is unknown or the
      text is no value of it. */
  function ReadValue(name: string, text: string): Option<real> {
    if name == "STATUS" then
      if text == "OK" then Some(1.0) else if text == "FAIL" then Some(0.0) else None
    else
      match ParseDecimal(text)
      case Some(x) => if InRange(Measurement(name, x)) then Some(x) else None
      case None => None
  }

  function ReadNamed(name: string, text: string): Option<Measurement> {
    match ReadValue(name, text)
    case Some(x) => Some(Measurement(name, x))
    case None => None
  }

  /** One NAME=value pair. */
  function ReadPair(pair: string): Option<Measurement> {
    var i := IndexOf(pair, '=');
    if i == 0 || i + 1 >= |pair| then None else ReadNamed(pair[..i], pair[i + 1..])
  }

  predicate Names(ms: seq<Measurement>, name: string) {
    exists m :: m in ms && m.name == name
  }

  /** A list of pairs, each readable and with a name of its own. */
  function ReadPairs(pairs: seq<string>): Option<seq<Measurement>> {
    if pairs == [] then Some([])
    else
      match (ReadPairs(pairs[..|pairs| - 1]), ReadPair(pairs[|pairs| - 1]))
      case (Some(ms), Some(m)) => if Names(ms, m.name) then None else Some(ms + [m])
      case _ => None
  }

  /** What a measurement field means; None when the server refuses it. */
  function ReadField(field: string, max: nat): Option<seq<Measurement>> {
    var pairs := Split(field, ';');
    if 1 <= |field| < MAX_LINE && 3 <= |pairs| <= max then ReadPairs(pairs) else None
  }

  lemma {:induction false} ReadPairsSnoc(pairs: seq<string>, pair: string)
    ensures ReadPairs(pairs + [pair]) ==
            match (ReadPairs(pairs), ReadPair(pair))
            case (Some(ms), Some(m)) => if Names(ms, m.name) then None else Some(ms + [m])
            case _ => None
  {
    SnocInit(pairs, pair);
  }

  lemma {:induction false} RefusedPrefix(pairs: seq<string>, more: seq<string>)
    requires ReadPairs(pairs) == None
    ensures ReadPairs(pairs + more) == None
  {
    if more == [] {
      assert pairs + more == pairs;
    } else {
      SnocConcat(pairs, more);
      RefusedPrefix(pairs, more[..|more| - 1]);
      ReadPairsSnoc(pairs + more[..|more| - 1], more[|more| - 1]);
    }
  }

  lemma {:induction false} ReadPairsGivesOneEach(pairs: seq<string>)
    ensures var r := ReadPairs(pairs);
            r.Some? ==> |r.value| == |pairs| && DistinctNames(r.value) && forall m | m in r.value :: InRange(m)
  {
    if pairs != [] {
      ReadPairsGivesOneEach(pairs[..|pairs| - 1]);
      ReadValueInRange(pairs[|pairs| - 1]);
      var before := ReadPairs(pairs[..|pairs| - 1]);
      if ReadPairs(pairs).Some? {
        assert forall k | 0 <= k < |before.value| :: before.value[k] in before.value;
      }
    }
  }

  lemma {:induction false} ReadValueInRange(pair: string)
    ensures ReadPair(pair).Some? ==> InRange(ReadPair(pair).value)
  {
  }

  lemma {:induction false} InRangeIsKnown(m: Measurement)
    requires InRange(m)
    ensures m.name in NAMES
  {
  }

  lemma {:induction false} NameSet(ms: seq<Measurement>)
    requires DistinctNames(ms)
    ensures |set m | m in ms :: m.name| == |ms|
  {
    if ms == [] {
      assert (set m | m in ms :: m.name) == {};
    } else {
      var before, m := ms[..|ms| - 1], ms[|ms| - 1];
      NameSet(before);
      assert forall x :: x in ms <==> x in before || x == m;
      assert (set x | x in ms :: x.name) == (set x | x in before :: x.name) + {m.name};
    }
  }

  /** An accepted field yields three to five measurements, with distinct names and each
      within the range of its variable. */
  lemma {:induction false} AcceptedFieldIsSound(field: string, max: nat)
    requires ReadField(field, max).Some?
    ensures var ms := ReadField(field, max).value;
            3 <= |ms| <= 5 && DistinctNames(ms) && forall m | m in ms :: InRange(m)
  {
    var ms := ReadField(field, max).value;
    ReadPairsGivesOneEach(Split(field, ';'));
    AtMostFive(ms);
  }

  lemma {:induction false} AtMostFive(ms: seq<Measurement>)
    requires DistinctNames(ms) && forall m | m in ms :: InRange(m)
    ensures |ms| <= 5
  {
    NameSet(ms);
    forall m | m in ms
      ensures m.name in NAMES
    {
      InRangeIsKnown(m);
    }
    SubsetCardinality(set m | m in ms :: m.name, NAMES);
  }

  // The fields that are accepted, spelled out

  /** The limits of the four numeric variables. */
  predicate Allowed(name: string, x: real) {
    || (name == "TEMP" && -100.0 <= x <= 200.0)
    || (name == "HUM" && 0.0 <= x <= 100.0)
    || (name == "POWER" && 0.0 <= x <= 1000000.0)
    || (name == "VIB" && 0.0 <= x <= 1000.0)
  }

  ghost predicate SpellsValue(name: string, text: string, x: real) {
    if name == "STATUS" then (text == "OK" && x == 1.0) || (text == "FAIL" && x == 0.0)
    else Allowed(name, x) && SpellsNumber(text, x)
  }

  ghost predicate SpellsPair(pair: string, m: Measurement) {
    exists text :: pair == m.name + "=" + text && SpellsValue(m.name, text, m.value)
  }

  /** The field names and spells exactly these measurements, in this order. */
  ghost predicate SpellsField(field: string, ms: seq<Measurement>) {
    var pairs := Split(field, ';');
    && |field| < 1024 && 3 <= |ms| <= 5 && |pairs| == |ms| && DistinctNames(ms)
    && forall i | 0 <= i < |ms| :: SpellsPair(pairs[i], ms[i])
  }

  lemma {:induction false} AllowedIsInRange(name: string, x: real)
    ensures name != "STATUS" ==> (InRange(Measurement(name, x)) <==> Allowed(name, x))
  {
  }

  lemma {:induction false} ValueIsSpelled(name: string, text: string, x: real)
    ensures ReadValue(name, text) == Some(x) <==> SpellsValue(name, text, x)
  {
    if name != "STATUS" {
      AllowedIsInRange(name, x);
      NumbersAreNumerals(text, x);
    }
  }

  lemma {:induction false} SpelledIsKnown(name: string, text: string, x: real)
    requires SpellsValue(name, text, x)
    ensures name != "" && '=' !in name && text != ""
  {
    ValueIsSpelled(name, text, x);
  }

  /** A pair is read as a measurement if and only if it spells it. */
  lemma {:induction false} PairIsSpelled(pair: string, m: Measurement)
    ensures ReadPair(pair) == Some(m) <==> SpellsPair(pair, m)
  {
    if ReadPair(pair) == Some(m) {
      ReadIsSpelled(pair, m);
    }
    if SpellsPair(pair, m) {
      var text :| pair == m.name + "=" + text && SpellsValue(m.name, text, m.value);
      SpelledIsRead(m, text);
    }
  }

  lemma {:induction false} ReadIsSpelled(pair: string, m: Measurement)
    requires ReadPair(pair) == Some(m)
    ensures SpellsPair(pair, m)
  {
    var i := IndexOf(pair, '=');
    ReadPairIs(pair, i);
    HalvesAreSpelled(pair[..i], pair[i + 1..], m);
    CutAtIndex(pair, i);
  }

  lemma {:induction false} CutAtIndex(pair: string, i: nat)
    requires i < |pair| && pair[i] == '='
    ensures pair == pair[..i] + "=" + pair[i + 1..]
  {
  }

  lemma {:induction false} HalvesAreSpelled(name: string, text: string, m: Measurement)
    requires ReadNamed(name, text) == Some(m)
    ensures m.name == name && SpellsValue(name, text, m.value)
  {
    ValueIsSpelled(name, text, m.value);
  }

  lemma {:induction false} SpelledIsRead(m: Measurement, text: string)
    requires SpellsValue(m.name, text, m.value)
    ensures ReadPair(m.name + "=" + text) == Some(m)
  {
    SpelledIsKnown(m.name, text, m.value);
    ValueIsSpelled(m.name, text, m.value);
    EqualsSplits(m.name, text);
    ReadPairIs(m.name + "=" + text, |m.name|);
  }

  lemma {:induction false} EqualsSplits(name: string, text: string)
    requires '=' !in name
    ensures var pair := name + "=" + text;
            IndexOf(pair, '=') == |name| && pair[..|name|] == name && pair[|name| + 1..] == text
  {
    assert forall k | 0 <= k < |name| :: name[k] in name;
    assert name + "=" + text == name + ("=" + text);
    IndexOfConcat(name, "=" + text, '=');
  }

  /** A list of pairs is read if and only if each pair is, and no name comes twice. */
  lemma {:induction false} PairsAreRead(pairs: seq<string>, ms: seq<Measurement>)
    ensures ReadPairs(pairs) == Some(ms) <==>
            |pairs| == |ms| && DistinctNames(ms) && forall i | 0 <= i < |ms| :: ReadPair(pairs[i]) == Some(ms[i])
  {
    if pairs != [] && ms != [] {
      var before, m := ms[..|ms| - 1], ms[|ms| - 1];
      PairsAreRead(pairs[..|pairs| - 1], before);
      DistinctSnoc(ms);
      ReadLast(pairs, ms);
    }
  }

  lemma {:induction false} ReadLast(pairs: seq<string>, ms: seq<Measurement>)
    requires pairs != [] && ms != []
    ensures var before, m := ms[..|ms| - 1], ms[|ms| - 1];
            ReadPairs(pairs) == Some(ms) <==>
            && ReadPairs(pairs[..|pairs| - 1]) == Some(before) && ReadPair(pairs[|pairs| - 1]) == Some(m)
            && !Names(before, m.name)
  {
    assert ms == ms[..|ms| - 1] + [ms[|ms| - 1]];
  }

  lemma {:induction false} DistinctSnoc(ms: seq<Measurement>)
    requires ms != []
    ensures var before, m := ms[..|ms| - 1], ms[|ms| - 1];
            DistinctNames(ms) <==> DistinctNames(before) && !Names(before, m.name)
  {
    var before, m := ms[..|ms| - 1], ms[|ms| - 1];
    assert forall k | 0 <= k < |before| :: before[k] in before;
  }

  /** The server accepts a measurement field if and only if it spells three to five
      different variables within their limits, and reads what it spells. */
  lemma {:induction false} FieldIsSpelled(field: string, ms: seq<Measurement>)
    ensures ReadField(field, MAX_VARS) == Some(ms) <==> SpellsField(field, ms)
  {
    var pairs := Split(field, ';');
    PairsAreRead(pairs, ms);
    if |pairs| == |ms| {
      forall i | 0 <= i < |ms|
        ensures ReadPair(pairs[i]) == Some(ms[i]) <==> SpellsPair(pairs[i], ms[i])
      {
        PairIsSpelled(pairs[i], ms[i]);
      }
    }
    if ReadField(field, MAX_VARS) == Some(ms) {
      AcceptedFieldIsSound(field, MAX_VARS);
    }
    assert Split("", ';') == [""];
  }

  // parse_measurements, in place on a copy of the field

  lemma {:induction false} LiesAfterChange(raw: seq<char>, now: seq<char>, start: nat, text: string)
    requires Lies(raw, start, text) && |now| == |raw| && now[start..] == raw[start..]
    ensures Lies(now, start, text)
  {
    assert now[start..start + |text|] == now[start..][..|text|];
    assert raw[start..start + |text|] == raw[start..][..|text|];
    assert now[start + |text|] == now[start..][|text|] == raw[start + |text|];
  }

  /** Ends the current pair at its `;`; returns where the next one starts, or -1. */
  method TakePair(copy: array<char>, start: nat, ghost rest: string) returns (next: int)
    requires Lies(copy[..], start, rest)
    modifies copy
    ensures var i := IndexOf(rest, ';');
            if i == |rest| then next == -1 && Lies(copy[..], start, rest)
            else next == start + i + 1 && Lies(copy[..], start, rest[..i]) && Lies(copy[..], next, rest[i + 1..])
  {
    next := StrChr(copy, start, rest, ';');
    if next != -1 {
      CutInTwo(copy[..], start, rest, next - start);
      ghost var before := copy[..];
      copy[next] := '\0';
      assert copy[..] == before[next := '\0'];
      next := next + 1;
    }
  }

  /** Cuts one pair at its `=` and reads both halves; nothing after the pair changes. */
  method TakeReading(copy: array<char>, start: nat, ghost pair: string) returns (m: Option<Measurement>)
    requires Lies(copy[..], start, pair)
    modifies copy
    ensures m == ReadPair(pair)
    ensures copy[start + |pair|..] == old(copy[start + |pair|..])
  {
    var whole, name, text := CutPair(copy, start, pair);
    m := JudgeHalves(whole, name, text, pair);
  }

  method JudgeHalves(whole: bool, name: string, text: string, ghost pair: string) returns (m: Option<Measurement>)
    requires var i := IndexOf(pair, '=');
             && (whole <==> 0 < i && i + 1 < |pair|)
             && (whole ==> name == pair[..i] && text == pair[i + 1..])
    ensures m == ReadPair(pair)
  {
    if !whole {
      return None;
    }
    m := ReadNamed(name, text);
  }

  /** The two sides of the `=`, if there is one with something on both sides. */
  method CutPair(copy: array<char>, start: nat, ghost pair: string)
    returns (whole: bool, name: string, text: string)
    requires Lies(copy[..], start, pair)
    modifies copy
    ensures var i := IndexOf(pair, '=');
            && (whole <==> 0 < i && i + 1 < |pair|)
            && (whole ==> name == pair[..i] && text == pair[i + 1..])
    ensures copy[start + |pair|..] == old(copy[start + |pair|..])
  {
    var equals := StrChr(copy, start, pair, '=');
    if equals == -1 || equals == start {
      return false, "", "";
    }
    ValueIsThere(copy[..], start, pair);
    if copy[equals + 1] == '\0' {
      return false, "", "";
    }
    name, text := CutAtEquals(copy, start, equals, pair);
    whole := true;
  }

  lemma {:induction false} ReadPairIs(pair: string, i: nat)
    requires i == IndexOf(pair, '=') && 0 < i && i + 1 < |pair|
    ensures ReadPair(pair) == ReadNamed(pair[..i], pair[i + 1..])
  {
  }

  lemma {:induction false} ValueIsThere(raw: seq<char>, start: nat, pair: string)
    requires Lies(raw, start, pair) && IndexOf(pair, '=') < |pair|
    ensures var i := IndexOf(pair, '='); raw[start + i + 1] == '\0' <==> i + 1 == |pair|
  {
    var i := IndexOf(pair, '=');
    assert forall k | 0 <= k < |pair| :: raw[start + k] == raw[start..start + |pair|][k] == pair[k] && pair[k] in pair;
  }

  /** Writes the NUL at the `=` and reads the C strings on its two sides. */
  method CutAtEquals(copy: array<char>, start: nat, equals: nat, ghost pair: string)
    returns (name: string, text: string)
    requires Lies(copy[..], start, pair) && equals == start + IndexOf(pair, '=') < start + |pair|
    modifies copy
    ensures name == pair[..equals - start] && text == pair[equals - start + 1..]
    ensures copy[start + |pair|..] == old(copy[start + |pair|..])
  {
    ghost var i := equals - start;
    CutInTwo(copy[..], start, pair, i);
    copy[equals] := '\0';
    assert copy[..] == old(copy[..])[equals := '\0'];
    name := ReadCString(copy, start, pair[..i]);
    text := ReadCString(copy, equals + 1, pair[i + 1..]);
  }

  method HasName(out: array<Measurement>, count: nat, name: string) returns (has: bool)
    requires count <= out.Length
    ensures has <==> Names(out[..count], name)
  {
    var i := 0;
    while i < count
      invariant 0 <= i <= count
      invariant forall k | 0 <= k < i :: out[k].name != name
    {
      if out[i].name == name {
        assert out[..count][i] in out[..count];
        return true;
      }
      i := i + 1;
    }
    return false;
  }

  lemma {:induction false} RefusedPair(field: string, max: nat, done: seq<string>, pair: string, more: seq<string>)
    requires Split(field, ';') == done + [pair] + more
    requires ReadPairs(done + [pair]) == None || |done| >= max
    ensures ReadField(field, max) == None
  {
    if ReadPairs(done + [pair]) == None {
      RefusedPrefix(done + [pair], more);
    }
  }

  lemma {:induction false} SplitHead(rest: string, c: char)
    ensures var i := IndexOf(rest, c);
            Split(rest, c) == if i == |rest| then [rest] else [rest[..i]] + Split(rest[i + 1..], c)
  {
  }

  /** The pairs still to be read once the text from `pair` on is `rest`. */
  function Remaining(pair: int, rest: string): seq<string> {
    if pair == -1 then [] else Split(rest, ';')
  }

  function Tail(rest: string): string {
    var i := IndexOf(rest, ';');
    if i == |rest| then "" else rest[i + 1..]
  }

  function Head(rest: string): string {
    rest[..IndexOf(rest, ';')]
  }

  /** Where the pair after the one at `start` begins, or -1. */
  function After(start: nat, rest: string): int {
    var i := IndexOf(rest, ';');
    if i == |rest| then -1 else start + i + 1
  }

  lemma {:induction false} HeadAndTail(rest: string)
    ensures var i := IndexOf(rest, ';');
            Head(rest) == (if i == |rest| then rest else rest[..i]) && (i < |rest| ==> Tail(rest) == rest[i + 1..])
  {
    assert rest[..|rest|] == rest;
  }

  lemma {:induction false} RestIsUntouched(raw: seq<char>, now: seq<char>, start: nat, next: nat, rest: string)
    requires next == start + |Head(rest)| + 1 && Lies(raw, next, Tail(rest)) && |now| == |raw|
    requires now[start + |Head(rest)|..] == raw[start + |Head(rest)|..]
    ensures Lies(now, next, Tail(rest))
  {
    assert now[next..] == now[next - 1..][1..] && raw[next..] == raw[next - 1..][1..];
    LiesAfterChange(raw, now, next, Tail(rest));
  }

  /** Cuts off the pair at `start` and reads it. */
  method NextReading(copy: array<char>, start: nat, ghost rest: string) returns (m: Option<Measurement>, next: int)
    requires Lies(copy[..], start, rest)
    modifies copy
    ensures m == ReadPair(Head(rest)) && next == After(start, rest)
    ensures next != -1 ==> Lies(copy[..], next, Tail(rest))
  {
    next := TakePair(copy, start, rest);
    HeadAndTail(rest);
    ghost var mid := copy[..];
    m := TakeReading(copy, start, Head(rest));
    if next != -1 {
      RestIsUntouched(mid, copy[..], start, next, rest);
    }
  }

  /** Stores a reading unless there is no room for it or its name is taken. */
  method Store(m: Measurement, out: array<Measurement>, count: nat, max: nat) returns (ok: bool)
    requires count <= max <= out.Length
    modifies out
    ensures ok <==> count < max && !Names(old(out[..count]), m.name)
    ensures ok ==> out[..count + 1] == old(out[..count]) + [m]
  {
    if count == max {
      return false;
    }
    var duplicate := HasName(out, count, m.name);
    if duplicate {
      return false;
    }
    out[count] := m;
    return true;
  }

  lemma {:induction false} SplitRemaining(field: string, done: seq<string>, rest: string, start: nat)
    requires Split(field, ';') == done + Split(rest, ';')
    ensures Split(field, ';') == done + [Head(rest)] + Remaining(After(start, rest), Tail(rest))
  {
    SplitHead(rest, ';');
    assert rest[..|rest|] == rest;
    Regroup(done, [Head(rest)], Remaining(After(start, rest), Tail(rest)));
  }

  /** One turn of the loop of parse_measurements. */
  method TakeOne(copy: array<char>, start: nat, ghost field: string, ghost done: seq<string>, ghost rest: string,
                 out: array<Measurement>, count: nat, max: nat)
    returns (ok: bool, next: int)
    requires Lies(copy[..], start, rest) && count <= max <= out.Length && |done| == count
    requires Split(field, ';') == done + Split(rest, ';') && ReadPairs(done) == Some(out[..count])
    modifies copy, out
    ensures !ok ==> ReadField(field, max) == None
    ensures ok ==> next == After(start, rest) && (next != -1 ==> Lies(copy[..], next, Tail(rest)))
    ensures ok ==> count < max && ReadPairs(done + [Head(rest)]) == Some(out[..count + 1])
  {
    SplitRemaining(field, done, rest, start);
    ReadPairsSnoc(done, Head(rest));
    var m;
    m, next := NextReading(copy, start, rest);
    ok := false;
    if m.Some? {
      ok := Store(m.value, out, count, max);
    }
    if !ok {
      RefusedPair(field, max, done, Head(rest), Remaining(After(start, rest), Tail(rest)));
    }
  }

  /** The loop of parse_measurements over the copied field. */
  method TakeAll(copy: array<char>, ghost field: string, out: array<Measurement>, max: nat) returns (count: int)
    requires max <= out.Length && Lies(copy[..], 0, field)
    modifies copy, out
    ensures count == -1 ==> ReadField(field, max) == None
    ensures count != -1 ==> 0 <= count <= max && |Split(field, ';')| == count &&
                            ReadPairs(Split(field, ';')) == Some(out[..count])
  {
    var pair: int := 0;
    count := 0;
    ghost var done: seq<string>, rest := [], field;
    assert [] + Split(field, ';') == Split(field, ';');
    while pair != -1
      invariant pair == -1 || (0 <= pair && Lies(copy[..], pair, rest))
      invariant 0 <= count <= max && |done| == count
      invariant Split(field, ';') == done + Remaining(pair, rest)
      invariant ReadPairs(done) == Some(out[..count])
      decreases if pair == -1 then 0 else 1 + |rest|
    {
      SplitRemaining(field, done, rest, pair);
      var ok, next := TakeOne(copy, pair, field, done, rest, out, count, max);
      if !ok {
        return -1;
      }
      done, rest := done + [Head(rest)], Tail(rest);
      count, pair := count + 1, next;
    }
    assert done == Split(field, ';');
  }

  /** parse_measurements: -1, or how many measurements were stored in `out`. */
  method ParseMeasurements(field: string, out: array<Measurement>, max: nat) returns (result: int)
    requires max <= out.Length && '\0' !in field
    modifies out
    ensures result == -1 <==> ReadField(field, max).None?
    ensures result != -1 ==> 3 <= result <= max && out[..result] == ReadField(field, max).value
  {
    if field == "" || |field| >= MAX_LINE {
      return -1;
    }
    var copy := new char[MAX_LINE](k requires 0 <= k < MAX_LINE => if k < |field| then field[k] else '\0');
    assert copy[..][0..|field|] == field;
    var count := TakeAll(copy, field, out, max);
    return if count >= 3 then count else -1;
  }

  // Writing measurements

  function ValueOf(m: Measurement): string {
    if m.name == "STATUS" then (if m.value != 0.0 then "OK" else "FAIL") else ValueText(m.value)
  }

  function PairText(m: Measurement): string {
    m.name + "=" + ValueOf(m)
  }

  function PairTexts(ms: seq<Measurement>): seq<string> {
    seq(|ms|, i requires 0 <= i < |ms| => PairText(ms[i]))
  }

  /** NAME=value;NAME=value;... */
  function FieldText(ms: seq<Measurement>): string {
    if ms == [] then "" else Join(PairTexts(ms), ';')
  }

  /** What the other side reads for a measurement: its value in hundredths. */
  function AsRead(m: Measurement): Measurement {
    if m.name == "STATUS" then m else m.(value := Rounded(m.value))
  }

  function AllAsRead(ms: seq<Measurement>): seq<Measurement> {
    seq(|ms|, i requires 0 <= i < |ms| => AsRead(ms[i]))
  }

  lemma {:induction false} JoinSnoc(parts: seq<string>, p: string, c: char)
    requires parts != []
    ensures Join(parts + [p], c) == Join(parts, c) + [c] + p
  {
    if |parts| > 1 {
      JoinSnoc(parts[1..], p, c);
      assert (parts + [p])[1..] == parts[1..] + [p];
    } else {
      assert (parts + [p])[1..] == [p];
    }
  }

  lemma {:induction false} PairTextsSnoc(ms: seq<Measurement>)
    requires ms != []
    ensures PairTexts(ms) == PairTexts(ms[..|ms| - 1]) + [PairText(ms[|ms| - 1])]
  {
  }

  lemma {:induction false} FieldTextSnoc(ms: seq<Measurement>)
    requires ms != []
    ensures var before := ms[..|ms| - 1];
            FieldText(ms) == FieldText(before) + (if before == [] then "" else ";") + PairText(ms[|ms| - 1])
  {
    var before, p := ms[..|ms| - 1], PairText(ms[|ms| - 1]);
    PairTextsSnoc(ms);
    if before == [] {
      assert PairTexts(ms) == [p];
    } else {
      JoinSnoc(PairTexts(before), p, ';');
      assert [';'] == ";";
    }
  }

  lemma {:induction false} AllAsReadSnoc(ms: seq<Measurement>)
    requires ms != []
    ensures AllAsRead(ms) == AllAsRead(ms[..|ms| - 1]) + [AsRead(ms[|ms| - 1])]
  {
  }

  lemma {:induction false} NameStaysNew(ms: seq<Measurement>, name: string)
    requires forall k | 0 <= k < |ms| :: ms[k].name != name
    ensures !Names(AllAsRead(ms), name)
  {
    forall m | m in AllAsRead(ms)
      ensures m.name != name
    {
      var k :| 0 <= k < |ms| && m == AllAsRead(ms)[k];
    }
  }

  /** format_measurements: appends pair after pair to the text written so far. */
  method FormatMeasurements(ms: seq<Measurement>) returns (out: string)
    ensures out == FieldText(ms)
  {
    out := "";
    var i := 0;
    while i < |ms|
      invariant 0 <= i <= |ms|
      invariant out == FieldText(ms[..i])
    {
      var m := ms[i];
      var separator := if i > 0 then ";" else "";
      var text := if m.name == "STATUS" then (if m.value != 0.0 then "OK" else "FAIL") else ValueText(m.value);
      FieldTextSnoc(ms[..i + 1]);
      assert ms[..i + 1][..i] == ms[..i];
      assert text == ValueOf(m);
      out := out + separator + (m.name + "=" + text);
      i := i + 1;
    }
    assert ms[..i] == ms;
  }

  /** encode_measurements: a list of pairs, joined. */
  method EncodeMeasurements(ms: seq<Measurement>) returns (out: string)
    ensures out == FieldText(ms)
  {
    var parts: seq<string> := [];
    for i := 0 to |ms|
      invariant parts == PairTexts(ms[..i])
    {
      PairTextsSnoc(ms[..i + 1]);
      assert ms[..i + 1][..i] == ms[..i];
      parts := parts + [ms[i].name + "=" + ValueOf(ms[i])];
    }
    assert ms[..|ms|] == ms;
    out := if parts == [] then "" else Join(parts, ';');
  }

  /** The characters a pair may consist of. */
  predicate PairChar(c: char) {
    'A' <= c <= 'Z' || IsDigit(c) || c == '=' || c == '-' || c == '.'
  }

  lemma {:induction false} NamesArePlain(m: Measurement)
    requires InRange(m)
    ensures 1 <= |m.name| <= 6 && forall c | c in m.name :: 'A' <= c <= 'Z'
  {
  }

  lemma {:induction false} ValuesArePlain(m: Measurement)
    requires InRange(m)
    ensures 1 <= |ValueOf(m)| <= 11
    ensures forall c | c in ValueOf(m) :: 'A' <= c <= 'Z' || IsDigit(c) || c == '-' || c == '.'
  {
    if m.name != "STATUS" {
      RoundedStaysInRange(m.value, -100, 1000000);
      assert Power10(7) == 10000000 by {
        assert Power10(3) == 1000 && Power10(5) == 100000;
      }
      ValueTextIsShort(m.value, 7);
    }
  }

  lemma {:induction false} PairsArePlain(m: Measurement)
    requires InRange(m)
    ensures |PairText(m)| <= 18 && forall c | c in PairText(m) :: PairChar(c)
    ensures IndexOf(PairText(m), '=') == |m.name|
    ensures PairText(m)[..|m.name|] == m.name && PairText(m)[|m.name| + 1..] == ValueOf(m)
  {
    NamesArePlain(m);
    ValuesArePlain(m);
    assert PairText(m) == m.name + ("=" + ValueOf(m));
    assert forall k | 0 <= k < |m.name| :: m.name[k] in m.name;
    IndexOfConcat(m.name, "=" + ValueOf(m), '=');
  }

  lemma {:induction false} ReadOwnValue(m: Measurement)
    requires InRange(m)
    ensures ReadValue(m.name, ValueOf(m)) == Some(AsRead(m).value) && InRange(AsRead(m))
  {
    if m.name != "STATUS" {
      ValueRoundTrip(m.value);
      if m.name == "TEMP" {
        RoundedStaysInRange(m.value, -100, 200);
      } else if m.name == "HUM" {
        RoundedStaysInRange(m.value, 0, 100);
      } else if m.name == "POWER" {
        RoundedStaysInRange(m.value, 0, 1000000);
      } else {
        RoundedStaysInRange(m.value, 0, 1000);
      }
    }
  }

  lemma {:induction false} ReadOwnPair(m: Measurement)
    requires InRange(m)
    ensures ReadPair(PairText(m)) == Some(AsRead(m))
  {
    NamesArePlain(m);
    ValuesArePlain(m);
    PairsArePlain(m);
    ReadOwnValue(m);
  }

  lemma {:induction false} ReadOwnPairs(ms: seq<Measurement>)
    requires DistinctNames(ms) && forall m | m in ms :: InRange(m)
    ensures ReadPairs(PairTexts(ms)) == Some(AllAsRead(ms))
  {
    if ms != [] {
      var before, m := ms[..|ms| - 1], ms[|ms| - 1];
      assert m in ms && forall x | x in before :: x in ms;
      ReadOwnPairs(before);
      ReadOwnPair(m);
      PairTextsSnoc(ms);
      ReadPairsSnoc(PairTexts(before), PairText(m));
      AllAsReadSnoc(ms);
      NameStaysNew(before, m.name);
    } else {
      assert PairTexts(ms) == [] && AllAsRead(ms) == [];
    }
  }

  lemma {:induction false} PairsHaveNoSeparator(ms: seq<Measurement>)
    requires ms != [] && forall m | m in ms :: InRange(m)
    ensures Split(FieldText(ms), ';') == PairTexts(ms)
    ensures forall c | c in FieldText(ms) :: PairChar(c) || c == ';'
  {
    forall p | p in PairTexts(ms)
      ensures ';' !in p && forall c | c in p :: PairChar(c)
    {
      var i :| 0 <= i < |ms| && p == PairTexts(ms)[i];
      assert ms[i] in ms;
      PairsArePlain(ms[i]);
    }
    SplitOfJoin(PairTexts(ms), ';');
    forall c | c in FieldText(ms)
      ensures PairChar(c) || c == ';'
    {
      CharsOfJoin(PairTexts(ms), ';', c);
    }
  }

  lemma {:induction false} FieldIsShort(ms: seq<Measurement>)
    requires forall m | m in ms :: InRange(m)
    ensures |FieldText(ms)| <= 19 * |ms|
    ensures ms != [] ==> FieldText(ms) != ""
  {
    if ms != [] {
      var before, m := ms[..|ms| - 1], ms[|ms| - 1];
      assert m in ms && forall x | x in before :: x in ms;
      FieldIsShort(before);
      PairsArePlain(m);
      FieldTextSnoc(ms);
    }
  }

  /** The server reads back every field that encodes three or more in-range measurements
      with distinct names, value by value in hundredths. */
  lemma {:induction false} FieldRoundTrip(ms: seq<Measurement>)
    requires DistinctNames(ms) && 3 <= |ms| <= MAX_VARS && forall m | m in ms :: InRange(m)
    ensures ReadField(FieldText(ms), MAX_VARS) == Some(AllAsRead(ms))
  {
    PairsHaveNoSeparator(ms);
    FieldIsShort(ms);
    ReadOwnPairs(ms);
  }

  // The client's decoder

  /** dict(pair.split("=", 1) for ...): None stands for the ValueError of a pair without =. */
  function DecodePairs(pairs: seq<string>): Option<map<string, string>> {
    if pairs == [] then Some(map[])
    else
      var pair := pairs[|pairs| - 1];
      var i := IndexOf(pair, '=');
      match DecodePairs(pairs[..|pairs| - 1])
      case Some(d) => if i < |pair| then Some(d[pair[..i] := pair[i + 1..]]) else None
      case None => None
  }

  function DecodeMeasurements(field: string): Option<map<string, string>> {
    if field == "" || '=' !in field then Some(map[]) else DecodePairs(Split(field, ';'))
  }

  ghost function Dictionary(ms: seq<Measurement>): map<string, string> {
    if ms == [] then map[]
    else Dictionary(ms[..|ms| - 1])[ms[|ms| - 1].name := ValueOf(ms[|ms| - 1])]
  }

  lemma {:induction false} DictionaryHasEach(ms: seq<Measurement>)
    requires DistinctNames(ms)
    ensures Dictionary(ms).Keys == (set m | m in ms :: m.name)
    ensures forall m | m in ms :: m.name in Dictionary(ms) && Dictionary(ms)[m.name] == ValueOf(m)
  {
    if ms != [] {
      var before, m := ms[..|ms| - 1], ms[|ms| - 1];
      DictionaryHasEach(before);
      LastNameIsNew(ms);
      assert Dictionary(ms) == Dictionary(before)[m.name := ValueOf(m)];
    }
  }

  lemma {:induction false} LastNameIsNew(ms: seq<Measurement>)
    requires DistinctNames(ms) && ms != []
    ensures var before, m := ms[..|ms| - 1], ms[|ms| - 1];
            && (forall x :: x in ms <==> x in before || x == m)
            && (forall x | x in before :: x.name != m.name)
            && (set x | x in ms :: x.name) == (set x | x in before :: x.name) + {m.name}
  {
    var before, m := ms[..|ms| - 1], ms[|ms| - 1];
    assert forall k | 0 <= k < |before| :: before[k].name != m.name;
    assert forall x :: x in ms <==> x in before || x == m;
  }

  lemma {:induction false} DecodePairsSnoc(pairs: seq<string>, pair: string)
    ensures var i := IndexOf(pair, '=');
            DecodePairs(pairs + [pair]) ==
            if DecodePairs(pairs).Some? && i < |pair| then Some(DecodePairs(pairs).value[pair[..i] := pair[i + 1..]])
            else None
  {
    SnocInit(pairs, pair);
  }

  lemma {:induction false} DecodeOwnPairs(ms: seq<Measurement>)
    requires forall m | m in ms :: InRange(m)
    ensures DecodePairs(PairTexts(ms)) == Some(Dictionary(ms))
  {
    if ms != [] {
      var before, m := ms[..|ms| - 1], ms[|ms| - 1];
      assert m in ms && forall x | x in before :: x in ms;
      DecodeOwnPairs(before);
      PairsArePlain(m);
      PairTextsSnoc(ms);
      DecodePairsSnoc(PairTexts(before), PairText(m));
    }
  }

  /** Decoding the field gives exactly these variables, each with its printed value. */
  ghost predicate DecodesTo(field: string, ms: seq<Measurement>) {
    var d := DecodeMeasurements(field);
    && d.Some?
    && d.value.Keys == (set m | m in ms :: m.name)
    && forall m | m in ms :: d.value[m.name] == ValueOf(m)
  }

  /** What the client decodes from the server's field is each stored variable with the text
      the server printed for it, and nothing else. */
  lemma {:induction false} DecodedFieldIsEachPair(ms: seq<Measurement>)
    requires ms != [] && DistinctNames(ms) && forall m | m in ms :: InRange(m)
    ensures DecodesTo(FieldText(ms), ms)
  {
    PairsHaveNoSeparator(ms);
    DecodeOwnPairs(ms);
    DictionaryHasEach(ms);
    assert ms[0] in ms;
    PairsArePlain(ms[0]);
    assert '=' in PairTexts(ms)[0] && PairTexts(ms)[0] in PairTexts(ms);
    CharsOfJoin(PairTexts(ms), ';', '=');
  }
}
