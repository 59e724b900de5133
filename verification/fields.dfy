/** Splitting and joining delimited text. */
module Fields {
  import opened Decimal

  /** Python's s.split(c), and what repeated strchr leaves behind. */
  function Split(s: string, c: char): (parts: seq<string>)
    ensures parts != []
    decreases |s|
  {
    var i := IndexOf(s, c);
    if i == |s| then [s] else [s[..i]] + Split(s[i + 1..], c)
  }

  /** Python's c.join(parts). */
  function Join(parts: seq<string>, c: char): string
    requires parts != []
  {
    if |parts| == 1 then parts[0] else parts[0] + [c] + Join(parts[1..], c)
  }

  lemma {:induction false} SplitAt(a: string, b: string, c: char)
    requires c !in a
    ensures Split(a + [c] + b, c) == [a] + Split(b, c)
  {
    var s := a + [c] + b;
    assert s == a + ([c] + b);
    IndexOfConcat(a, [c] + b, c);
    assert s[..|a|] == a && s[|a| + 1..] == b;
  }

  lemma {:induction false} SplitNone(a: string, c: char)
    requires c !in a
    ensures Split(a, c) == [a]
  {
    assert forall k | 0 <= k < |a| :: a[k] in a;
  }

  lemma {:induction false} CutAround(x: string, last: string, i: nat)
    requires i < |x|
    ensures x + [x[i]] + last == x[..i] + [x[i]] + (x[i + 1..] + [x[i]] + last)
  {
  }

  lemma {:induction false} Regroup(a: seq<string>, b: seq<string>, c: seq<string>)
    ensures a + (b + c) == (a + b) + c
  {
  }

  lemma {:induction false} SplitSnoc(x: string, last: string, c: char)
    requires c !in last
    ensures Split(x + [c] + last, c) == Split(x, c) + [last]
    decreases |x|
  {
    var i := IndexOf(x, c);
    SplitNone(last, c);
    if i == |x| {
      assert c !in x;
      SplitAt(x, last, c);
    } else {
      var first, rest := x[..i], x[i + 1..];
      assert c !in first;
      CutAround(x, last, i);
      SplitAt(first, rest + [c] + last, c);
      SplitSnoc(rest, last, c);
      Regroup([first], Split(rest, c), [last]);
    }
  }

  lemma {:induction false} SplitOfJoin(parts: seq<string>, c: char)
    requires parts != [] && forall p | p in parts :: c !in p
    ensures Split(Join(parts, c), c) == parts
  {
    assert parts[0] in parts;
    if |parts| == 1 {
      SplitNone(parts[0], c);
    } else {
      assert forall p | p in parts[1..] :: p in parts;
      SplitOfJoin(parts[1..], c);
      SplitAt(parts[0], Join(parts[1..], c), c);
      assert [parts[0]] + parts[1..] == parts;
    }
  }

  lemma {:induction false} JoinOfSplit(s: string, c: char)
    ensures Join(Split(s, c), c) == s
    ensures forall p | p in Split(s, c) :: c !in p
    decreases |s|
  {
    var i := IndexOf(s, c);
    if i < |s| {
      JoinOfSplit(s[i + 1..], c);
      assert Split(s, c)[1..] == Split(s[i + 1..], c);
      assert s == s[..i] + [c] + s[i + 1..];
    }
  }

  /** Every character of a part comes from the text, and the other way round. */
  lemma {:induction false} CharsOfJoin(parts: seq<string>, c: char, x: char)
    requires parts != []
    ensures x in Join(parts, c) <==> (exists p :: p in parts && x in p) || (x == c && |parts| > 1)
  {
    assert parts[0] in parts;
    if |parts| > 1 {
      CharsOfJoin(parts[1..], c, x);
      assert forall p :: p in parts <==> p == parts[0] || p in parts[1..];
      assert x in Join(parts, c) <==> x in parts[0] || x == c || x in Join(parts[1..], c);
    } else {
      assert forall p :: p in parts <==> p == parts[0];
    }
  }

  /** n times k, added up. */
  function TimesNat(n: nat, k: nat): nat {
    if n == 0 then 0 else TimesNat(n - 1, k) + k
  }

  lemma {:induction false} JoinIsShort(parts: seq<string>, c: char, k: nat)
    requires parts != [] && forall p | p in parts :: |p| < k
    ensures |Join(parts, c)| <= |parts| * k
  {
    JoinAddsUp(parts, c, k);
    TimesIsProduct(|parts|, k);
  }

  lemma {:induction false} TimesIsProduct(n: nat, k: nat)
    ensures TimesNat(n, k) == n * k
  {
    if n > 0 {
      TimesIsProduct(n - 1, k);
    }
  }

  lemma {:induction false} JoinAddsUp(parts: seq<string>, c: char, k: nat)
    requires parts != [] && forall p | p in parts :: |p| < k
    ensures |Join(parts, c)| <= TimesNat(|parts|, k)
  {
    assert parts[0] in parts && forall p | p in parts[1..] :: p in parts;
    if |parts| > 1 {
      JoinAddsUp(parts[1..], c, k);
    }
  }
}
