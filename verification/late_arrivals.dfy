/** What one more duplicate or late datagram can change, in any run of one node, whether
    its reports are honest or not. */
module LateArrivals {
  import opened Config
  import opened Prelude
  import opened NodeRecord
  import opened NodeHistory
  import opened NodeAlerts
  import opened Measurements

  /** Inserting `d` between `a` and `b` changes neither the alerts nor the stored values. */
  ghost predicate Unmoved(e: Entry, a: seq<Message>, d: Datagram, b: seq<Message>) {
    && AlertHistory(e, a + [Data(d)] + b) == AlertHistory(e, a + b)
    && NodeRun(e, a + [Data(d)] + b).rec.stored == NodeRun(e, a + b).rec.stored
  }

  // A run in two parts

  lemma {:induction false} RunConcat(e: Entry, a: seq<Message>, b: seq<Message>)
    ensures NodeRun(e, a + b) == NodeRun(NodeRun(e, a), b)
    ensures AlertHistory(e, a + b) == AlertHistory(e, a) + AlertHistory(NodeRun(e, a), b)
  {
    if b == [] {
      assert a + b == a;
      assert AlertHistory(e, a) + [] == AlertHistory(e, a);
    } else {
      var before, m := b[..|b| - 1], b[|b| - 1];
      SnocConcat(a, b);
      RunConcat(e, a, before);
      RunSnoc(e, a + before, m);
      Reassociate(AlertHistory(e, a), AlertHistory(NodeRun(e, a), before), AlertsOf(NodeRun(e, a + before), m));
    }
  }

  lemma {:induction false} Reassociate(a: seq<Alert>, b: seq<Alert>, c: seq<Alert>)
    ensures (a + b) + c == a + (b + c)
    ensures b == [] ==> a + b + c == a + c
  {
  }

  lemma {:induction false} RunSnoc(e: Entry, ms: seq<Message>, m: Message)
    ensures NodeRun(e, ms + [m]) == NodeStep(NodeRun(e, ms), m)
    ensures AlertHistory(e, ms + [m]) == AlertHistory(e, ms) + AlertsOf(NodeRun(e, ms), m)
  {
    SnocInit(ms, m);
  }

  lemma {:induction false} RunOfOne(e: Entry, m: Message)
    ensures NodeRun(e, [m]) == NodeStep(e, m) && AlertHistory(e, [m]) == AlertsOf(e, m)
  {
    RunSnoc(e, [], m);
    assert [] + [m] == [m];
  }

  /** Both runs, seen from the moment at which `d` arrives in one of them. */
  lemma {:induction false} RunAround(e: Entry, a: seq<Message>, d: Datagram, b: seq<Message>)
    ensures var at := NodeRun(e, a);
            && NodeRun(e, a + b) == NodeRun(at, b)
            && NodeRun(e, a + [Data(d)] + b) == NodeRun(NodeStep(at, Data(d)), b)
            && AlertHistory(e, a + b) == AlertHistory(e, a) + AlertHistory(at, b)
            && AlertHistory(e, a + [Data(d)] + b) ==
               AlertHistory(e, a) + AlertsOf(at, Data(d)) + AlertHistory(NodeStep(at, Data(d)), b)
  {
    RunConcat(e, a, b);
    RunConcat(e, a + [Data(d)], b);
    RunSnoc(e, a, Data(d));
  }

  // A duplicate, or a datagram that the seal refuses

  ghost predicate Twins(e: Entry, f: Entry) {
    f.seen == e.seen && f.rec == e.rec.(duplicates := f.rec.duplicates)
  }

  lemma {:induction false} TwinsStep(e: Entry, f: Entry, m: Message)
    requires Twins(e, f)
    ensures Twins(NodeStep(e, m), NodeStep(f, m)) && AlertsOf(e, m) == AlertsOf(f, m)
  {
    match m
    case Data(d) => TwinsData(e, f, d);
    case Totals(c, final) =>
  }

  lemma {:induction false} TwinsData(e: Entry, f: Entry, d: Datagram)
    requires Twins(e, f)
    ensures Twins(NodeStep(e, Data(d)), NodeStep(f, Data(d))) && AlertsOf(e, Data(d)) == AlertsOf(f, Data(d))
  {
  }

  lemma {:induction false} TwinsRun(e: Entry, f: Entry, b: seq<Message>)
    requires Twins(e, f)
    ensures Twins(NodeRun(e, b), NodeRun(f, b)) && AlertHistory(e, b) == AlertHistory(f, b)
  {
    if b != [] {
      TwinsRun(e, f, b[..|b| - 1]);
      TwinsStep(NodeRun(e, b[..|b| - 1]), NodeRun(f, b[..|b| - 1]), b[|b| - 1]);
    }
  }

  /** In every run, honest or not: a duplicate, or a datagram that a final report shuts out,
      leaves the alert history as it is, and the record up to the count of duplicates. */
  lemma {:induction false} DuplicateChangesNothing(id: string, session: string,
                                                   a: seq<Message>, d: Datagram, b: seq<Message>)
    requires var e := NodeRun(Fresh(id, session), a); d.sequence in e.seen || PastSeal(e.rec, d.sequence)
    ensures var e0 := Fresh(id, session);
            && AlertHistory(e0, a + [Data(d)] + b) == AlertHistory(e0, a + b)
            && Twins(NodeRun(e0, a + b), NodeRun(e0, a + [Data(d)] + b))
  {
    var e0 := Fresh(id, session);
    var e := NodeRun(e0, a);
    RunAround(e0, a, d, b);
    Reassociate(AlertHistory(e0, a), AlertsOf(e, Data(d)), AlertHistory(NodeStep(e, Data(d)), b));
    TwinsRun(e, NodeStep(e, Data(d)), b);
  }

  // A late first arrival that nothing can reveal

  /** f is e after a late first arrival of `q`, as far as alerts and values go. */
  ghost predicate Tracks(e: Entry, f: Entry, q: nat) {
    && e.rec.id == f.rec.id && e.rec.last == f.rec.last && e.rec.stored == f.rec.stored
    && e.seen <= f.seen <= e.seen + {q} && q < e.rec.last
  }

  lemma {:induction false} TracksData(e: Entry, f: Entry, q: nat, d: Datagram)
    requires Tracks(e, f, q) && (PastSeal(e.rec, d.sequence) <==> PastSeal(f.rec, d.sequence))
    ensures Tracks(NodeStep(e, Data(d)), NodeStep(f, Data(d)), q) && AlertsOf(e, Data(d)) == AlertsOf(f, Data(d))
  {
    assert d.sequence != q ==> (d.sequence in e.seen <==> d.sequence in f.seen);
  }

  /** A REPORT touches neither the bitmap nor the values. */
  lemma {:induction false} TotalsTouchNothing(e: Entry, c: Counters, final: bool)
    ensures var after := NodeStep(e, Totals(c, final));
            && after.seen == e.seen && after.rec.last == e.rec.last && after.rec.stored == e.rec.stored
            && (e.rec.final ==> after.rec.SameTotals(e.rec) && after.rec.final)
  {
  }

  lemma {:induction false} LateArrivalTracks(e: Entry, d: Datagram)
    requires d.sequence < e.rec.last && d.sequence !in e.seen && !PastSeal(e.rec, d.sequence)
    ensures var f := NodeStep(e, Data(d));
            && Tracks(e, f, d.sequence) && AlertsOf(e, Data(d)) == []
            && f.seen == e.seen + {d.sequence} && f.rec.SameTotals(e.rec) && f.rec.final == e.rec.final
  {
  }

  // ... because the session is sealed

  ghost predicate Shadows(e: Entry, f: Entry, q: nat) {
    Tracks(e, f, q) && e.rec.final && f.rec.final && e.rec.SameTotals(f.rec)
  }

  lemma {:induction false} ShadowsStep(e: Entry, f: Entry, q: nat, m: Message)
    requires Shadows(e, f, q)
    ensures Shadows(NodeStep(e, m), NodeStep(f, m), q) && AlertsOf(e, m) == AlertsOf(f, m)
  {
    match m
    case Data(d) => TracksData(e, f, q, d);
    case Totals(c, final) =>
      TotalsTouchNothing(e, c, final);
      TotalsTouchNothing(f, c, final);
  }

  lemma {:induction false} ShadowsRun(e: Entry, f: Entry, q: nat, b: seq<Message>)
    requires Shadows(e, f, q)
    ensures Shadows(NodeRun(e, b), NodeRun(f, b), q) && AlertHistory(e, b) == AlertHistory(f, b)
  {
    if b != [] {
      ShadowsRun(e, f, q, b[..|b| - 1]);
      ShadowsStep(NodeRun(e, b[..|b| - 1]), NodeRun(f, b[..|b| - 1]), q, b[|b| - 1]);
    }
  }

  // ... because no seal can shut out a datagram any more

  /** What the server's parsers let through to a node. */
  predicate Receivable(m: Message) {
    match m
    case Data(d) => d.sequence < SESSION_LIMIT && SoundValues(d.values)
    case Totals(c, _) =>
      c.attempts <= SESSION_LIMIT && c.sent <= SESSION_LIMIT && c.omitted <= SESSION_LIMIT && c.errors <= SESSION_LIMIT
  }

  predicate AllReceivable(ms: seq<Message>) {
    forall m | m in ms :: Receivable(m)
  }

  /** The least number of datagrams sent that a final report may still claim. */
  ghost function Claimable(e: Entry): nat {
    if |e.seen| > e.rec.sent then |e.seen| else e.rec.sent
  }

  ghost predicate NoBite(e: Entry) {
    && (e.rec.final ==> e.rec.attempts >= SESSION_LIMIT)
    && (forall q | q in e.seen :: q <= e.rec.last)
    && Claimable(e) + e.rec.omitted + e.rec.errors >= SESSION_LIMIT
  }

  lemma {:induction false} NoBiteData(e: Entry, d: Datagram)
    requires NoBite(e) && d.sequence < SESSION_LIMIT
    ensures NoBite(NodeStep(e, Data(d))) && !PastSeal(e.rec, d.sequence)
  {
  }

  lemma {:induction false} NoBiteTotals(e: Entry, c: Counters, final: bool)
    requires NoBite(e)
    ensures NoBite(NodeStep(e, Totals(c, final)))
  {
    if ReportAccepted(e, c, final) && final {
      assert Below(e.seen, c.attempts) == e.seen;
    }
  }

  ghost predicate Unbitten(e: Entry, f: Entry, q: nat) {
    Tracks(e, f, q) && NoBite(e) && NoBite(f)
  }

  lemma {:induction false} UnbittenStep(e: Entry, f: Entry, q: nat, m: Message)
    requires Unbitten(e, f, q) && Receivable(m)
    ensures Unbitten(NodeStep(e, m), NodeStep(f, m), q) && AlertsOf(e, m) == AlertsOf(f, m)
  {
    match m
    case Data(d) =>
      NoBiteData(e, d);
      NoBiteData(f, d);
      TracksData(e, f, q, d);
    case Totals(c, final) =>
      NoBiteTotals(e, c, final);
      NoBiteTotals(f, c, final);
      TotalsTouchNothing(e, c, final);
      TotalsTouchNothing(f, c, final);
  }

  lemma {:induction false} UnbittenRun(e: Entry, f: Entry, q: nat, b: seq<Message>)
    requires Unbitten(e, f, q) && AllReceivable(b)
    ensures Unbitten(NodeRun(e, b), NodeRun(f, b), q) && AlertHistory(e, b) == AlertHistory(f, b)
  {
    if b != [] {
      assert b[|b| - 1] in b && forall m | m in b[..|b| - 1] :: m in b;
      UnbittenRun(e, f, q, b[..|b| - 1]);
      UnbittenStep(NodeRun(e, b[..|b| - 1]), NodeRun(f, b[..|b| - 1]), q, b[|b| - 1]);
    }
  }

  // ... because the maximum is the last sequence there is, or every report claims as much

  ghost predicate Topped(e: Entry) {
    e.rec.last + 1 >= SESSION_LIMIT && e.rec.last in e.seen
  }

  lemma {:induction false} ToppedStep(e: Entry, m: Message)
    requires Topped(e) && Receivable(m)
    ensures var after := NodeStep(e, m);
            Topped(after) && after.rec.last == e.rec.last && after.rec.stored == e.rec.stored && AlertsOf(e, m) == []
  {
  }

  /** Both runs accept the same reports. */
  ghost predicate Agrees(e: Entry, f: Entry, q: nat) {
    && Tracks(e, f, q) && e.rec.SameTotals(f.rec) && e.rec.final == f.rec.final && e.rec.sent + 1 >= SESSION_LIMIT
    && e.rec.last in e.seen && forall x | x in f.seen :: x <= f.rec.last
  }

  lemma {:induction false} SeenIsBounded(s: set<nat>, n: nat)
    requires forall q | q in s :: q < n
    ensures |s| <= n
  {
    if n == 0 {
      assert s == {};
    } else {
      SeenIsBounded(s - {n - 1}, n - 1);
      assert n - 1 in s ==> s == (s - {n - 1}) + {n - 1};
    }
  }

  lemma {:induction false} AgreesTotals(e: Entry, f: Entry, q: nat, c: Counters, final: bool)
    requires Agrees(e, f, q) && e.rec.last + 1 < SESSION_LIMIT
    ensures Agrees(NodeStep(e, Totals(c, final)), NodeStep(f, Totals(c, final)), q)
  {
    SeenIsBounded(f.seen, f.rec.last + 1);
    SubsetCardinality(Below(f.seen, c.attempts), f.seen);
    BelowIsMonotone(e.seen, f.seen, c.attempts);
    assert ReportAccepted(e, c, final) <==> ReportAccepted(f, c, final);
  }

  lemma {:induction false} BelowIsMonotone(s: set<nat>, t: set<nat>, n: nat)
    requires s <= t
    ensures |Below(s, n)| <= |Below(t, n)|
  {
    SubsetCardinality(Below(s, n), Below(t, n));
  }

  lemma {:induction false} AgreesData(e: Entry, f: Entry, q: nat, d: Datagram)
    requires Agrees(e, f, q)
    ensures Agrees(NodeStep(e, Data(d)), NodeStep(f, Data(d)), q) && AlertsOf(e, Data(d)) == AlertsOf(f, Data(d))
  {
    TracksData(e, f, q, d);
  }

  ghost predicate Alike(e: Entry, f: Entry, q: nat) {
    && e.rec.last == f.rec.last && e.rec.stored == f.rec.stored
    && ((Topped(e) && Topped(f)) || Agrees(e, f, q))
  }

  lemma {:induction false} AlikeStep(e: Entry, f: Entry, q: nat, m: Message)
    requires Alike(e, f, q) && Receivable(m)
    ensures Alike(NodeStep(e, m), NodeStep(f, m), q) && AlertsOf(e, m) == AlertsOf(f, m)
  {
    if e.rec.last + 1 >= SESSION_LIMIT {
      ToppedStep(e, m);
      ToppedStep(f, m);
    } else {
      match m
      case Data(d) => AgreesData(e, f, q, d);
      case Totals(c, final) => AgreesTotals(e, f, q, c, final);
    }
  }

  lemma {:induction false} AlikeRun(e: Entry, f: Entry, q: nat, b: seq<Message>)
    requires Alike(e, f, q) && AllReceivable(b)
    ensures Alike(NodeRun(e, b), NodeRun(f, b), q) && AlertHistory(e, b) == AlertHistory(f, b)
  {
    if b != [] {
      assert b[|b| - 1] in b && forall m | m in b[..|b| - 1] :: m in b;
      AlikeRun(e, f, q, b[..|b| - 1]);
      AlikeStep(NodeRun(e, b[..|b| - 1]), NodeRun(f, b[..|b| - 1]), q, b[|b| - 1]);
    }
  }

  // The condition

  /** There is room for a final report that claims every datagram received, one datagram
      more, and a datagram beyond the seal, all within the limits of the protocol. */
  ghost predicate Room(e: Entry) {
    && e.rec.last + 1 < SESSION_LIMIT
    && Claimable(e) + 1 < SESSION_LIMIT
    && Claimable(e) + e.rec.omitted + e.rec.errors < SESSION_LIMIT
  }

  lemma {:induction false} MaximumHasArrived(id: string, session: string, a: seq<Message>)
    ensures var e := NodeRun(Fresh(id, session), a);
            && WellFormed(e) && e.rec.last >= -1 && (e.rec.last >= 0 ==> e.rec.last in e.seen)
  {
    RecordMeansHistory(id, session, a);
    assert WellFormed(Fresh(id, session)) by {
      assert Below({}, 0) == {};
    }
    WellFormedRun(Fresh(id, session), a);
  }

  /** Without room the two runs stay together in one of two ways. */
  lemma {:induction false} NoRoomMeans(e: Entry, d: Datagram)
    requires WellFormed(e) && e.rec.last in e.seen && !e.rec.final && !Room(e)
    requires d.sequence < e.rec.last && d.sequence !in e.seen
    ensures var f := NodeStep(e, Data(d)); Unbitten(e, f, d.sequence) || Alike(e, f, d.sequence)
  {
    var f := NodeStep(e, Data(d));
    LateArrivalTracks(e, d);
    SeenIsBounded(f.seen, f.rec.last + 1);
    if Claimable(e) + e.rec.omitted + e.rec.errors >= SESSION_LIMIT {
      assert NoBite(e) && NoBite(f);
    } else if e.rec.last + 1 >= SESSION_LIMIT {
      assert Topped(e) && Topped(f);
    } else {
      assert |f.seen| == |e.seen| + 1;
      assert Agrees(e, f, d.sequence);
    }
  }

  lemma {:induction false} HarmlessWhenSeenOrSealed(id: string, session: string,
                                                    a: seq<Message>, d: Datagram, b: seq<Message>)
    requires var e := NodeRun(Fresh(id, session), a);
             d.sequence <= e.rec.last && (d.sequence in e.seen || e.rec.final)
    ensures Unmoved(Fresh(id, session), a, d, b)
  {
    var e := NodeRun(Fresh(id, session), a);
    MaximumHasArrived(id, session, a);
    if d.sequence in e.seen || PastSeal(e.rec, d.sequence) {
      DuplicateChangesNothing(id, session, a, d, b);
    } else {
      LateArrivalTracks(e, d);
      ShadowsRun(e, NodeStep(e, Data(d)), d.sequence, b);
      UnmovedFrom(Fresh(id, session), a, d, b);
    }
  }

  /** It is enough to compare the runs from the late arrival on. */
  lemma {:induction false} UnmovedFrom(e0: Entry, a: seq<Message>, d: Datagram, b: seq<Message>)
    requires var e := NodeRun(e0, a); var f := NodeStep(e, Data(d));
             && AlertsOf(e, Data(d)) == [] && AlertHistory(e, b) == AlertHistory(f, b)
             && NodeRun(e, b).rec.stored == NodeRun(f, b).rec.stored
    ensures Unmoved(e0, a, d, b)
  {
    var e := NodeRun(e0, a);
    RunAround(e0, a, d, b);
    Reassociate(AlertHistory(e0, a), AlertsOf(e, Data(d)), AlertHistory(NodeStep(e, Data(d)), b));
  }

  lemma {:induction false} HarmlessWithoutRoom(id: string, session: string,
                                               a: seq<Message>, d: Datagram, b: seq<Message>)
    requires var e := NodeRun(Fresh(id, session), a);
             d.sequence <= e.rec.last && d.sequence !in e.seen && !e.rec.final && !Room(e)
    requires AllReceivable(b)
    ensures Unmoved(Fresh(id, session), a, d, b)
  {
    var e := NodeRun(Fresh(id, session), a);
    var f := NodeStep(e, Data(d));
    MaximumHasArrived(id, session, a);
    LateArrivalTracks(e, d);
    NoRoomMeans(e, d);
    if Unbitten(e, f, d.sequence) {
      UnbittenRun(e, f, d.sequence, b);
    } else {
      AlikeRun(e, f, d.sequence, b);
    }
    UnmovedFrom(Fresh(id, session), a, d, b);
  }

  // A run that tells the difference

  const CALM: seq<Measurement> :=
    [Measurement("TEMP", 20.0), Measurement("HUM", 50.0), Measurement("VIB", 1.0)]
  const HOT: seq<Measurement> :=
    [Measurement("TEMP", 50.0), Measurement("HUM", 50.0), Measurement("VIB", 1.0)]

  function Other(values: seq<Measurement>): (other: seq<Measurement>)
    ensures other != values
  {
    if values == CALM then (assert CALM[0].value != HOT[0].value; HOT) else CALM
  }

  /** Both runs before the seal, `q` being the late arrival, with room above the maximum. */
  ghost predicate Paired(e: Entry, f: Entry, q: nat) {
    && Tracks(e, f, q) && q !in e.seen && f.seen == e.seen + {q} && e.rec.SameTotals(f.rec)
    && !e.rec.final && !f.rec.final && e.rec.last in e.seen && e.rec.last + 1 < SESSION_LIMIT
    && forall x | x in f.seen :: x <= f.rec.last
  }

  /** A sequence below n that has not arrived. */
  lemma {:induction false} Gap(s: set<nat>, n: nat) returns (g: nat)
    requires |Below(s, n)| < n
    ensures g < n && g !in s
  {
    if n - 1 !in s {
      return n - 1;
    }
    BelowStep(s, n - 1);
    g := Gap(s, n - 1);
  }

  lemma {:induction false} FillOne(e: Entry, f: Entry, q: nat, g: nat)
    requires Paired(e, f, q) && g + 1 < SESSION_LIMIT && g !in f.seen
    ensures var m := Data(Datagram(g, CALM));
            && Paired(NodeStep(e, m), NodeStep(f, m), q) && NodeStep(e, m).rec.SameTotals(e.rec)
            && |NodeStep(e, m).seen| == |e.seen| + 1
  {
    TracksData(e, f, q, Datagram(g, CALM));
  }

  /** k first arrivals in gaps or above the maximum, the same in both runs. */
  lemma {:induction false} Fill(e: Entry, f: Entry, q: nat, k: nat) returns (b: seq<Message>)
    requires Paired(e, f, q) && |e.seen| + k + 1 < SESSION_LIMIT
    ensures AllReceivable(b) && Paired(NodeRun(e, b), NodeRun(f, b), q)
    ensures NodeRun(e, b).rec.SameTotals(e.rec) && |NodeRun(e, b).seen| == |e.seen| + k
  {
    if k == 0 {
      return [];
    }
    var before := Fill(e, f, q, k - 1);
    var e1, f1 := NodeRun(e, before), NodeRun(f, before);
    SubsetCardinality(Below(f1.seen, SESSION_LIMIT - 1), f1.seen);
    var g := Gap(f1.seen, SESSION_LIMIT - 1);
    FillOne(e1, f1, q, g);
    CalmIsSound();
    b := before + [Data(Datagram(g, CALM))];
    RunSnoc(e, before, Data(Datagram(g, CALM)));
    RunSnoc(f, before, Data(Datagram(g, CALM)));
  }

  lemma {:induction false} CalmIsSound()
    ensures SoundValues(CALM) && SoundValues(HOT)
  {
  }

  lemma {:induction false} SealThenRefuse(e: Entry, c: Counters, d: Datagram)
    requires ReportAccepted(e, c, true) && d.sequence >= c.attempts
    ensures NodeRun(e, [Totals(c, true), Data(d)]).rec.stored == e.rec.stored
  {
    RunOfOne(e, Totals(c, true));
    RunSnoc(e, [Totals(c, true)], Data(d));
    assert [Totals(c, true)] + [Data(d)] == [Totals(c, true), Data(d)];
  }

  lemma {:induction false} RefuseThenRecord(e: Entry, c: Counters, d: Datagram)
    requires !ReportAccepted(e, c, true) && !e.rec.final && SetsRecord(e, d.sequence)
    ensures NodeRun(e, [Totals(c, true), Data(d)]).rec.stored == d.values
  {
    RunOfOne(e, Totals(c, true));
    RunSnoc(e, [Totals(c, true)], Data(d));
    assert [Totals(c, true)] + [Data(d)] == [Totals(c, true), Data(d)];
  }

  /** The final report that claims exactly the datagrams received, with all other attempts
      up to the last sequence but one omitted or failed. */
  ghost predicate Claims(e: Entry, c: Counters) {
    && c.attempts == SESSION_LIMIT - 1 && c.sent == |e.seen| && c.errors == e.rec.errors
    && c.omitted == SESSION_LIMIT - 1 - |e.seen| - e.rec.errors
  }

  lemma {:induction false} ClaimIsJudged(e: Entry, f: Entry, q: nat, c: Counters)
    requires Paired(e, f, q) && e.rec.attempts == e.rec.sent + e.rec.omitted + e.rec.errors && Claims(e, c)
    requires e.rec.sent <= |e.seen| && |e.seen| + e.rec.omitted + e.rec.errors < SESSION_LIMIT
    ensures ReportAccepted(e, c, true) && !ReportAccepted(f, c, true)
    ensures SetsRecord(f, SESSION_LIMIT - 1)
  {
    assert Below(e.seen, SESSION_LIMIT - 1) == e.seen;
    assert Below(f.seen, SESSION_LIMIT - 1) == f.seen;
  }

  /** Without the late datagram the claim seals the session and the datagram after it is
      refused; with it the claim is refused and the datagram is recorded. */
  lemma {:induction false} ClaimTells(e: Entry, f: Entry, q: nat) returns (b: seq<Message>)
    requires Paired(e, f, q) && e.rec.attempts == e.rec.sent + e.rec.omitted + e.rec.errors
    requires e.rec.sent <= |e.seen| && |e.seen| + e.rec.omitted + e.rec.errors < SESSION_LIMIT
    ensures AllReceivable(b) && NodeRun(e, b).rec.stored != NodeRun(f, b).rec.stored
  {
    var omitted: nat := SESSION_LIMIT - 1 - |e.seen| - e.rec.errors;
    var c := Counters(SESSION_LIMIT - 1, |e.seen|, omitted, e.rec.errors);
    var d := Datagram(SESSION_LIMIT - 1, Other(e.rec.stored));
    ClaimIsJudged(e, f, q, c);
    SealThenRefuse(e, c, d);
    RefuseThenRecord(f, c, d);
    CalmIsSound();
    b := [Totals(c, true), Data(d)];
  }

  lemma {:induction false} Tell(e: Entry, f: Entry, q: nat) returns (b: seq<Message>)
    requires Paired(e, f, q) && WellFormed(e) && Room(e)
    ensures AllReceivable(b) && NodeRun(e, b).rec.stored != NodeRun(f, b).rec.stored
  {
    var filler := Fill(e, f, q, Claimable(e) - |e.seen|);
    var telling := ClaimTells(NodeRun(e, filler), NodeRun(f, filler), q);
    b := filler + telling;
    RunConcat(e, filler, telling);
    RunConcat(f, filler, telling);
  }

  lemma {:induction false} VisibleWithRoom(id: string, session: string, a: seq<Message>, d: Datagram)
    returns (b: seq<Message>)
    requires var e := NodeRun(Fresh(id, session), a);
             d.sequence <= e.rec.last && d.sequence !in e.seen && !e.rec.final && Room(e)
    ensures AllReceivable(b) && !Unmoved(Fresh(id, session), a, d, b)
  {
    var e := NodeRun(Fresh(id, session), a);
    MaximumHasArrived(id, session, a);
    LateArrivalTracks(e, d);
    b := Tell(e, NodeStep(e, Data(d)), d.sequence);
    RunAround(Fresh(id, session), a, d, b);
  }

  /** When exactly a datagram that is not above the current maximum is without effect on
      alerts and stored values, whatever the server can still receive: when it is a
      duplicate, or the session is already sealed, or there is no room left in the protocol
      for a report and a datagram that would tell. Otherwise it counts towards what a report
      may claim, so that it can turn the verdict on a later, dishonest report. */
  lemma {:induction false} LateArrivalVerdict(id: string, session: string, a: seq<Message>, d: Datagram)
    requires d.sequence <= NodeRun(Fresh(id, session), a).rec.last
    ensures var e := NodeRun(Fresh(id, session), a);
            (forall b | AllReceivable(b) :: Unmoved(Fresh(id, session), a, d, b)) <==>
            d.sequence in e.seen || e.rec.final || !Room(e)
  {
    var e := NodeRun(Fresh(id, session), a);
    if d.sequence in e.seen || e.rec.final || !Room(e) {
      forall b | AllReceivable(b)
        ensures Unmoved(Fresh(id, session), a, d, b)
      {
        if d.sequence in e.seen || e.rec.final {
          HarmlessWhenSeenOrSealed(id, session, a, d, b);
        } else {
          HarmlessWithoutRoom(id, session, a, d, b);
        }
      }
    } else {
      var b := VisibleWithRoom(id, session, a, d);
    }
  }

  lemma {:induction false} LateClaims(e: Entry, f: Entry, c: Counters)
    requires e.seen == {5} && f.seen == {3, 5} && f.rec.SameTotals(e.rec)
    requires e.rec.attempts == e.rec.sent == e.rec.omitted == e.rec.errors == 0
    requires e.rec.last == f.rec.last == 5 && !e.rec.final && !f.rec.final
    requires c.attempts == 6 && c.sent == 1 && c.omitted == 5 && c.errors == 0
    ensures ReportAccepted(e, c, true) && !ReportAccepted(f, c, true) && SetsRecord(f, 9)
  {
    assert Below(e.seen, 6) == {5} && Below(f.seen, 6) == {3, 5};
  }

  ghost function Late(id: string, session: string): Entry {
    NodeStep(Fresh(id, session), Data(Datagram(5, CALM)))
  }

  lemma {:induction false} LateMeans(id: string, session: string)
    ensures var e := Late(id, session);
            var f := NodeStep(e, Data(Datagram(3, CALM)));
            && e.seen == {5} && f.seen == {3, 5} && f.rec.SameTotals(e.rec)
            && e.rec.attempts == e.rec.sent == e.rec.omitted == e.rec.errors == 0
            && e.rec.last == f.rec.last == 5 && !e.rec.final && !f.rec.final && e.rec.stored == CALM
  {
  }

  /** One such run: 5 has arrived, 3 comes late, a final report claims 1 of 6 attempts sent,
      and 9 follows. Without 3 the report seals the session; with 3 it is refused, and the
      values of 9 are stored. */
  lemma {:induction false} LateDatagramTurnsAReport(id: string, session: string, c: Counters)
    requires c.attempts == 6 && c.sent == 1 && c.omitted == 5 && c.errors == 0
    ensures var a, d := [Data(Datagram(5, CALM))], Datagram(3, CALM);
            var b := [Totals(c, true), Data(Datagram(9, HOT))];
            var e0 := Fresh(id, session);
            && NodeRun(e0, a + b).rec.stored == CALM
            && NodeRun(e0, a + [Data(d)] + b).rec.stored == HOT
            && !Unmoved(e0, a, d, b)
  {
    var a, d := [Data(Datagram(5, CALM))], Datagram(3, CALM);
    var b := [Totals(c, true), Data(Datagram(9, HOT))];
    var e := Late(id, session);
    var f := NodeStep(e, Data(d));
    RunAround(Fresh(id, session), a, d, b);
    RunOfOne(Fresh(id, session), Data(Datagram(5, CALM)));
    LateMeans(id, session);
    LateClaims(e, f, c);
    SealThenRefuse(e, c, Datagram(9, HOT));
    RefuseThenRecord(f, c, Datagram(9, HOT));
    assert CALM[0].value != HOT[0].value;
  }
}
