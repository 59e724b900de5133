/** One session of an honest sender: what it did, attempt by attempt, and what the
    server's record says once any of its messages have arrived, in any order. */
module TruthfulSession {
  import opened Prelude
  import opened NodeRecord
  import opened NodeHistory

  datatype Fate = Sent | Omitted | Failed

  /** One attempt of the sender; its index in the log is its sequence number. */
  datatype Attempt = Attempt(fate: Fate, values: seq<Measurement>)

  /** How many of the first `a` attempts met this fate. */
  ghost function Count(log: seq<Attempt>, a: nat, fate: Fate): nat
    requires a <= |log|
  {
    if a == 0 then 0 else Count(log, a - 1, fate) + if log[a - 1].fate == fate then 1 else 0
  }

  /** `c` is what the sender's four counters were after its first c.attempts attempts. */
  ghost predicate WereTotals(log: seq<Attempt>, c: Counters) {
    && c.attempts <= |log|
    && c.sent == Count(log, c.attempts, Sent)
    && c.omitted == Count(log, c.attempts, Omitted)
    && c.errors == Count(log, c.attempts, Failed)
  }

  /** The sequences below `a` that were really sent. */
  ghost function SentBelow(log: seq<Attempt>, a: nat): set<nat>
    requires a <= |log|
  {
    set q: nat | q < a && log[q].fate == Sent
  }

  /** A message the sender could have emitted: a datagram it sent, or the totals it had
      at some point; it calls totals final only once it has stopped. */
  ghost predicate Truthful(log: seq<Attempt>, m: Message) {
    match m
    case Data(d) => d.sequence < |log| && log[d.sequence] == Attempt(Sent, d.values)
    case Totals(c, final) => WereTotals(log, c) && (final ==> c.attempts == |log|)
  }

  ghost predicate AllTruthful(log: seq<Attempt>, ms: seq<Message>) {
    forall m | m in ms :: Truthful(log, m)
  }

  lemma {:induction false} CountsAddUp(log: seq<Attempt>, a: nat)
    requires a <= |log|
    ensures a == Count(log, a, Sent) + Count(log, a, Omitted) + Count(log, a, Failed)
  {
    if a > 0 {
      CountsAddUp(log, a - 1);
    }
  }

  lemma {:induction false} CountGrows(log: seq<Attempt>, a: nat, b: nat, fate: Fate)
    requires a <= b <= |log|
    ensures Count(log, a, fate) <= Count(log, b, fate)
    decreases b
  {
    if a < b {
      CountGrows(log, a, b - 1, fate);
    }
  }

  lemma {:induction false} CountOfPrefix(log: seq<Attempt>, more: seq<Attempt>, a: nat, fate: Fate)
    requires a <= |log|
    ensures Count(log + more, a, fate) == Count(log, a, fate)
  {
    if a > 0 {
      CountOfPrefix(log, more, a - 1, fate);
    }
  }

  lemma {:induction false} SentIsCounted(log: seq<Attempt>, a: nat)
    requires a <= |log|
    ensures |SentBelow(log, a)| == Count(log, a, Sent)
  {
    if a == 0 {
      assert SentBelow(log, 0) == {};
    } else {
      SentIsCounted(log, a - 1);
      assert SentBelow(log, a) == SentBelow(log, a - 1) + if log[a - 1].fate == Sent then {a - 1} else {};
    }
  }

  lemma {:induction false} TruthfulLater(log: seq<Attempt>, more: seq<Attempt>, m: Message)
    requires Truthful(log, m) && !(m.Totals? && m.final)
    ensures Truthful(log + more, m)
  {
    if m.Totals? {
      forall fate
        ensures Count(log + more, m.counters.attempts, fate) == Count(log, m.counters.attempts, fate)
      {
        CountOfPrefix(log, more, m.counters.attempts, fate);
      }
    }
  }

  ghost predicate ReportedFrom(log: seq<Attempt>, rec: TelemetryNode) {
    && rec.attempts <= |log|
    && rec.sent == Count(log, rec.attempts, Sent)
    && rec.omitted == Count(log, rec.attempts, Omitted)
    && rec.errors == Count(log, rec.attempts, Failed)
  }

  /** What the server can know of an honest session. */
  ghost predicate Faithful(log: seq<Attempt>, e: Entry) {
    && WellFormed(e)
    && e.rec.last < |log|
    && e.seen <= SentBelow(log, |log|)
    && ReportedFrom(log, e.rec)
    && (e.rec.final ==> e.rec.attempts == |log|)
  }

  lemma {:induction false} ReceivedWasSent(log: seq<Attempt>, e: Entry, a: nat)
    requires e.seen <= SentBelow(log, |log|) && a <= |log|
    ensures Below(e.seen, a) <= SentBelow(log, a)
    ensures |Below(e.seen, a)| <= Count(log, a, Sent)
  {
    SentIsCounted(log, a);
    SubsetCardinality(Below(e.seen, a), SentBelow(log, a));
  }

  /** An honest report is refused only when it is stale: older than what was already
      accepted, or not final after the final one. */
  lemma {:induction false} HonestReportVerdict(log: seq<Attempt>, e: Entry, c: Counters, final: bool)
    requires Faithful(log, e) && Truthful(log, Totals(c, final))
    ensures ReportAccepted(e, c, final) <==> e.rec.attempts <= c.attempts && (e.rec.final ==> final)
  {
    if e.rec.attempts <= c.attempts && (e.rec.final ==> final) {
      CountsAddUp(log, c.attempts);
      CountGrows(log, e.rec.attempts, c.attempts, Sent);
      CountGrows(log, e.rec.attempts, c.attempts, Omitted);
      CountGrows(log, e.rec.attempts, c.attempts, Failed);
      ReceivedWasSent(log, e, c.attempts);
    }
  }

  /** The sender's current totals are always accepted, unless they say "not final" after
      a final report. */
  lemma {:induction false} CurrentTotalsAccepted(log: seq<Attempt>, e: Entry, c: Counters, final: bool)
    requires Faithful(log, e) && (e.rec.final ==> final)
    requires WereTotals(log, c) && c.attempts == |log|
    ensures ReportAccepted(e, c, final)
  {
    HonestReportVerdict(log, e, c, final);
  }

  lemma {:induction false} FaithfulStep(log: seq<Attempt>, e: Entry, m: Message)
    requires Faithful(log, e) && Truthful(log, m)
    ensures Faithful(log, NodeStep(e, m))
    ensures m.Data? ==> !PastSeal(e.rec, m.datagram.sequence)
  {
    WellFormedStep(e, m);
  }

  lemma {:induction false} FaithfulFresh(log: seq<Attempt>, id: string, session: string)
    ensures Faithful(log, Fresh(id, session))
  {
    var e := Fresh(id, session);
    assert WellFormed(e) by {
      assert Below({}, 0) == {};
    }
  }

  lemma {:induction false} FaithfulRun(log: seq<Attempt>, id: string, session: string, ms: seq<Message>)
    requires AllTruthful(log, ms)
    ensures Faithful(log, NodeRun(Fresh(id, session), ms))
  {
    if ms == [] {
      FaithfulFresh(log, id, session);
    } else {
      var before, m := ms[..|ms| - 1], ms[|ms| - 1];
      assert AllTruthful(log, before) && m in ms;
      FaithfulRun(log, id, session, before);
      FaithfulStep(log, NodeRun(Fresh(id, session), before), m);
    }
  }

  /** The loss estimate of an honest session is exact and never clamped: it counts the
      sequences really sent below the reported attempts that have not arrived. */
  lemma {:induction false} LossIsExact(log: seq<Attempt>, e: Entry)
    requires Faithful(log, e)
    ensures e.rec.lost == |SentBelow(log, e.rec.attempts) - e.seen|
    ensures e.rec.lost + |Below(e.seen, e.rec.attempts)| == e.rec.sent
    ensures e.rec.final ==> (e.rec.lost == 0 <==> e.seen == SentBelow(log, |log|))
  {
    var a := e.rec.attempts;
    ReceivedWasSent(log, e, a);
    SentIsCounted(log, a);
    var missing := SentBelow(log, a) - e.seen;
    assert SentBelow(log, a) == missing + Below(e.seen, a);
    if e.rec.lost == 0 {
      assert missing == {};
    }
  }

  // Convergence: the order of arrival does not matter

  ghost function Datagrams(ms: seq<Message>): seq<Datagram> {
    if ms == [] then []
    else Datagrams(ms[..|ms| - 1]) + if ms[|ms| - 1].Data? then [ms[|ms| - 1].datagram] else []
  }

  /** The largest number of attempts any report in `ms` states. */
  ghost function LatestReport(ms: seq<Message>): (a: nat)
    ensures forall m | m in ms && m.Totals? :: m.counters.attempts <= a
    ensures a == 0 || exists m :: m in ms && m.Totals? && m.counters.attempts == a
  {
    if ms == [] then 0
    else
      var before, m := ms[..|ms| - 1], ms[|ms| - 1];
      assert m in ms;
      assert forall x | x in ms :: x in before || x == m;
      assert forall x | x in before :: x in ms;
      var a := LatestReport(before);
      if m.Totals? && m.counters.attempts > a then m.counters.attempts else a
  }

  ghost predicate Reports(ms: seq<Message>) {
    exists m :: m in ms && m.Totals?
  }

  ghost predicate Finishes(ms: seq<Message>) {
    exists m :: m in ms && m.Totals? && m.final
  }

  lemma {:induction false} AllDelivered(log: seq<Attempt>, id: string, session: string, ms: seq<Message>)
    requires AllTruthful(log, ms)
    ensures Delivered(Fresh(id, session), ms) == Datagrams(ms)
  {
    if ms != [] {
      var before, m := ms[..|ms| - 1], ms[|ms| - 1];
      assert AllTruthful(log, before) && m in ms;
      AllDelivered(log, id, session, before);
      FaithfulRun(log, id, session, before);
      FaithfulStep(log, NodeRun(Fresh(id, session), before), m);
    }
  }

  /** However the reports are interleaved, the record ends with the latest totals. */
  lemma {:induction false} LatestTotalsWin(log: seq<Attempt>, id: string, session: string, ms: seq<Message>)
    requires AllTruthful(log, ms)
    ensures var rec := NodeRun(Fresh(id, session), ms).rec;
            && rec.attempts == LatestReport(ms) && ReportedFrom(log, rec)
            && (rec.reportSeen <==> Reports(ms))
            && (rec.final <==> Finishes(ms))
  {
    if ms == [] {
    } else {
      var before, m := ms[..|ms| - 1], ms[|ms| - 1];
      assert AllTruthful(log, before) && m in ms && ms == before + [m];
      LatestTotalsWin(log, id, session, before);
      FaithfulRun(log, id, session, before);
      LatestTotalsStep(log, NodeRun(Fresh(id, session), before), m);
      FaithfulStep(log, NodeRun(Fresh(id, session), before), m);
      ReportsSnoc(before, m);
    }
  }

  lemma {:induction false} ReportsSnoc(before: seq<Message>, m: Message)
    ensures LatestReport(before + [m]) ==
            if m.Totals? && m.counters.attempts > LatestReport(before) then m.counters.attempts
            else LatestReport(before)
    ensures Reports(before + [m]) <==> Reports(before) || m.Totals?
    ensures Finishes(before + [m]) <==> Finishes(before) || (m.Totals? && m.final)
  {
    var ms := before + [m];
    SnocInit(before, m);
    assert m in ms && forall x :: x in ms <==> x in before || x == m;
  }

  lemma {:induction false} LatestTotalsStep(log: seq<Attempt>, e: Entry, m: Message)
    requires Faithful(log, e) && Truthful(log, m)
    ensures var rec := NodeStep(e, m).rec;
            && rec.attempts == (if m.Totals? && m.counters.attempts > e.rec.attempts then m.counters.attempts
                                else e.rec.attempts)
            && (rec.reportSeen <==> e.rec.reportSeen || m.Totals?)
            && (rec.final <==> e.rec.final || (m.Totals? && m.final))
  {
    match m
    case Data(d) =>
    case Totals(c, final) => HonestReportVerdict(log, e, c, final);
  }

  lemma {:induction false} DatagramMultiset(ms: seq<Message>, d: Datagram)
    ensures multiset(Datagrams(ms))[d] == multiset(ms)[Data(d)]
  {
    if ms != [] {
      DatagramMultiset(ms[..|ms| - 1], d);
      assert ms == ms[..|ms| - 1] + [ms[|ms| - 1]];
    }
  }

  /** The last record-setting datagram is the one with the greatest sequence. */
  lemma {:induction false} LatestIsPeak(ds: seq<Datagram>)
    requires ds != []
    ensures Records(ds) != []
    ensures var d := Records(ds)[|Records(ds)| - 1]; d in ds && d.sequence == Peak(ds)
  {
    var d, before := ds[|ds| - 1], ds[..|ds| - 1];
    assert d in ds;
    if before != [] {
      LatestIsPeak(before);
    }
  }

  lemma {:induction false} StoredIsPeaksValues(log: seq<Attempt>, ds: seq<Datagram>)
    requires forall d | d in ds :: Truthful(log, Data(d))
    ensures ds == [] ==> LatestValues(ds) == []
    ensures ds != [] ==> 0 <= Peak(ds) < |log| && LatestValues(ds) == log[Peak(ds)].values
  {
    if ds != [] {
      LatestIsPeak(ds);
    }
  }

  lemma {:induction false} DatagramsComeFrom(ms: seq<Message>, d: Datagram)
    ensures d in Datagrams(ms) <==> Data(d) in ms
  {
    DatagramMultiset(ms, d);
    assert d in Datagrams(ms) <==> d in multiset(Datagrams(ms));
    assert Data(d) in ms <==> Data(d) in multiset(ms);
  }

  lemma {:induction false} DatagramsAreTruthful(log: seq<Attempt>, ms: seq<Message>)
    requires AllTruthful(log, ms)
    ensures forall d | d in Datagrams(ms) :: Truthful(log, Data(d))
  {
    forall d | d in Datagrams(ms)
      ensures Truthful(log, Data(d))
    {
      DatagramsComeFrom(ms, d);
    }
  }

  lemma {:induction false} SamePeak(ds: seq<Datagram>, es: seq<Datagram>)
    requires multiset(ds) == multiset(es)
    ensures |ds| == |es| && Arrived(ds) == Arrived(es) && Peak(ds) == Peak(es)
  {
    SameMembers(ds, es);
  }

  lemma {:induction false} SameLatestReport(ms: seq<Message>, ns: seq<Message>)
    requires forall m :: m in ms <==> m in ns
    ensures LatestReport(ms) == LatestReport(ns) && (Reports(ms) <==> Reports(ns)) && (Finishes(ms) <==> Finishes(ns))
  {
  }

  /** Any two orders of arrival of the same honest messages, datagrams and reports
      alike, leave the same bitmap and the same record; only `reordered` may differ. */
  lemma {:induction false} OrderDoesNotMatter(log: seq<Attempt>, id: string, session: string,
                                              ms: seq<Message>, ns: seq<Message>)
    requires AllTruthful(log, ms) && multiset(ms) == multiset(ns)
    ensures var e, f := NodeRun(Fresh(id, session), ms), NodeRun(Fresh(id, session), ns);
            e.seen == f.seen && e.rec == f.rec.(reordered := e.rec.reordered)
  {
    var e, f := NodeRun(Fresh(id, session), ms), NodeRun(Fresh(id, session), ns);
    SameMembers(ms, ns);
    assert AllTruthful(log, ns);
    assert e.rec.SameTotals(f.rec) && e.rec.reportSeen == f.rec.reportSeen && e.rec.final == f.rec.final by {
      LatestTotalsWin(log, id, session, ms);
      LatestTotalsWin(log, id, session, ns);
      SameLatestReport(ms, ns);
    }
    var ds, es := Datagrams(ms), Datagrams(ns);
    assert Summarizes(e, ds) && Summarizes(f, es) by {
      AllDelivered(log, id, session, ms);
      AllDelivered(log, id, session, ns);
      RecordMeansHistory(id, session, ms);
      RecordMeansHistory(id, session, ns);
    }
    SameSummaries(log, ms, ns, e, f);
  }

  lemma {:induction false} SameSummaries(log: seq<Attempt>, ms: seq<Message>, ns: seq<Message>, e: Entry, f: Entry)
    requires AllTruthful(log, ms) && multiset(ms) == multiset(ns)
    requires Summarizes(e, Datagrams(ms)) && Summarizes(f, Datagrams(ns))
    requires e.rec.SameTotals(f.rec)
    ensures e.seen == f.seen
    ensures e.rec.unique == f.rec.unique && e.rec.duplicates == f.rec.duplicates && e.rec.last == f.rec.last
    ensures e.rec.lost == f.rec.lost && e.rec.stored == f.rec.stored
  {
    var ds, es := Datagrams(ms), Datagrams(ns);
    assert multiset(ds) == multiset(es) by {
      forall d
        ensures multiset(ds)[d] == multiset(es)[d]
      {
        DatagramMultiset(ms, d);
        DatagramMultiset(ns, d);
      }
    }
    SamePeak(ds, es);
    DatagramsAreTruthful(log, ms);
    StoredIsPeaksValues(log, ds);
    SameMembers(ms, ns);
    DatagramsAreTruthful(log, ns);
    StoredIsPeaksValues(log, es);
  }
}
