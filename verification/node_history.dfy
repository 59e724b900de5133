/** What one node's record means in terms of everything ever delivered to it. */
module NodeHistory {
  import opened Prelude
  import opened NodeRecord

  /** The datagrams of `ms` that the seal lets through, in order of arrival. */
  ghost function Delivered(e: Entry, ms: seq<Message>): seq<Datagram> {
    if ms == [] then []
    else
      var m := ms[|ms| - 1];
      Delivered(e, ms[..|ms| - 1]) +
      if m.Data? && !PastSeal(NodeRun(e, ms[..|ms| - 1]).rec, m.datagram.sequence) then [m.datagram] else []
  }

  ghost function Arrived(ds: seq<Datagram>): set<nat> {
    set d | d in ds :: d.sequence
  }

  /** The greatest sequence delivered, or -1. */
  ghost function Peak(ds: seq<Datagram>): (p: int)
    ensures forall d | d in ds :: d.sequence <= p
    ensures if ds == [] then p == -1 else p in Arrived(ds)
  {
    if ds == [] then -1
    else
      var d, before := ds[|ds| - 1], Peak(ds[..|ds| - 1]);
      assert forall x | x in ds :: x in ds[..|ds| - 1] || x == d;
      assert forall x | x in ds[..|ds| - 1] :: x in ds;
      if d.sequence > before then d.sequence else before
  }

  /** The datagrams that were above everything delivered before them. */
  ghost function Records(ds: seq<Datagram>): seq<Datagram> {
    if ds == [] then []
    else
      var d, before := ds[|ds| - 1], ds[..|ds| - 1];
      Records(before) + if d.sequence > Peak(before) then [d] else []
  }

  /** How many first arrivals came below the running maximum. */
  ghost function LateCount(ds: seq<Datagram>): nat {
    if ds == [] then 0
    else
      var d, before := ds[|ds| - 1], ds[..|ds| - 1];
      LateCount(before) + if d.sequence !in Arrived(before) && d.sequence < Peak(before) then 1 else 0
  }

  ghost function LatestValues(ds: seq<Datagram>): seq<Measurement> {
    var rs := Records(ds);
    if rs == [] then [] else rs[|rs| - 1].values
  }

  ghost predicate Summarizes(e: Entry, ds: seq<Datagram>) {
    && e.seen == Arrived(ds)
    && e.rec.unique == |Arrived(ds)|
    && e.rec.unique + e.rec.duplicates == |ds|
    && e.rec.last == Peak(ds)
    && e.rec.reordered == LateCount(ds)
    && e.rec.lost == LossOf(e.rec, Arrived(ds))
    && e.rec.stored == LatestValues(ds)
  }

  lemma {:induction false} PeakSnoc(ds: seq<Datagram>, d: Datagram)
    ensures Peak(ds + [d]) == if d.sequence > Peak(ds) then d.sequence else Peak(ds)
  {
    SnocInit(ds, d);
  }

  lemma {:induction false} RecordsSnoc(ds: seq<Datagram>, d: Datagram)
    ensures Records(ds + [d]) == Records(ds) + if d.sequence > Peak(ds) then [d] else []
    ensures LatestValues(ds + [d]) == if d.sequence > Peak(ds) then d.values else LatestValues(ds)
  {
    SnocInit(ds, d);
    assert Records(ds) + [] == Records(ds);
  }

  lemma {:induction false} LateSnoc(ds: seq<Datagram>, d: Datagram)
    ensures LateCount(ds + [d]) ==
            LateCount(ds) + if d.sequence !in Arrived(ds) && d.sequence < Peak(ds) then 1 else 0
  {
    SnocInit(ds, d);
  }

  lemma {:induction false} ArrivedSnoc(ds: seq<Datagram>, d: Datagram)
    ensures Arrived(ds + [d]) == Arrived(ds) + {d.sequence}
    ensures d.sequence in Arrived(ds) ==> Arrived(ds + [d]) == Arrived(ds) && d.sequence <= Peak(ds)
    ensures d.sequence == Peak(ds) ==> d.sequence in Arrived(ds)
  {
  }

  lemma {:induction false} SummaryStep(e: Entry, ds: seq<Datagram>, d: Datagram)
    requires Summarizes(e, ds)
    ensures Summarizes(AfterDatagram(e, d.sequence, d.values), ds + [d])
    ensures SetsRecord(e, d.sequence) <==> d.sequence > Peak(ds)
  {
    ArrivedSnoc(ds, d);
    PeakSnoc(ds, d);
    RecordsSnoc(ds, d);
    LateSnoc(ds, d);
  }

  lemma {:induction false} TotalsKeepSummary(e: Entry, ds: seq<Datagram>, c: Counters, final: bool)
    requires Summarizes(e, ds)
    ensures Summarizes(NodeStep(e, Totals(c, final)), ds)
  {
  }

  /** Every counter of the C record, over every run of messages since registration. */
  lemma {:induction false} RecordMeansHistory(id: string, session: string, ms: seq<Message>)
    ensures Summarizes(NodeRun(Fresh(id, session), ms), Delivered(Fresh(id, session), ms))
  {
    var e0 := Fresh(id, session);
    if ms == [] {
      assert Below({}, 0) == {};
    } else {
      var before, m := ms[..|ms| - 1], ms[|ms| - 1];
      var e, ds := NodeRun(e0, before), Delivered(e0, before);
      assert Summarizes(e, ds) by {
        RecordMeansHistory(id, session, before);
      }
      match m
      case Data(d) =>
        if PastSeal(e.rec, d.sequence) {
          assert Delivered(e0, ms) == ds;
        } else {
          SummaryStep(e, ds, d);
        }
      case Totals(c, final) =>
        TotalsKeepSummary(e, ds, c, final);
        assert Delivered(e0, ms) == ds;
    }
  }

  // The seal

  /** A final report fixes what was reported, and no bit at or above it is set. */
  ghost predicate Sealed(e: Entry) {
    e.rec.final && forall q | q in e.seen :: q < e.rec.attempts
  }

  ghost predicate WellFormed(e: Entry) {
    && (forall q | q in e.seen :: q <= e.rec.last)
    && e.rec.lost == LossOf(e.rec, e.seen)
    && e.rec.attempts == e.rec.sent + e.rec.omitted + e.rec.errors
    && (e.rec.final ==> Sealed(e) && e.rec.reportSeen)
    && (!e.rec.reportSeen ==> e.rec.attempts == 0)
  }

  lemma {:induction false} WellFormedStep(e: Entry, m: Message)
    requires WellFormed(e)
    ensures WellFormed(NodeStep(e, m))
  {
  }

  lemma {:induction false} WellFormedRun(e: Entry, ms: seq<Message>)
    requires WellFormed(e)
    ensures WellFormed(NodeRun(e, ms))
  {
    if ms != [] {
      WellFormedRun(e, ms[..|ms| - 1]);
      WellFormedStep(NodeRun(e, ms[..|ms| - 1]), ms[|ms| - 1]);
    }
  }

  /** A datagram lowers the loss estimate by at most one and never raises it. */
  lemma {:induction false} DatagramLowersLoss(e: Entry, d: Datagram)
    requires WellFormed(e)
    ensures var after := NodeStep(e, Data(d));
            && after.rec.lost <= e.rec.lost <= after.rec.lost + 1
            && after.rec.SameTotals(e.rec) && after.rec.final == e.rec.final
  {
    if d.sequence !in e.seen {
      BelowInsert(e.seen, d.sequence, e.rec.attempts);
    }
  }

  /** After the seal no run of messages changes the reported totals, sets a bit beyond
      them or raises the loss, and each message lowers the loss by at most one. */
  lemma {:induction false} SealHolds(e: Entry, ms: seq<Message>)
    requires WellFormed(e) && e.rec.final
    ensures var after := NodeRun(e, ms);
            && Sealed(after)
            && after.rec.SameTotals(e.rec)
            && e.seen <= after.seen
            && after.rec.lost <= e.rec.lost <= after.rec.lost + |ms|
  {
    if ms != [] {
      var before, m := ms[..|ms| - 1], ms[|ms| - 1];
      SealHolds(e, before);
      WellFormedRun(e, before);
      if m.Data? {
        DatagramLowersLoss(NodeRun(e, before), m.datagram);
      }
    }
  }
}
