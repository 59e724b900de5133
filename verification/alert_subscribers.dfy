/** server/alert_subscribers.c: 32 slots with ring queues, updated in place. */
module AlertSubscribers {
  import opened Prelude
  import opened NodeRecord
  import opened SubscriberSpec

  /** The C struct: fd 0 means free; `lines` is a ring of QUEUE_SIZE cells. */
  datatype Subscriber = Subscriber(fd: int, head: nat, count: nat, lines: seq<string>)

  ghost predicate WellFormed(s: Subscriber) {
    |s.lines| == QUEUE_SIZE && s.head < QUEUE_SIZE && s.count <= QUEUE_SIZE
  }

  /** The queued lines, oldest first. */
  ghost function Queue(s: Subscriber): (q: seq<string>)
    requires WellFormed(s)
    ensures |q| == s.count
  {
    seq(s.count, k requires 0 <= k < s.count => s.lines[(s.head + k) % QUEUE_SIZE])
  }

  ghost function AsSlot(s: Subscriber): Slot
    requires WellFormed(s)
  {
    if s.fd == 0 then Free else Taken(s.fd, Queue(s))
  }

  ghost function AsSlots(ss: seq<Subscriber>): seq<Slot>
    requires forall s | s in ss :: WellFormed(s)
  {
    seq(|ss|, i requires 0 <= i < |ss| => AsSlot(ss[i]))
  }

  const BLANK := seq(QUEUE_SIZE, _ => "")

  function Enqueued(s: Subscriber, line: string): Subscriber
    requires |s.lines| == QUEUE_SIZE
  {
    s.(lines := s.lines[(s.head + s.count) % QUEUE_SIZE := line], count := s.count + 1)
  }

  lemma {:induction false} EnqueueAppends(s: Subscriber, line: string)
    requires WellFormed(s) && s.count < QUEUE_SIZE
    ensures WellFormed(Enqueued(s, line)) && Queue(Enqueued(s, line)) == Queue(s) + [line]
  {
    var t := Enqueued(s, line);
    forall k | 0 <= k < s.count
      ensures Queue(t)[k] == Queue(s)[k]
    {
      assert (s.head + k) % QUEUE_SIZE != (s.head + s.count) % QUEUE_SIZE;
    }
  }

  function Dequeued(s: Subscriber): Subscriber
    requires s.count > 0
  {
    s.(head := (s.head + 1) % QUEUE_SIZE, count := s.count - 1)
  }

  lemma {:induction false} DequeueDropsFirst(s: Subscriber)
    requires WellFormed(s) && s.count > 0
    ensures WellFormed(Dequeued(s)) && Queue(Dequeued(s)) == Queue(s)[1..] && s.lines[s.head] == Queue(s)[0]
  {
    var t := Dequeued(s);
    forall k | 0 <= k < t.count
      ensures Queue(t)[k] == Queue(s)[k + 1]
    {
      assert (t.head + k) % QUEUE_SIZE == (s.head + (k + 1)) % QUEUE_SIZE;
    }
  }

  class Subscribers {
    const slots: array<Subscriber>
    var dropped: nat

    ghost predicate Valid()
      reads this, slots
    {
      && slots.Length == SUBSCRIBERS
      && forall i | 0 <= i < SUBSCRIBERS :: WellFormed(slots[i])
    }

    ghost function View(): (v: seq<Slot>)
      reads this, slots
      requires Valid()
      ensures |v| == SUBSCRIBERS && forall i | 0 <= i < SUBSCRIBERS :: v[i] == AsSlot(slots[i])
    {
      AsSlots(slots[..])
    }

    constructor ()
      ensures Valid() && dropped == 0
      ensures forall i | 0 <= i < SUBSCRIBERS :: View()[i] == Free
    {
      slots := new Subscriber[SUBSCRIBERS](_ => Subscriber(0, 0, 0, BLANK));
      dropped := 0;
    }

    /** subscribers_add */
    method Add(fd: int) returns (result: int)
      requires Valid() && fd > 0
      modifies slots
      ensures Valid()
      ensures Added(old(View()), fd, View(), result)
    {
      var freeSlot := -1;
      var i := 0;
      while i < SUBSCRIBERS
        invariant 0 <= i <= SUBSCRIBERS
        invariant -1 <= freeSlot < i
        invariant forall k | 0 <= k < i :: slots[k].fd != fd
        invariant freeSlot >= 0 ==> slots[freeSlot].fd == 0
        invariant forall k | freeSlot < k < i :: slots[k].fd != 0
      {
        if slots[i].fd == fd {
          assert View()[i] == AsSlot(slots[i]);
          return 0;
        }
        if slots[i].fd == 0 {
          freeSlot := i;
        }
        i := i + 1;
      }
      if freeSlot >= 0 {
        assert IsLastFree(View(), freeSlot);
        slots[freeSlot] := Subscriber(fd, 0, 0, BLANK);
        assert View() == old(View())[freeSlot := Taken(fd, [])];
        return 0;
      }
      return -1;
    }

    /** subscribers_remove */
    method Remove(fd: int)
      requires Valid() && fd > 0
      modifies slots
      ensures Valid()
      ensures View() == Removed(old(View()), fd)
    {
      var i := 0;
      while i < SUBSCRIBERS
        invariant 0 <= i <= SUBSCRIBERS
        invariant Valid()
        invariant forall k | 0 <= k < i :: View()[k] == Removed(old(View()), fd)[k]
        invariant forall k | i <= k < SUBSCRIBERS :: slots[k] == old(slots[k])
      {
        if slots[i].fd == fd {
          slots[i] := slots[i].(fd := 0);
        }
        i := i + 1;
      }
    }

    /** One turn of the loop of subscribers_broadcast. */
    method OfferOne(i: nat, line: string) returns (evicted: bool)
      requires Valid() && i < SUBSCRIBERS
      modifies this`dropped, slots
      ensures Valid()
      ensures slots[..] == old(slots[..])[i := slots[i]]
      ensures AsSlot(slots[i]) == Offered(old(AsSlot(slots[i])), line)
      ensures evicted == Full(old(AsSlot(slots[i])))
      ensures dropped == old(dropped) + if evicted then 1 else 0
    {
      evicted := false;
      if slots[i].fd != 0 {
        if slots[i].count == QUEUE_SIZE {
          evicted := true;
          slots[i] := slots[i].(fd := 0);
          dropped := dropped + 1;
        } else {
          EnqueueAppends(slots[i], line);
          slots[i] := Enqueued(slots[i], line);
        }
      }
    }

    /** The first i slots have been offered the line. */
    ghost predicate Offering(before: seq<Slot>, line: string, i: nat)
      reads this, slots
    {
      && Valid() && |before| == SUBSCRIBERS
      && (forall k | 0 <= k < i && k < SUBSCRIBERS :: AsSlot(slots[k]) == Offered(before[k], line))
      && (forall k | i <= k < SUBSCRIBERS :: AsSlot(slots[k]) == before[k])
    }

    /** Offers the line to slot i; `shut` holds the descriptors shut down so far. */
    method OfferNext(ghost before: seq<Slot>, i: nat, line: string, soFar: set<int>) returns (shut: set<int>)
      requires i < SUBSCRIBERS && Offering(before, line, i) && soFar == EvictedBelow(before, i)
      modifies this`dropped, slots
      ensures Offering(before, line, i + 1) && shut == EvictedBelow(before, i + 1)
      ensures dropped == old(dropped) + |FullBelow(before, i + 1)| - |FullBelow(before, i)|
    {
      FullBelowStep(before, i);
      assert AsSlot(slots[i]) == before[i];
      var fd := slots[i].fd;
      var evicted := OfferOne(i, line);
      shut := soFar + if evicted then {fd} else {};
    }

    lemma {:induction false} AllOffered(before: seq<Slot>, line: string)
      requires Offering(before, line, SUBSCRIBERS)
      ensures View() == SubscriberSpec.Broadcast(before, line)
    {
    }

    /** subscribers_broadcast; returns the descriptors it shut down. */
    method Broadcast(alert: Alert) returns (shut: set<int>)
      requires Valid()
      modifies this`dropped, slots
      ensures Valid()
      ensures View() == SubscriberSpec.Broadcast(old(View()), AlertLine(alert))
      ensures shut == Evicted(old(View()))
      ensures dropped == old(dropped) + FullSlots(old(View()))
    {
      var line := AlertLine(alert);
      ghost var before := View();
      shut := {};
      var i := 0;
      while i < SUBSCRIBERS
        invariant 0 <= i <= SUBSCRIBERS
        invariant Offering(before, line, i)
        invariant shut == EvictedBelow(before, i)
        invariant dropped == old(dropped) + |FullBelow(before, i)|
      {
        shut := OfferNext(before, i, line, shut);
        i := i + 1;
      }
      AllOffered(before, line);
    }

    /** One locked section of subscribers_drain. */
    method PopLine(fd: int) returns (line: Option<string>)
      requires Valid() && fd > 0
      modifies slots
      ensures Valid()
      ensures Popped(old(View()), fd, View(), line)
    {
      var i := 0;
      while i < SUBSCRIBERS
        invariant 0 <= i <= SUBSCRIBERS
        invariant forall k | 0 <= k < i && slots[k].fd == fd :: slots[k].count == 0
      {
        if slots[i].fd == fd && slots[i].count > 0 {
          DequeueDropsFirst(slots[i]);
          line := Some(slots[i].lines[slots[i].head]);
          assert View()[i] == Taken(fd, Queue(slots[i]));
          slots[i] := Dequeued(slots[i]);
          assert View() == old(View())[i := Taken(fd, old(View())[i].queue[1..])];
          return;
        }
        i := i + 1;
      }
      forall k | 0 <= k < SUBSCRIBERS && View()[k].Taken? && View()[k].fd == fd
        ensures View()[k].queue == []
      {
        assert View()[k] == AsSlot(slots[k]);
      }
      line := None;
    }
  }
}
