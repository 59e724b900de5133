/** The subscriber table as a value: what each mutex-protected section of
    server/alert_subscribers.c does to the 32 queues. */
module SubscriberSpec {
  import opened Prelude
  import opened NodeRecord
  import opened Decimal

  const SUBSCRIBERS := 32
  const QUEUE_SIZE := 32

  /** One slot: free, or a descriptor with the lines it has not been sent yet. */
  datatype Slot = Free | Taken(fd: int, queue: seq<string>)

  function AlertLine(alert: Alert): string {
    "ALERT|" + alert.id + "|" + alert.kind + "|" + ValueText(alert.value)
  }

  predicate Holds(slots: seq<Slot>, fd: int) {
    exists i :: 0 <= i < |slots| && slots[i].Taken? && slots[i].fd == fd
  }

  predicate HasRoom(slots: seq<Slot>) {
    exists i :: 0 <= i < |slots| && slots[i].Free?
  }

  ghost predicate IsLastFree(slots: seq<Slot>, i: int) {
    0 <= i < |slots| && slots[i].Free? && forall j | i < j < |slots| :: slots[j].Taken?
  }

  /** subscribers_add: idempotent for a descriptor already present; otherwise the last free
      slot becomes an empty queue. */
  ghost predicate Added(slots: seq<Slot>, fd: int, after: seq<Slot>, result: int) {
    if Holds(slots, fd) then after == slots && result == 0
    else if !HasRoom(slots) then after == slots && result == -1
    else result == 0 && exists i :: IsLastFree(slots, i) && after == slots[i := Taken(fd, [])]
  }

  /** subscribers_remove */
  function Removed(slots: seq<Slot>, fd: int): seq<Slot> {
    seq(|slots|, i requires 0 <= i < |slots| => if slots[i].Taken? && slots[i].fd == fd then Free else slots[i])
  }

  predicate Full(slot: Slot) {
    slot.Taken? && |slot.queue| >= QUEUE_SIZE
  }

  function Offered(slot: Slot, line: string): Slot {
    if slot.Free? || Full(slot) then Free else Taken(slot.fd, slot.queue + [line])
  }

  /** subscribers_broadcast: every queue gets the line, except that a full one is evicted. */
  function Broadcast(slots: seq<Slot>, line: string): seq<Slot> {
    seq(|slots|, i requires 0 <= i < |slots| => Offered(slots[i], line))
  }

  /** The full slots among the first n. */
  ghost function FullBelow(slots: seq<Slot>, n: nat): set<int>
    requires n <= |slots|
  {
    set i | 0 <= i < n && Full(slots[i])
  }

  /** The descriptors a broadcast over the first n slots shuts down. */
  ghost function EvictedBelow(slots: seq<Slot>, n: nat): set<int>
    requires n <= |slots|
  {
    set i | i in FullBelow(slots, n) :: slots[i].fd
  }

  ghost function Evicted(slots: seq<Slot>): set<int> {
    EvictedBelow(slots, |slots|)
  }

  ghost function FullSlots(slots: seq<Slot>): nat {
    |FullBelow(slots, |slots|)|
  }

  lemma {:induction false} FullBelowStep(slots: seq<Slot>, n: nat)
    requires n < |slots|
    ensures |FullBelow(slots, n + 1)| == |FullBelow(slots, n)| + if Full(slots[n]) then 1 else 0
    ensures EvictedBelow(slots, n + 1) == EvictedBelow(slots, n) + if Full(slots[n]) then {slots[n].fd} else {}
  {
    assert FullBelow(slots, n + 1) == FullBelow(slots, n) + if Full(slots[n]) then {n} else {};
  }

  /** One locked section of subscribers_drain: the oldest line of the first slot that has
      this descriptor and something queued. */
  ghost predicate Popped(slots: seq<Slot>, fd: int, after: seq<Slot>, line: Option<string>) {
    match line
    case None =>
      after == slots && forall i | 0 <= i < |slots| && slots[i].Taken? && slots[i].fd == fd :: slots[i].queue == []
    case Some(text) =>
      exists i ::
        && 0 <= i < |slots| && slots[i].Taken? && slots[i].fd == fd && slots[i].queue != []
        && text == slots[i].queue[0]
        && after == slots[i := Taken(fd, slots[i].queue[1..])]
  }
}
