/** Alert fan-out under concurrency: the UDP producer, the accept loop and one thread per
    connection, interleaved in any way at the granularity of their critical sections and
    system calls (server/tcp_command_server.c, server/alert_subscribers.c,
    server/udp_telemetry_server.c). */
module AlertFanout {
  import opened Prelude
  import opened NodeRecord
  import opened SubscriberSpec

  const MAX_CLIENTS := 64

  /** Where serve_client stands. Setup is before the thread starts; Closed is between
      close(fd) and the decrement of `clients`. */
  datatype Pc =
    | Setup
    | Draining(done: nat)
    | Sending(done: nat)
    | Waiting
    | Subscribing
    | Acking(added: bool)
    | Replying(bye: bool)
    | Leaving
    | Removed
    | Closed

  datatype Frame = AlertFrame(line: string) | Subscribed | OtherFrame

  /** A connection and its thread. `start` is the length of the alert history at its last
      effective SUBSCRIBE and `first` at its first one, `got` the alert lines sent since
      `start`, `inFlight` the line popped but not yet sent, `shut` whether the socket was
      shut down, `wire` every frame sent. */
  datatype Thread = Thread(
    fd: int, pc: Pc, first: Option<nat>, start: Option<nat>, got: seq<string>, inFlight: seq<string>,
    shut: bool, wire: seq<Frame>)

  datatype State = State(
    threads: map<nat, Thread>, nextThread: nat, accepted: Option<int>, clients: int,
    slots: seq<Slot>, dropped: nat,
    recorded: seq<Alert>,   // every alert the registry has raised
    pending: seq<Alert>,    // those the producer has still to broadcast
    history: seq<string>)   // the lines broadcast so far

  datatype Event =
    | Accepts(fd: int)
    | Admits
    | SetupFails(t: nat)
    | Starts(t: nat)
    | Pops(t: nat, line: Option<string>, after: seq<Slot>)
    | DrainsAll(t: nat)
    | SendsLine(t: nat, works: bool)
    | FindsNothing(t: nat)
    | ReadsSubscribe(t: nat)
    | ReadsCommand(t: nat, bye: bool)
    | HangsUp(t: nat)
    | Subscribes(t: nat, after: seq<Slot>, result: int)
    | Acks(t: nat, works: bool)
    | Replies(t: nat, works: bool)
    | Removes(t: nat)
    | Closes(t: nat)
    | Exits(t: nat)
    | Records(alerts: seq<Alert>)
    | Broadcasts

  function Frames(lines: seq<string>): seq<Frame> {
    seq(|lines|, i requires 0 <= i < |lines| => AlertFrame(lines[i]))
  }

  lemma {:induction false} OneFrame(lines: seq<string>)
    requires |lines| == 1
    ensures Frames(lines) == [AlertFrame(lines[0])]
  {
  }

  ghost predicate Initial(s: State) {
    && s.threads == map[] && s.accepted == None && s.clients == 0
    && |s.slots| == SUBSCRIBERS && (forall i | 0 <= i < SUBSCRIBERS :: s.slots[i] == Free)
    && s.recorded == [] && s.pending == [] && s.history == []
  }

  /** The descriptor is open in the kernel. */
  predicate IsOpen(th: Thread) {
    !th.pc.Closed?
  }

  /** The thread may be in the subscriber table. */
  predicate InService(th: Thread) {
    !th.pc.Setup? && !th.pc.Removed? && !th.pc.Closed?
  }

  predicate FdOpen(s: State, fd: int) {
    s.accepted == Some(fd) || exists t :: t in s.threads && IsOpen(s.threads[t]) && s.threads[t].fd == fd
  }

  predicate At(s: State, t: nat, pc: Pc) {
    t in s.threads && s.threads[t].pc == pc
  }

  ghost predicate Enabled(s: State, ev: Event) {
    match ev
    case Accepts(fd) => s.accepted == None && fd > 0 && !FdOpen(s, fd)
    case Admits => s.accepted.Some?
    case SetupFails(t) => At(s, t, Setup)
    case Starts(t) => At(s, t, Setup)
    case Pops(t, line, after) =>
      t in s.threads && s.threads[t].pc.Draining? && s.threads[t].pc.done < QUEUE_SIZE &&
      Popped(s.slots, s.threads[t].fd, after, line)
    case DrainsAll(t) => At(s, t, Draining(QUEUE_SIZE))
    case SendsLine(t, works) => t in s.threads && s.threads[t].pc.Sending? && (works ==> !s.threads[t].shut)
    case FindsNothing(t) => At(s, t, Waiting)
    case ReadsSubscribe(t) => At(s, t, Waiting)
    case ReadsCommand(t, bye) => At(s, t, Waiting)
    case HangsUp(t) => At(s, t, Waiting)
    case Subscribes(t, after, result) => At(s, t, Subscribing) && Added(s.slots, s.threads[t].fd, after, result)
    case Acks(t, works) => t in s.threads && s.threads[t].pc.Acking? && (works ==> !s.threads[t].shut)
    case Replies(t, works) => t in s.threads && s.threads[t].pc.Replying? && (works ==> !s.threads[t].shut)
    case Removes(t) => At(s, t, Leaving)
    case Closes(t) => At(s, t, Removed)
    case Exits(t) => At(s, t, Closed)
    case Records(alerts) => s.pending == []
    case Broadcasts => s.pending != []
  }

  function Move(s: State, t: nat, pc: Pc): State
    requires t in s.threads
  {
    s.(threads := s.threads[t := s.threads[t].(pc := pc)])
  }

  function Put(s: State, t: nat, th: Thread): State {
    s.(threads := s.threads[t := th])
  }

  /** shutdown(2) on a set of descriptors hits whichever connections have them open. */
  function ShutDown(threads: map<nat, Thread>, fds: set<int>): map<nat, Thread> {
    map t | t in threads :: if IsOpen(threads[t]) && threads[t].fd in fds then threads[t].(shut := true) else threads[t]
  }

  /** An effective SUBSCRIBE: the thread is to be given the alerts broadcast from now on. */
  function FromNow(s: State, th: Thread): Thread {
    var now := Some(|s.history|);
    th.(first := if th.first.None? then now else th.first, start := now, got := [], inFlight := [])
  }

  ghost function Next(s: State, ev: Event): State
    requires Enabled(s, ev)
  {
    match ev
    case Accepts(fd) => s.(accepted := Some(fd))
    case Admits =>
      if s.clients >= MAX_CLIENTS then s.(accepted := None)
      else s.(accepted := None, clients := s.clients + 1, nextThread := s.nextThread + 1,
              threads := s.threads[s.nextThread := Thread(s.accepted.value, Setup, None, None, [], [], false, [])])
    case SetupFails(t) => Move(s, t, Closed)
    case Starts(t) => Move(s, t, Draining(0))
    case Pops(t, line, after) =>
      var th := s.threads[t];
      if line.None? then Move(s, t, Waiting)
      else Put(s, t, th.(pc := Sending(th.pc.done), inFlight := [line.value])).(slots := after)
    case DrainsAll(t) => Move(s, t, Waiting)
    case SendsLine(t, works) =>
      var th := s.threads[t];
      if works
      then Put(s, t, th.(pc := Draining(th.pc.done + 1), got := th.got + th.inFlight, inFlight := [],
                         wire := th.wire + Frames(th.inFlight)))
      else Put(s, t, th.(pc := Leaving, shut := true))
    case FindsNothing(t) => Move(s, t, Draining(0))
    case ReadsSubscribe(t) => Move(s, t, Subscribing)
    case ReadsCommand(t, bye) => Move(s, t, Replying(bye))
    case HangsUp(t) => Move(s, t, Leaving)
    case Subscribes(t, after, result) =>
      var th := s.threads[t].(pc := Acking(result == 0));
      if after == s.slots then Put(s, t, th)
      else Put(s, t, FromNow(s, th)).(slots := after)
    case Acks(t, works) =>
      var th := s.threads[t];
      var frame := if th.pc.added then Subscribed else OtherFrame;
      Put(s, t, th.(pc := Draining(0), shut := th.shut || !works, wire := if works then th.wire + [frame] else th.wire))
    case Replies(t, works) =>
      var th := s.threads[t];
      Put(s, t, th.(pc := if th.pc.bye then Leaving else Draining(0), shut := th.shut || !works,
                    wire := if works then th.wire + [OtherFrame] else th.wire))
    case Removes(t) => Move(s, t, Removed).(slots := SubscriberSpec.Removed(s.slots, s.threads[t].fd))
    case Closes(t) => Move(s, t, Closed)
    case Exits(t) => s.(threads := map x | x in s.threads && x != t :: s.threads[x], clients := s.clients - 1)
    case Records(alerts) => s.(recorded := s.recorded + alerts, pending := alerts)
    case Broadcasts =>
      var line := AlertLine(s.pending[0]);
      s.(slots := SubscriberSpec.Broadcast(s.slots, line), history := s.history + [line], pending := s.pending[1..],
         dropped := s.dropped + FullSlots(s.slots), threads := ShutDown(s.threads, Evicted(s.slots)))
  }

  ghost predicate Behaviour(trace: seq<State>, events: seq<Event>) {
    && |trace| == |events| + 1
    && Initial(trace[0])
    && forall i | 0 <= i < |events| :: Enabled(trace[i], events[i]) && trace[i + 1] == Next(trace[i], events[i])
  }

  // The invariant

  ghost predicate FdsInv(s: State) {
    && |s.slots| == SUBSCRIBERS
    && (forall t | t in s.threads :: t < s.nextThread && s.threads[t].fd > 0)
    && (s.accepted.Some? ==> s.accepted.value > 0)
    && (forall t | t in s.threads && IsOpen(s.threads[t]) :: s.accepted != Some(s.threads[t].fd))
    && (forall t, u | t in s.threads && u in s.threads && t != u && IsOpen(s.threads[t]) && IsOpen(s.threads[u]) ::
          s.threads[t].fd != s.threads[u].fd)
  }

  ghost predicate ClientsInv(s: State) {
    s.clients == |s.threads| <= MAX_CLIENTS
  }

  /** Each taken slot belongs to the connection that has its descriptor open, which is
      still in service and subscribed itself. */
  ghost predicate OwnedBy(s: State, slot: Slot, t: nat) {
    slot.Taken? && t in s.threads && InService(s.threads[t]) && s.threads[t].fd == slot.fd && s.threads[t].start.Some?
  }

  ghost predicate SlotsInv(s: State) {
    && (forall i | 0 <= i < |s.slots| && s.slots[i].Taken? :: exists t :: OwnedBy(s, s.slots[i], t))
    && (forall i, j | 0 <= i < j < |s.slots| && s.slots[i].Taken? && s.slots[j].Taken? ::
          s.slots[i].fd != s.slots[j].fd)
  }

  /** What a thread has been given since it subscribed. */
  function Delivered(th: Thread): seq<string> {
    th.got + th.inFlight
  }

  /** The alert lines broadcast since the thread subscribed. */
  function Since(s: State, th: Thread): seq<string>
    requires th.start.Some? && th.start.value <= |s.history|
  {
    s.history[th.start.value..]
  }

  ghost predicate GivenInv(s: State) {
    forall t | t in s.threads && s.threads[t].start.Some? ::
      s.threads[t].start.value <= |s.history| && Delivered(s.threads[t]) <= Since(s, s.threads[t])
  }

  ghost predicate QueueInv(s: State) {
    && GivenInv(s)
    && (forall t, i | t in s.threads && 0 <= i < |s.slots| && OwnedBy(s, s.slots[i], t) ::
          Delivered(s.threads[t]) + s.slots[i].queue == Since(s, s.threads[t]))
    && (forall t | t in s.threads && InService(s.threads[t]) && s.threads[t].start.Some? && !s.threads[t].shut ::
          Holds(s.slots, s.threads[t].fd))
  }

  ghost predicate PcInv(th: Thread) {
    && (th.pc.Setup? ==> th.start == None && th.inFlight == [])
    && (th.pc.Sending? ==> |th.inFlight| == 1 && th.start.Some?)
    && (InService(th) && !th.pc.Sending? && !th.pc.Leaving? ==> th.inFlight == [])
    && (th.pc == Acking(false) && th.start.Some? ==> th.shut)
  }

  function AlertLines(wire: seq<Frame>): seq<string> {
    if wire == [] then []
    else
      var f := wire[|wire| - 1];
      AlertLines(wire[..|wire| - 1]) + if f.AlertFrame? then [f.line] else []
  }

  ghost predicate Segment(lines: seq<string>, history: seq<string>) {
    exists i, j :: 0 <= i <= j <= |history| && lines == history[i..j]
  }

  /** No alert is on the wire before this connection's own OK|SUBSCRIBED. */
  ghost predicate AlertsFollowAck(wire: seq<Frame>) {
    forall i | 0 <= i < |wire| && wire[i].AlertFrame? :: Subscribed in wire[..i]
  }

  ghost predicate WireInv(th: Thread, history: seq<string>) {
    && (th.start.None? <==> th.first.None?)
    && (th.start.None? ==> AlertLines(th.wire) == [])
    && (th.start.Some? && !th.shut ==> AlertLines(th.wire) == th.got && th.first == th.start)
    && (th.first.Some? ==> th.first.value <= |history| && AlertLines(th.wire) <= history[th.first.value..])
    && (th.start.Some? && !th.shut && !th.pc.Acking? ==> Subscribed in th.wire)
    && AlertsFollowAck(th.wire)
  }

  ghost predicate ThreadsInv(s: State) {
    forall t | t in s.threads :: PcInv(s.threads[t]) && WireInv(s.threads[t], s.history)
  }

  function Lines(alerts: seq<Alert>): seq<string> {
    seq(|alerts|, i requires 0 <= i < |alerts| => AlertLine(alerts[i]))
  }

  ghost predicate ProducerInv(s: State) {
    Lines(s.recorded) == s.history + Lines(s.pending)
  }

  ghost predicate Inv(s: State) {
    FdsInv(s) && ClientsInv(s) && SlotsInv(s) && QueueInv(s) && ThreadsInv(s) && ProducerInv(s)
  }

  // Steps that leave the table alone

  /** A thread update that neither changes what was delivered nor leaves the table. */
  ghost predicate Harmless(th: Thread, after: Thread) {
    && after.fd == th.fd && after.start == th.start && Delivered(after) == Delivered(th)
    && (th.shut ==> after.shut)
    && (IsOpen(after) ==> IsOpen(th))
    && (InService(th) ==> InService(after))
    && (InService(after) ==> InService(th) || th.start == None)
  }

  lemma {:induction false} HarmlessKeepsFds(s: State, t: nat, after: Thread)
    requires FdsInv(s) && ClientsInv(s) && t in s.threads && Harmless(s.threads[t], after)
    ensures FdsInv(Put(s, t, after)) && ClientsInv(Put(s, t, after))
  {
    assert Put(s, t, after).threads.Keys == s.threads.Keys;
  }

  lemma {:induction false} HarmlessKeepsOwners(s: State, t: nat, after: Thread, slot: Slot, u: nat)
    requires t in s.threads && Harmless(s.threads[t], after)
    ensures OwnedBy(s, slot, u) ==> OwnedBy(Put(s, t, after), slot, u)
    ensures s.threads[t].start.Some? && OwnedBy(Put(s, t, after), slot, u) ==> OwnedBy(s, slot, u)
    ensures s.threads[t].start.None? && OwnedBy(Put(s, t, after), slot, u) ==> u != t && OwnedBy(s, slot, u)
  {
  }

  lemma {:induction false} HarmlessKeepsSlots(s: State, t: nat, after: Thread)
    requires SlotsInv(s) && t in s.threads && Harmless(s.threads[t], after)
    ensures SlotsInv(Put(s, t, after))
  {
    var r := Put(s, t, after);
    forall i | 0 <= i < |s.slots| && s.slots[i].Taken?
      ensures exists u :: OwnedBy(r, r.slots[i], u)
    {
      var u :| OwnedBy(s, s.slots[i], u);
      HarmlessKeepsOwners(s, t, after, s.slots[i], u);
    }
  }

  lemma {:induction false} HarmlessKeepsQueues(s: State, t: nat, after: Thread)
    requires QueueInv(s) && t in s.threads && Harmless(s.threads[t], after)
    ensures QueueInv(Put(s, t, after))
  {
    var r := Put(s, t, after);
    forall u, i | u in r.threads && 0 <= i < |r.slots| && OwnedBy(r, r.slots[i], u)
      ensures Delivered(r.threads[u]) + r.slots[i].queue == Since(r, r.threads[u])
    {
      HarmlessKeepsOwners(s, t, after, r.slots[i], u);
    }
  }

  lemma {:induction false} AlertLinesSnoc(wire: seq<Frame>, f: Frame)
    ensures AlertLines(wire + [f]) == AlertLines(wire) + if f.AlertFrame? then [f.line] else []
  {
    SnocInit(wire, f);
  }

  lemma {:induction false} AckSnoc(wire: seq<Frame>, f: Frame)
    requires AlertsFollowAck(wire) && (f.AlertFrame? ==> Subscribed in wire)
    ensures AlertsFollowAck(wire + [f])
    ensures Subscribed in wire + [f] <==> Subscribed in wire || f == Subscribed
  {
    var after := wire + [f];
    forall i | 0 <= i < |after| && after[i].AlertFrame?
      ensures Subscribed in after[..i]
    {
      if i < |wire| {
        assert after[..i] == wire[..i];
      } else {
        assert after[..i] == wire;
      }
    }
  }

  lemma {:induction false} HarmlessKeepsInv(s: State, t: nat, after: Thread)
    requires Inv(s) && t in s.threads && Harmless(s.threads[t], after)
    requires PcInv(after) && WireInv(after, s.history)
    ensures Inv(Put(s, t, after))
  {
    HarmlessKeepsFds(s, t, after);
    HarmlessKeepsSlots(s, t, after);
    HarmlessKeepsQueues(s, t, after);
  }

  lemma {:induction false} MoveKeepsInv(s: State, t: nat, pc: Pc)
    requires Inv(s) && t in s.threads && !s.threads[t].pc.Acking? && !s.threads[t].pc.Sending? && !pc.Sending?
    requires Harmless(s.threads[t], s.threads[t].(pc := pc))
    requires s.threads[t].pc.Leaving? ==> pc.Leaving?
    requires pc.Setup? ==> s.threads[t].pc.Setup?
    requires pc != Acking(false)
    requires InService(s.threads[t]) || !InService(s.threads[t].(pc := pc)) || s.threads[t].inFlight == []
    ensures Inv(Move(s, t, pc))
  {
    var th := s.threads[t];
    assert PcInv(th) && WireInv(th, s.history);
    HarmlessKeepsInv(s, t, th.(pc := pc));
  }

  /** A thread goes on without touching the table, the wire or what it was given. */
  predicate IsPlainMove(ev: Event) {
    ev.SetupFails? || ev.Starts? || ev.DrainsAll? || ev.FindsNothing? || ev.ReadsSubscribe? ||
    ev.ReadsCommand? || ev.HangsUp? || ev.Closes? || (ev.Pops? && ev.line.None?)
  }

  lemma {:induction false} PlainMovesKeepInv(s: State, ev: Event)
    requires Inv(s) && Enabled(s, ev) && IsPlainMove(ev)
    ensures Inv(Next(s, ev))
  {
    if ev.SetupFails? || ev.Starts? || ev.DrainsAll? || ev.Closes? || ev.Pops? {
      match ev
      case SetupFails(t) => MoveKeepsInv(s, t, Closed);
      case Starts(t) => MoveKeepsInv(s, t, Draining(0));
      case DrainsAll(t) => MoveKeepsInv(s, t, Waiting);
      case Closes(t) => MoveKeepsInv(s, t, Closed);
      case Pops(t, _, _) => MoveKeepsInv(s, t, Waiting);
    } else {
      ReadsKeepInv(s, ev);
    }
  }

  /** What a waiting thread does next. */
  lemma {:induction false} ReadsKeepInv(s: State, ev: Event)
    requires Inv(s) && Enabled(s, ev)
    requires ev.FindsNothing? || ev.ReadsSubscribe? || ev.ReadsCommand? || ev.HangsUp?
    ensures Inv(Next(s, ev))
  {
    match ev
    case FindsNothing(t) => MoveKeepsInv(s, t, Draining(0));
    case ReadsSubscribe(t) => MoveKeepsInv(s, t, Subscribing);
    case ReadsCommand(t, bye) => MoveKeepsInv(s, t, Replying(bye));
    case HangsUp(t) => MoveKeepsInv(s, t, Leaving);
  }

  /** Sending the line in flight keeps what is on the wire a prefix of the history since
      the subscription. */
  lemma {:induction false} SentLineKeepsWire(s: State, th: Thread, after: Thread)
    requires PcInv(th) && WireInv(th, s.history) && th.pc.Sending? && !th.shut
    requires th.start.value <= |s.history| && Delivered(th) <= Since(s, th)
    requires after == th.(pc := Draining(th.pc.done + 1), got := th.got + th.inFlight, inFlight := [],
                          wire := th.wire + [AlertFrame(th.inFlight[0])])
    ensures PcInv(after) && WireInv(after, s.history) && Delivered(after) == Delivered(th)
  {
    var frame := AlertFrame(th.inFlight[0]);
    AlertLinesSnoc(th.wire, frame);
    AckSnoc(th.wire, frame);
    assert th.inFlight == [frame.line];
    assert AlertLines(after.wire) == Delivered(th);
    assert after.got == Delivered(th) && Delivered(after) == after.got;
  }

  function SentLine(th: Thread): Thread
    requires th.pc.Sending? && |th.inFlight| == 1
  {
    th.(pc := Draining(th.pc.done + 1), got := th.got + th.inFlight, inFlight := [],
        wire := th.wire + [AlertFrame(th.inFlight[0])])
  }

  lemma {:induction false} SendsLineIsPut(s: State, ev: Event)
    requires Enabled(s, ev) && ev.SendsLine? && ev.works && |s.threads[ev.t].inFlight| == 1
    ensures Next(s, ev) == Put(s, ev.t, SentLine(s.threads[ev.t]))
  {
    OneFrame(s.threads[ev.t].inFlight);
  }

  lemma {:induction false} SendsLineKeepsInv(s: State, ev: Event)
    requires Inv(s) && Enabled(s, ev) && ev.SendsLine?
    ensures Inv(Next(s, ev))
  {
    var th := s.threads[ev.t];
    assert PcInv(th) && WireInv(th, s.history);
    if ev.works {
      SendsLineIsPut(s, ev);
      SentLineKeepsWire(s, th, SentLine(th));
      HarmlessKeepsInv(s, ev.t, SentLine(th));
    } else {
      HarmlessKeepsInv(s, ev.t, th.(pc := Leaving, shut := true));
    }
  }

  /** Sending a frame that is no alert. */
  lemma {:induction false} OtherFrameKeepsWire(th: Thread, after: Thread, frame: Frame, history: seq<string>)
    requires PcInv(th) && WireInv(th, history) && (th.pc.Acking? || th.pc.Replying?) && !frame.AlertFrame?
    requires th.pc == Acking(true) ==> frame == Subscribed
    requires after == th.(pc := after.pc, wire := th.wire + [frame])
    requires after.pc == Draining(0) || after.pc == Leaving
    ensures PcInv(after) && WireInv(after, history)
  {
    AlertLinesSnoc(th.wire, frame);
    AckSnoc(th.wire, frame);
    assert AlertLines(after.wire) == AlertLines(th.wire);
  }

  lemma {:induction false} RepliesKeepInv(s: State, ev: Event)
    requires Inv(s) && Enabled(s, ev) && (ev.Acks? || ev.Replies?)
    ensures Inv(Next(s, ev))
  {
    var th := s.threads[ev.t];
    assert PcInv(th) && WireInv(th, s.history);
    var pc := if ev.Replies? && th.pc.bye then Leaving else Draining(0);
    if ev.works {
      var frame := if ev.Acks? && th.pc.added then Subscribed else OtherFrame;
      var after := th.(pc := pc, wire := th.wire + [frame]);
      OtherFrameKeepsWire(th, after, frame, s.history);
      HarmlessKeepsInv(s, ev.t, after);
    } else {
      HarmlessKeepsInv(s, ev.t, th.(pc := pc, shut := true));
    }
  }

  // Steps on the table

  lemma {:induction false} OwnersAreUnique(s: State, slot: Slot, t: nat, u: nat)
    requires FdsInv(s) && OwnedBy(s, slot, t) && OwnedBy(s, slot, u)
    ensures t == u
  {
  }

  /** Whoever has this descriptor open in service owns the slot that holds it. */
  lemma {:induction false} SlotOfThread(s: State, t: nat, i: nat)
    requires FdsInv(s) && SlotsInv(s) && t in s.threads && InService(s.threads[t])
    requires i < |s.slots| && s.slots[i].Taken? && s.slots[i].fd == s.threads[t].fd
    ensures OwnedBy(s, s.slots[i], t)
  {
    var u :| OwnedBy(s, s.slots[i], u);
    assert u == t;
  }

  function SetSlot(s: State, t: nat, after: Thread, i: nat, slot: Slot): State
    requires i < |s.slots|
  {
    s.(threads := s.threads[t := after], slots := s.slots[i := slot])
  }

  /** Changing one owner and its slot together, keeping the descriptor. */
  ghost predicate Exchange(s: State, t: nat, after: Thread, i: nat, slot: Slot) {
    && i < |s.slots| && OwnedBy(s, s.slots[i], t)
    && slot.Taken? && slot.fd == s.slots[i].fd
    && after.fd == s.threads[t].fd && after.start == s.threads[t].start && after.shut == s.threads[t].shut
    && InService(after)
  }

  lemma {:induction false} ExchangeOwners(s: State, t: nat, after: Thread, i: nat, slot: Slot, j: nat, u: nat)
    requires Exchange(s, t, after, i, slot) && j < |s.slots|
    ensures var r := SetSlot(s, t, after, i, slot); OwnedBy(r, r.slots[j], u) <==> OwnedBy(s, s.slots[j], u)
  {
  }

  lemma {:induction false} ExchangeKeepsFds(s: State, t: nat, after: Thread, i: nat, slot: Slot)
    requires FdsInv(s) && ClientsInv(s) && Exchange(s, t, after, i, slot)
    ensures var r := SetSlot(s, t, after, i, slot); FdsInv(r) && ClientsInv(r)
  {
    assert SetSlot(s, t, after, i, slot).threads.Keys == s.threads.Keys;
  }

  lemma {:induction false} ExchangeKeepsSlots(s: State, t: nat, after: Thread, i: nat, slot: Slot)
    requires SlotsInv(s) && Exchange(s, t, after, i, slot)
    ensures SlotsInv(SetSlot(s, t, after, i, slot))
  {
    var r := SetSlot(s, t, after, i, slot);
    forall j | 0 <= j < |r.slots| && r.slots[j].Taken?
      ensures exists u :: OwnedBy(r, r.slots[j], u)
    {
      var u :| OwnedBy(s, s.slots[j], u);
      ExchangeOwners(s, t, after, i, slot, j, u);
    }
  }

  lemma {:induction false} ExchangedQueue(s: State, t: nat, after: Thread, i: nat, slot: Slot, j: nat, u: nat)
    requires FdsInv(s) && SlotsInv(s) && QueueInv(s) && Exchange(s, t, after, i, slot)
    requires Delivered(after) + slot.queue == Since(s, after)
    requires var r := SetSlot(s, t, after, i, slot); u in r.threads && j < |r.slots| && OwnedBy(r, r.slots[j], u)
    ensures var r := SetSlot(s, t, after, i, slot); Delivered(r.threads[u]) + r.slots[j].queue == Since(r, r.threads[u])
  {
    ExchangeOwners(s, t, after, i, slot, j, u);
    if j == i {
      OwnersAreUnique(s, s.slots[i], t, u);
    }
  }

  lemma {:induction false} ExchangeKeepsQueues(s: State, t: nat, after: Thread, i: nat, slot: Slot)
    requires FdsInv(s) && SlotsInv(s) && QueueInv(s) && Exchange(s, t, after, i, slot)
    requires Delivered(after) + slot.queue == Since(s, after)
    ensures QueueInv(SetSlot(s, t, after, i, slot))
  {
    var r := SetSlot(s, t, after, i, slot);
    ExchangeKeepsGiven(s, t, after, i, slot);
    forall u, j | u in r.threads && 0 <= j < |r.slots| && OwnedBy(r, r.slots[j], u)
      ensures Delivered(r.threads[u]) + r.slots[j].queue == Since(r, r.threads[u])
    {
      ExchangedQueue(s, t, after, i, slot, j, u);
    }
    forall u | u in r.threads && InService(r.threads[u]) && r.threads[u].start.Some? && !r.threads[u].shut
      ensures Holds(r.slots, r.threads[u].fd)
    {
      StillHeld(s.slots, i, slot, s.threads[u].fd);
    }
  }

  lemma {:induction false} StillHeld(slots: seq<Slot>, i: nat, slot: Slot, fd: int)
    requires i < |slots| && slots[i].Taken? && slot.Taken? && slot.fd == slots[i].fd && Holds(slots, fd)
    ensures Holds(slots[i := slot], fd)
  {
    var j :| 0 <= j < |slots| && slots[j].Taken? && slots[j].fd == fd;
    assert slots[i := slot][j].Taken? && slots[i := slot][j].fd == fd;
  }

  lemma {:induction false} ExchangeKeepsGiven(s: State, t: nat, after: Thread, i: nat, slot: Slot)
    requires QueueInv(s) && Exchange(s, t, after, i, slot) && Delivered(after) + slot.queue == Since(s, after)
    ensures GivenInv(SetSlot(s, t, after, i, slot))
  {
  }

  lemma {:induction false} PopMovesOneLine(s: State, t: nat, i: nat, after: Thread)
    requires QueueInv(s) && i < |s.slots| && OwnedBy(s, s.slots[i], t) && s.slots[i].queue != []
    requires s.threads[t].inFlight == []
    requires after == s.threads[t].(pc := after.pc, inFlight := [s.slots[i].queue[0]])
    ensures Delivered(after) + s.slots[i].queue[1..] == Since(s, s.threads[t])
  {
    var th, q := s.threads[t], s.slots[i].queue;
    assert Delivered(th) + q == Since(s, th);
    assert q == [q[0]] + q[1..];
    assert Delivered(after) == Delivered(th) + [q[0]];
  }

  lemma {:induction false} ExchangeKeepsInv(s: State, t: nat, after: Thread, i: nat, slot: Slot)
    requires Inv(s) && Exchange(s, t, after, i, slot)
    requires Delivered(after) + slot.queue == Since(s, after)
    requires PcInv(after) && WireInv(after, s.history)
    ensures Inv(SetSlot(s, t, after, i, slot))
  {
    ExchangeKeepsFds(s, t, after, i, slot);
    ExchangeKeepsSlots(s, t, after, i, slot);
    ExchangeKeepsQueues(s, t, after, i, slot);
  }

  function Popping(th: Thread, line: string): Thread
    requires th.pc.Draining?
  {
    th.(pc := Sending(th.pc.done), inFlight := [line])
  }

  lemma {:induction false} PopKeepsInv(s: State, t: nat, i: nat)
    requires Inv(s) && t in s.threads && s.threads[t].pc.Draining?
    requires i < |s.slots| && s.slots[i].Taken? && s.slots[i].fd == s.threads[t].fd && s.slots[i].queue != []
    ensures var slot := Taken(s.threads[t].fd, s.slots[i].queue[1..]);
            Inv(SetSlot(s, t, Popping(s.threads[t], s.slots[i].queue[0]), i, slot))
  {
    var th := s.threads[t];
    var after := Popping(th, s.slots[i].queue[0]);
    assert PcInv(th) && WireInv(th, s.history);
    SlotOfThread(s, t, i);
    PopMovesOneLine(s, t, i, after);
    ExchangeKeepsInv(s, t, after, i, Taken(th.fd, s.slots[i].queue[1..]));
  }

  lemma {:induction false} PopsKeepsInv(s: State, ev: Event)
    requires Inv(s) && Enabled(s, ev) && ev.Pops? && ev.line.Some?
    ensures Inv(Next(s, ev))
  {
    var t, th := ev.t, s.threads[ev.t];
    var i := PoppedSlot(s.slots, th.fd, ev.after, ev.line.value);
    PopKeepsInv(s, t, i);
    assert Next(s, ev) == SetSlot(s, t, Popping(th, ev.line.value), i, Taken(th.fd, s.slots[i].queue[1..]));
  }

  lemma {:induction false} PoppedSlot(slots: seq<Slot>, fd: int, after: seq<Slot>, line: string) returns (i: nat)
    requires Popped(slots, fd, after, Some(line))
    ensures i < |slots| && slots[i].Taken? && slots[i].fd == fd && slots[i].queue != []
    ensures line == slots[i].queue[0] && after == slots[i := Taken(fd, slots[i].queue[1..])]
  {
    i :| 0 <= i < |slots| && slots[i].Taken? && slots[i].fd == fd && slots[i].queue != [] &&
         line == slots[i].queue[0] && after == slots[i := Taken(fd, slots[i].queue[1..])];
  }

  // SUBSCRIBE and removal

  function Joining(s: State, th: Thread): Thread {
    FromNow(s, th.(pc := Acking(true)))
  }

  ghost predicate CanJoin(s: State, t: nat, i: nat) {
    && t in s.threads && s.threads[t].pc == Subscribing && !Holds(s.slots, s.threads[t].fd)
    && i < |s.slots| && s.slots[i].Free?
  }

  function Joined(s: State, t: nat, i: nat): State
    requires t in s.threads && i < |s.slots|
  {
    SetSlot(s, t, Joining(s, s.threads[t]), i, Taken(s.threads[t].fd, []))
  }

  lemma {:induction false} JoinOwners(s: State, t: nat, i: nat, j: nat, u: nat)
    requires FdsInv(s) && CanJoin(s, t, i) && j < |s.slots|
    ensures var r := Joined(s, t, i);
            OwnedBy(r, r.slots[j], u) <==> if j == i then u == t else OwnedBy(s, s.slots[j], u)
  {
    if j != i && s.slots[j].Taken? {
      assert s.slots[j].fd != s.threads[t].fd;
    }
  }

  lemma {:induction false} JoinKeepsFds(s: State, t: nat, i: nat)
    requires FdsInv(s) && ClientsInv(s) && CanJoin(s, t, i)
    ensures var r := Joined(s, t, i); FdsInv(r) && ClientsInv(r)
  {
    assert Joined(s, t, i).threads.Keys == s.threads.Keys;
  }

  lemma {:induction false} JoinKeepsSlots(s: State, t: nat, i: nat)
    requires FdsInv(s) && SlotsInv(s) && CanJoin(s, t, i)
    ensures SlotsInv(Joined(s, t, i))
  {
    var r := Joined(s, t, i);
    forall j | 0 <= j < |r.slots| && r.slots[j].Taken?
      ensures exists u :: OwnedBy(r, r.slots[j], u)
    {
      if j == i {
        JoinOwners(s, t, i, j, t);
      } else {
        var u :| OwnedBy(s, s.slots[j], u);
        JoinOwners(s, t, i, j, u);
      }
    }
  }

  lemma {:induction false} JoinKeepsQueues(s: State, t: nat, i: nat)
    requires FdsInv(s) && QueueInv(s) && CanJoin(s, t, i)
    ensures QueueInv(Joined(s, t, i))
  {
    var r := Joined(s, t, i);
    forall u, j | u in r.threads && 0 <= j < |r.slots| && OwnedBy(r, r.slots[j], u)
      ensures Delivered(r.threads[u]) + r.slots[j].queue == Since(r, r.threads[u])
    {
      JoinOwners(s, t, i, j, u);
    }
    forall u | u in r.threads && InService(r.threads[u]) && r.threads[u].start.Some? && !r.threads[u].shut
      ensures Holds(r.slots, r.threads[u].fd)
    {
      if u == t {
        assert r.slots[i].Taken? && r.slots[i].fd == r.threads[u].fd;
      } else {
        var j :| 0 <= j < |s.slots| && s.slots[j].Taken? && s.slots[j].fd == s.threads[u].fd;
        assert r.slots[j] == s.slots[j];
      }
    }
  }

  lemma {:induction false} JoinKeepsInv(s: State, t: nat, i: nat)
    requires Inv(s) && CanJoin(s, t, i)
    ensures Inv(Joined(s, t, i))
  {
    var th := s.threads[t];
    assert PcInv(th) && WireInv(th, s.history);
    assert InService(th) && th.start.Some? ==> th.shut;
    assert PcInv(Joining(s, th)) && WireInv(Joining(s, th), s.history);
    JoinKeepsFds(s, t, i);
    JoinKeepsSlots(s, t, i);
    JoinKeepsQueues(s, t, i);
  }

  lemma {:induction false} SubscribesKeepsInv(s: State, ev: Event)
    requires Inv(s) && Enabled(s, ev) && ev.Subscribes?
    ensures Inv(Next(s, ev))
  {
    var t, th := ev.t, s.threads[ev.t];
    if ev.after == s.slots {
      assert PcInv(th) && WireInv(th, s.history);
      HarmlessKeepsInv(s, t, th.(pc := Acking(ev.result == 0)));
    } else {
      var i :| IsLastFree(s.slots, i) && ev.after == s.slots[i := Taken(th.fd, [])];
      JoinKeepsInv(s, t, i);
      assert Next(s, ev) == Joined(s, t, i);
    }
  }

  function Left(s: State, t: nat): State
    requires t in s.threads
  {
    Move(s, t, Removed).(slots := SubscriberSpec.Removed(s.slots, s.threads[t].fd))
  }

  lemma {:induction false} LeaveOwners(s: State, t: nat, j: nat, u: nat)
    requires FdsInv(s) && At(s, t, Leaving) && j < |s.slots|
    ensures OwnedBy(Left(s, t), Left(s, t).slots[j], u) <==> u != t && OwnedBy(s, s.slots[j], u)
  {
  }

  lemma {:induction false} LeaveKeepsFds(s: State, t: nat)
    requires FdsInv(s) && ClientsInv(s) && At(s, t, Leaving)
    ensures var r := Left(s, t); FdsInv(r) && ClientsInv(r)
  {
    assert Left(s, t).threads.Keys == s.threads.Keys;
  }

  lemma {:induction false} LeaveKeepsSlots(s: State, t: nat)
    requires FdsInv(s) && SlotsInv(s) && At(s, t, Leaving)
    ensures SlotsInv(Left(s, t))
  {
    var r := Left(s, t);
    forall j | 0 <= j < |r.slots| && r.slots[j].Taken?
      ensures exists u :: OwnedBy(r, r.slots[j], u)
    {
      var u :| OwnedBy(s, s.slots[j], u);
      LeaveOwners(s, t, j, u);
    }
  }

  lemma {:induction false} LeaveKeepsQueues(s: State, t: nat)
    requires FdsInv(s) && QueueInv(s) && At(s, t, Leaving)
    ensures QueueInv(Left(s, t))
  {
    var r := Left(s, t);
    forall u, j | u in r.threads && 0 <= j < |r.slots| && OwnedBy(r, r.slots[j], u)
      ensures Delivered(r.threads[u]) + r.slots[j].queue == Since(r, r.threads[u])
    {
      LeaveOwners(s, t, j, u);
      assert r.slots[j] == s.slots[j];
    }
    forall u | u in r.threads && InService(r.threads[u]) && r.threads[u].start.Some? && !r.threads[u].shut
      ensures Holds(r.slots, r.threads[u].fd)
    {
      var j :| 0 <= j < |s.slots| && s.slots[j].Taken? && s.slots[j].fd == s.threads[u].fd;
      assert r.slots[j] == s.slots[j];
    }
  }

  lemma {:induction false} LeaveKeepsInv(s: State, t: nat)
    requires Inv(s) && At(s, t, Leaving)
    ensures Inv(Left(s, t))
  {
    var th := s.threads[t];
    assert PcInv(th) && WireInv(th, s.history);
    assert PcInv(th.(pc := Removed)) && WireInv(th.(pc := Removed), s.history);
    LeaveKeepsFds(s, t);
    LeaveKeepsSlots(s, t);
    LeaveKeepsQueues(s, t);
  }

  lemma {:induction false} RemovesKeepsInv(s: State, ev: Event)
    requires Inv(s) && Enabled(s, ev) && ev.Removes?
    ensures Inv(Next(s, ev))
  {
    LeaveKeepsInv(s, ev.t);
    assert Next(s, ev) == Left(s, ev.t);
  }

  // Broadcast

  ghost function Told(s: State, line: string): State {
    s.(slots := SubscriberSpec.Broadcast(s.slots, line), history := s.history + [line],
       dropped := s.dropped + FullSlots(s.slots), threads := ShutDown(s.threads, Evicted(s.slots)))
  }

  lemma {:induction false} TellOwners(s: State, line: string, j: nat, u: nat)
    requires j < |s.slots|
    ensures OwnedBy(Told(s, line), Told(s, line).slots[j], u) <==> !Full(s.slots[j]) && OwnedBy(s, s.slots[j], u)
  {
  }

  lemma {:induction false} TellKeepsFds(s: State, line: string)
    requires FdsInv(s) && ClientsInv(s)
    ensures var r := Told(s, line); FdsInv(r) && ClientsInv(r)
  {
    var r := Told(s, line);
    assert r.threads.Keys == s.threads.Keys && |r.threads| == |r.threads.Keys|;
  }

  lemma {:induction false} TellKeepsSlots(s: State, line: string)
    requires SlotsInv(s)
    ensures SlotsInv(Told(s, line))
  {
    var r := Told(s, line);
    forall j | 0 <= j < |r.slots| && r.slots[j].Taken?
      ensures exists u :: OwnedBy(r, r.slots[j], u)
    {
      var u :| OwnedBy(s, s.slots[j], u);
      TellOwners(s, line, j, u);
    }
  }

  lemma {:induction false} SinceGrows(s: State, line: string, th: Thread)
    requires th.start.Some? && th.start.value <= |s.history|
    ensures Since(Told(s, line), th) == Since(s, th) + [line]
  {
  }

  lemma {:induction false} ToldQueue(s: State, line: string, j: nat, u: nat)
    requires QueueInv(s) && u in s.threads && j < |s.slots|
    requires OwnedBy(Told(s, line), Told(s, line).slots[j], u)
    ensures var r := Told(s, line); Delivered(r.threads[u]) + r.slots[j].queue == Since(r, r.threads[u])
  {
    var sent, queue := Delivered(s.threads[u]), s.slots[j].queue;
    TellOwners(s, line, j, u);
    SinceGrows(s, line, s.threads[u]);
    assert sent + (queue + [line]) == (sent + queue) + [line];
  }

  lemma {:induction false} TellKeepsQueues(s: State, line: string)
    requires QueueInv(s)
    ensures QueueInv(Told(s, line))
  {
    var r := Told(s, line);
    forall u | u in r.threads && r.threads[u].start.Some?
      ensures r.threads[u].start.value <= |r.history| && Delivered(r.threads[u]) <= Since(r, r.threads[u])
    {
      SinceGrows(s, line, s.threads[u]);
    }
    forall u, j | u in r.threads && 0 <= j < |r.slots| && OwnedBy(r, r.slots[j], u)
      ensures Delivered(r.threads[u]) + r.slots[j].queue == Since(r, r.threads[u])
    {
      ToldQueue(s, line, j, u);
    }
    forall u | u in r.threads && InService(r.threads[u]) && r.threads[u].start.Some? && !r.threads[u].shut
      ensures Holds(r.slots, r.threads[u].fd)
    {
      var j :| 0 <= j < |s.slots| && s.slots[j].Taken? && s.slots[j].fd == s.threads[u].fd;
      assert r.slots[j].Taken? && r.slots[j].fd == s.slots[j].fd;
    }
  }

  lemma {:induction false} PrefixGrows(lines: seq<string>, history: seq<string>, line: string, i: nat)
    requires i <= |history| && lines <= history[i..]
    ensures lines <= (history + [line])[i..]
  {
    assert (history + [line])[i..] == history[i..] + [line];
  }

  lemma {:induction false} TellKeepsThreads(s: State, line: string)
    requires ThreadsInv(s)
    ensures ThreadsInv(Told(s, line))
  {
    var r := Told(s, line);
    forall u | u in r.threads
      ensures PcInv(r.threads[u]) && WireInv(r.threads[u], r.history)
    {
      assert PcInv(s.threads[u]) && WireInv(s.threads[u], s.history);
      if s.threads[u].first.Some? {
        PrefixGrows(AlertLines(s.threads[u].wire), s.history, line, s.threads[u].first.value);
      }
    }
  }

  lemma {:induction false} TellKeepsProducer(s: State)
    requires ProducerInv(s) && s.pending != []
    ensures ProducerInv(Told(s, AlertLine(s.pending[0])).(pending := s.pending[1..]))
  {
    assert Lines(s.pending) == [AlertLine(s.pending[0])] + Lines(s.pending[1..]);
  }

  lemma {:induction false} ProducerIsApart(s: State, recorded: seq<Alert>, pending: seq<Alert>)
    requires FdsInv(s) && ClientsInv(s) && SlotsInv(s) && QueueInv(s) && ThreadsInv(s)
    ensures var r := s.(recorded := recorded, pending := pending);
            FdsInv(r) && ClientsInv(r) && SlotsInv(r) && QueueInv(r) && ThreadsInv(r)
  {
    var r := s.(recorded := recorded, pending := pending);
    assert forall slot, t :: OwnedBy(s, slot, t) <==> OwnedBy(r, slot, t);
    assert SlotsInv(r);
    assert QueueInv(r);
  }

  lemma {:induction false} BroadcastIsTold(s: State, ev: Event)
    requires Enabled(s, ev) && ev.Broadcasts?
    ensures Next(s, ev) == Told(s, AlertLine(s.pending[0])).(recorded := s.recorded, pending := s.pending[1..])
  {
  }

  lemma {:induction false} BroadcastsKeepsInv(s: State, ev: Event)
    requires Inv(s) && Enabled(s, ev) && ev.Broadcasts?
    ensures Inv(Next(s, ev))
  {
    var line := AlertLine(s.pending[0]);
    BroadcastIsTold(s, ev);
    TellKeepsProducer(s);
    var r := Told(s, line);
    assert FdsInv(r) && ClientsInv(r) && SlotsInv(r) by {
      TellKeepsFds(s, line);
      TellKeepsSlots(s, line);
    }
    assert QueueInv(r) by {
      TellKeepsQueues(s, line);
    }
    assert ThreadsInv(r) by {
      TellKeepsThreads(s, line);
    }
    ProducerIsApart(r, s.recorded, s.pending[1..]);
  }

  // Accepting, exiting and recording

  lemma {:induction false} AcceptsKeepsInv(s: State, accepted: Option<int>)
    requires Inv(s) && (accepted.Some? ==> accepted.value > 0 && !FdOpen(s, accepted.value))
    ensures Inv(s.(accepted := accepted))
  {
    var r := s.(accepted := accepted);
    assert forall slot, t :: OwnedBy(s, slot, t) <==> OwnedBy(r, slot, t);
    assert FdsInv(r) && ClientsInv(r);
    assert SlotsInv(r);
    assert QueueInv(r) && ThreadsInv(r);
  }

  function Admitted(s: State, fd: int): State {
    s.(accepted := None, clients := s.clients + 1, nextThread := s.nextThread + 1,
       threads := s.threads[s.nextThread := Thread(fd, Setup, None, None, [], [], false, [])])
  }

  lemma {:induction false} AdmitOwners(s: State, fd: int, slot: Slot, t: nat)
    requires FdsInv(s)
    ensures OwnedBy(Admitted(s, fd), slot, t) <==> OwnedBy(s, slot, t)
  {
  }

  lemma {:induction false} AdmitKeepsTable(s: State, fd: int)
    requires FdsInv(s) && SlotsInv(s) && QueueInv(s)
    ensures SlotsInv(Admitted(s, fd)) && QueueInv(Admitted(s, fd))
  {
    var r := Admitted(s, fd);
    forall slot, t
      ensures OwnedBy(s, slot, t) <==> OwnedBy(r, slot, t)
    {
      AdmitOwners(s, fd, slot, t);
    }
    assert SlotsInv(r);
    assert QueueInv(r);
  }

  lemma {:induction false} AdmitKeepsFds(s: State, fd: int)
    requires FdsInv(s) && ClientsInv(s) && s.accepted == Some(fd) && s.clients < MAX_CLIENTS
    ensures var r := Admitted(s, fd); FdsInv(r) && ClientsInv(r)
  {
    assert s.nextThread !in s.threads;
    assert Admitted(s, fd).threads.Keys == s.threads.Keys + {s.nextThread};
  }

  lemma {:induction false} AdmitKeepsThreads(s: State, fd: int)
    requires ThreadsInv(s)
    ensures ThreadsInv(Admitted(s, fd))
  {
    var th := Admitted(s, fd).threads[s.nextThread];
    assert PcInv(th) && WireInv(th, s.history);
  }

  lemma {:induction false} AdmitsKeepsInv(s: State, ev: Event)
    requires Inv(s) && Enabled(s, ev) && ev.Admits? && s.clients < MAX_CLIENTS
    ensures Inv(Next(s, ev))
  {
    assert Next(s, ev) == Admitted(s, s.accepted.value);
    AdmitKeepsTable(s, s.accepted.value);
    AdmitKeepsFds(s, s.accepted.value);
    AdmitKeepsThreads(s, s.accepted.value);
  }

  function Exited(s: State, t: nat): State {
    s.(threads := map x | x in s.threads && x != t :: s.threads[x], clients := s.clients - 1)
  }

  lemma {:induction false} ExitKeepsTable(s: State, t: nat)
    requires SlotsInv(s) && QueueInv(s) && At(s, t, Closed)
    ensures SlotsInv(Exited(s, t)) && QueueInv(Exited(s, t))
  {
    var r := Exited(s, t);
    assert forall slot, u :: OwnedBy(s, slot, u) <==> OwnedBy(r, slot, u);
    assert SlotsInv(r);
    assert QueueInv(r);
  }

  lemma {:induction false} ExitKeepsRest(s: State, t: nat)
    requires FdsInv(s) && ClientsInv(s) && ThreadsInv(s) && At(s, t, Closed)
    ensures var r := Exited(s, t); FdsInv(r) && ClientsInv(r) && ThreadsInv(r)
  {
    assert Exited(s, t).threads.Keys == s.threads.Keys - {t};
  }

  lemma {:induction false} ExitsKeepsInv(s: State, ev: Event)
    requires Inv(s) && Enabled(s, ev) && ev.Exits?
    ensures Inv(Next(s, ev))
  {
    assert Next(s, ev) == Exited(s, ev.t);
    ExitKeepsTable(s, ev.t);
    ExitKeepsRest(s, ev.t);
  }

  lemma {:induction false} RecordsKeepsInv(s: State, ev: Event)
    requires Inv(s) && Enabled(s, ev) && ev.Records?
    ensures Inv(Next(s, ev))
  {
    ProducerIsApart(s, s.recorded + ev.alerts, ev.alerts);
    RecordKeepsProducer(s, ev.alerts);
  }

  lemma {:induction false} RecordKeepsProducer(s: State, alerts: seq<Alert>)
    requires ProducerInv(s) && s.pending == []
    ensures ProducerInv(s.(recorded := s.recorded + alerts, pending := alerts))
  {
    assert Lines(s.recorded + alerts) == Lines(s.recorded) + Lines(alerts);
    assert s.history + Lines([]) == s.history;
  }

  lemma {:induction false} NextKeepsInv(s: State, ev: Event)
    requires Inv(s) && Enabled(s, ev)
    ensures Inv(Next(s, ev))
  {
    if IsPlainMove(ev) {
      PlainMovesKeepInv(s, ev);
    } else if ev.Accepts? || ev.Admits? {
      ArrivalsKeepInv(s, ev);
    } else {
      OthersKeepInv(s, ev);
    }
  }

  lemma {:induction false} ArrivalsKeepInv(s: State, ev: Event)
    requires Inv(s) && Enabled(s, ev) && (ev.Accepts? || ev.Admits?)
    ensures Inv(Next(s, ev))
  {
    if ev.Accepts? {
      AcceptsKeepsInv(s, Some(ev.fd));
    } else if s.clients < MAX_CLIENTS {
      AdmitsKeepsInv(s, ev);
    } else {
      AcceptsKeepsInv(s, None);
    }
  }

  lemma {:induction false} OthersKeepInv(s: State, ev: Event)
    requires Inv(s) && Enabled(s, ev) && !IsPlainMove(ev) && !ev.Accepts? && !ev.Admits?
    ensures Inv(Next(s, ev))
  {
    match ev
    case Exits(_) => ExitsKeepsInv(s, ev);
    case Pops(_, _, _) => PopsKeepsInv(s, ev);
    case SendsLine(_, _) => SendsLineKeepsInv(s, ev);
    case Subscribes(_, _, _) => SubscribesKeepsInv(s, ev);
    case Acks(_, _) => RepliesKeepInv(s, ev);
    case Replies(_, _) => RepliesKeepInv(s, ev);
    case Removes(_) => RemovesKeepsInv(s, ev);
    case Records(_) => RecordsKeepsInv(s, ev);
    case Broadcasts => BroadcastsKeepsInv(s, ev);
  }

  lemma {:induction false} InvAlways(trace: seq<State>, events: seq<Event>, i: nat)
    requires Behaviour(trace, events) && i < |trace|
    ensures Inv(trace[i])
  {
    if i > 0 {
      InvAlways(trace, events, i - 1);
      NextKeepsInv(trace[i - 1], events[i - 1]);
    }
  }

  // What holds in every interleaving

  /** For each live subscription: what was sent, the line in flight and the queue are
      together exactly the alerts broadcast since it subscribed, in order. */
  lemma {:induction false} SubscriberFifo(trace: seq<State>, events: seq<Event>, n: nat, t: nat)
    requires Behaviour(trace, events) && n < |trace|
    requires var s := trace[n];
             t in s.threads && InService(s.threads[t]) && s.threads[t].start.Some? && Holds(s.slots, s.threads[t].fd)
    ensures var s := trace[n]; var th := s.threads[t];
            && th.start.value <= |s.history| <= |s.recorded|
            && (!th.shut ==> AlertLines(th.wire) == th.got)
            && (exists i :: 0 <= i < |s.slots| && s.slots[i].Taken? && s.slots[i].fd == th.fd &&
                  th.got + th.inFlight + s.slots[i].queue == Lines(s.recorded)[th.start.value..|s.history|])
  {
    var s := trace[n];
    InvAlways(trace, events, n);
    var th := s.threads[t];
    var i :| 0 <= i < |s.slots| && s.slots[i].Taken? && s.slots[i].fd == th.fd;
    SlotOfThread(s, t, i);
    assert WireInv(th, s.history);
    assert Delivered(th) + s.slots[i].queue == Since(s, th);
    assert Lines(s.recorded)[..|s.history|] == s.history;
    assert Lines(s.recorded)[th.start.value..|s.history|] == Since(s, th);
  }

  lemma {:induction false} PrefixIsRecorded(s: State, lines: seq<string>, from: nat)
    requires ProducerInv(s) && from <= |s.history| && lines <= s.history[from..]
    ensures from <= |s.recorded| && lines <= Lines(s.recorded)[from..]
    ensures Segment(lines, Lines(s.recorded))
  {
    var all := Lines(s.recorded);
    assert all == s.history + all[|s.history|..];
    assert lines == all[from..from + |lines|];
  }

  /** Whatever happens to a connection - eviction, a failed send, closing - the alerts that
      went out on it are one contiguous run of the alert history: a prefix of those raised
      since it first subscribed, with no gap, all of them after its own OK|SUBSCRIBED. What
      it was given since it last subscribed is a prefix of those raised since then. */
  lemma {:induction false} WireIsContiguous(trace: seq<State>, events: seq<Event>, n: nat, t: nat)
    requires Behaviour(trace, events) && n < |trace| && t in trace[n].threads
    ensures var s := trace[n]; var th := s.threads[t]; var lines := AlertLines(th.wire);
            && Segment(lines, Lines(s.recorded))
            && AlertsFollowAck(th.wire)
            && (th.first.None? ==> lines == [])
            && (th.first.Some? ==> th.first.value <= |s.recorded| && lines <= Lines(s.recorded)[th.first.value..])
    ensures var s := trace[n]; var th := s.threads[t];
            th.start.Some? ==>
              th.start.value <= |s.recorded| && th.got + th.inFlight <= Lines(s.recorded)[th.start.value..]
  {
    var s := trace[n];
    var th := s.threads[t];
    InvAlways(trace, events, n);
    assert PcInv(th) && WireInv(th, s.history);
    if th.start.Some? {
      PrefixIsRecorded(s, Delivered(th), th.start.value);
      PrefixIsRecorded(s, AlertLines(th.wire), th.first.value);
    } else {
      assert Lines(s.recorded)[0..0] == [];
    }
  }

  /** Thread t is shut down, or gone for good, with these frames on its wire. */
  ghost predicate Frozen(s: State, t: nat, wire: seq<Frame>) {
    t < s.nextThread && (t in s.threads ==> s.threads[t].shut && s.threads[t].wire == wire)
  }

  lemma {:induction false} FrozenStep(s: State, ev: Event, t: nat, wire: seq<Frame>)
    requires Enabled(s, ev) && Frozen(s, t, wire)
    ensures Frozen(Next(s, ev), t, wire)
  {
    if ev.SendsLine? || ev.Acks? || ev.Replies? {
      assert ev.t == t ==> !ev.works;
    }
  }

  lemma {:induction false} BehaviourStep(trace: seq<State>, events: seq<Event>, i: nat)
    requires Behaviour(trace, events) && i < |events|
    ensures Enabled(trace[i], events[i]) && trace[i + 1] == Next(trace[i], events[i])
  {
  }

  lemma {:induction false} FrozenNext(trace: seq<State>, events: seq<Event>, i: nat, t: nat, wire: seq<Frame>)
    requires Behaviour(trace, events) && i < |events| && Frozen(trace[i], t, wire)
    ensures Frozen(trace[i + 1], t, wire)
  {
    BehaviourStep(trace, events, i);
    FrozenStep(trace[i], events[i], t, wire);
  }

  lemma {:induction false} FrozenFrom(trace: seq<State>, events: seq<Event>, n: nat, m: nat, t: nat, wire: seq<Frame>)
    requires Behaviour(trace, events) && n <= m < |trace| && Frozen(trace[n], t, wire)
    ensures Frozen(trace[m], t, wire)
  {
    if n < m {
      FrozenFrom(trace, events, n, m - 1, t, wire);
      FrozenNext(trace, events, m - 1, t, wire);
    }
  }

  /** Once a connection is shut down nothing goes out on it any more, even if its thread
      goes on reading commands: later states find the same frames on its wire. */
  lemma {:induction false} ShutWireIsFrozen(trace: seq<State>, events: seq<Event>, n: nat, m: nat, t: nat)
    requires Behaviour(trace, events) && n <= m < |trace|
    requires t in trace[n].threads && trace[n].threads[t].shut && t in trace[m].threads
    ensures trace[m].threads[t].shut && trace[m].threads[t].wire == trace[n].threads[t].wire
  {
    var wire := trace[n].threads[t].wire;
    assert Frozen(trace[n], t, wire) by {
      InvAlways(trace, events, n);
    }
    FrozenFrom(trace, events, n, m, t, wire);
  }

  /** The thread is on its way out, or gone, with these frames on its wire. */
  ghost predicate Departing(s: State, t: nat, wire: seq<Frame>) {
    t < s.nextThread && (t in s.threads ==> IsGoing(s.threads[t].pc) && s.threads[t].wire == wire)
  }

  predicate IsGoing(pc: Pc) {
    pc.Leaving? || pc.Removed? || pc.Closed?
  }

  lemma {:induction false} DepartingStep(s: State, ev: Event, t: nat, wire: seq<Frame>)
    requires Enabled(s, ev) && Departing(s, t, wire)
    ensures Departing(Next(s, ev), t, wire)
  {
    if ev.Accepts? || ev.Admits? || ev.Records? || ev.Broadcasts? || ev.t != t {
      OthersStepAside(s, ev, t);
    } else {
      assert ev.Removes? || ev.Closes? || ev.Exits?;
    }
  }

  /** What other threads do leaves the frames of this one, and where it stands, alone. */
  lemma {:induction false} OthersStepAside(s: State, ev: Event, t: nat)
    requires Enabled(s, ev) && t < s.nextThread
    requires ev.Accepts? || ev.Admits? || ev.Records? || ev.Broadcasts? || ev.t != t
    ensures var r := Next(s, ev);
            && t < r.nextThread && (t in r.threads <==> t in s.threads)
            && (t in s.threads ==> r.threads[t].pc == s.threads[t].pc && r.threads[t].wire == s.threads[t].wire)
  {
  }

  lemma {:induction false} DepartingFrom(trace: seq<State>, events: seq<Event>, n: nat, m: nat, t: nat,
                                         wire: seq<Frame>)
    requires Behaviour(trace, events) && n <= m < |trace| && Departing(trace[n], t, wire)
    ensures Departing(trace[m], t, wire)
  {
    if n < m {
      DepartingFrom(trace, events, n, m - 1, t, wire);
      DepartingNext(trace, events, m - 1, t, wire);
    }
  }

  lemma {:induction false} DepartingNext(trace: seq<State>, events: seq<Event>, i: nat, t: nat, wire: seq<Frame>)
    requires Behaviour(trace, events) && i < |events| && Departing(trace[i], t, wire)
    ensures Departing(trace[i + 1], t, wire)
  {
    BehaviourStep(trace, events, i);
    DepartingStep(trace[i], events[i], t, wire);
  }

  /** What ends a connection: the answer to BYE, the end of its input, or a failed push. */
  ghost predicate Ends(s: State, ev: Event) {
    || (ev.Replies? && ev.t in s.threads && s.threads[ev.t].pc == Replying(true))
    || ev.HangsUp?
    || (ev.SendsLine? && !ev.works)
  }

  /** After that the connection reads no command and sends nothing any more: its thread only
      leaves the table, closes the socket and exits. */
  lemma {:induction false} EndIsFinal(trace: seq<State>, events: seq<Event>, n: nat, m: nat)
    requires Behaviour(trace, events) && n < |events| && Ends(trace[n], events[n])
    requires n < m < |trace|
    ensures var t := events[n].t; t in trace[n + 1].threads && Departing(trace[m], t, trace[n + 1].threads[t].wire)
  {
    InvAlways(trace, events, n);
    BehaviourStep(trace, events, n);
    var t := events[n].t;
    DepartingFrom(trace, events, n + 1, m, t, trace[n + 1].threads[t].wire);
  }

  lemma {:induction false} EvictedOwner(s: State, t: nat) returns (i: nat)
    requires FdsInv(s) && SlotsInv(s)
    requires t in s.threads && IsOpen(s.threads[t]) && s.threads[t].fd in Evicted(s.slots)
    ensures i < |s.slots| && Full(s.slots[i]) && OwnedBy(s, s.slots[i], t)
    ensures FullSlots(s.slots) > 0
  {
    var k :| k in FullBelow(s.slots, |s.slots|) && s.slots[k].fd == s.threads[t].fd;
    i := k;
    var u :| OwnedBy(s, s.slots[i], u);
    assert u == t;
    SubsetCardinality({k}, FullBelow(s.slots, |s.slots|));
  }

  /** A subscriber is thrown out only with 32 lines queued; its slot is freed, `dropped`
      counts it, and the connection it belonged to, and no other, is shut down. */
  lemma {:induction false} EvictionHitsTheSubscriber(trace: seq<State>, events: seq<Event>, n: nat, t: nat)
    requires Behaviour(trace, events) && n < |events| && events[n].Broadcasts?
    requires t in trace[n].threads && IsOpen(trace[n].threads[t]) && trace[n].threads[t].fd in Evicted(trace[n].slots)
    ensures var s, r := trace[n], trace[n + 1];
            && (exists i ::
                  && 0 <= i < |s.slots| && OwnedBy(s, s.slots[i], t)
                  && |s.slots[i].queue| >= 32 && r.slots[i] == Free)
            && r.threads[t] == s.threads[t].(shut := true)
            && r.dropped == s.dropped + FullSlots(s.slots) > s.dropped
  {
    var s := trace[n];
    assert FdsInv(s) && SlotsInv(s) by {
      InvAlways(trace, events, n);
    }
    BroadcastIsTold(s, events[n]);
    var i := EvictedOwner(s, t);
    assert trace[n + 1].slots[i] == Offered(s.slots[i], AlertLine(s.pending[0]));
  }

  /** Descriptor safety under reuse: each occupied slot holds the descriptor of exactly one
      open connection, in service, that subscribed itself; no descriptor is in two slots;
      and `clients` counts the connections in set-up or service and never exceeds 64. */
  lemma {:induction false} DescriptorsAreSafe(trace: seq<State>, events: seq<Event>, n: nat, i: nat)
    requires Behaviour(trace, events) && n < |trace|
    requires i < SUBSCRIBERS == |trace[n].slots| && trace[n].slots[i].Taken?
    ensures var s := trace[n];
            && (exists t :: OwnedBy(s, s.slots[i], t))
            && (forall t | t in s.threads && IsOpen(s.threads[t]) && s.threads[t].fd == s.slots[i].fd ::
                  OwnedBy(s, s.slots[i], t))
            && s.accepted != Some(s.slots[i].fd)
            && (forall j | 0 <= j < |s.slots| && j != i && s.slots[j].Taken? :: s.slots[j].fd != s.slots[i].fd)
  {
    var s := trace[n];
    InvAlways(trace, events, n);
    var u :| OwnedBy(s, s.slots[i], u);
    forall t | t in s.threads && IsOpen(s.threads[t]) && s.threads[t].fd == s.slots[i].fd
      ensures OwnedBy(s, s.slots[i], t)
    {
      assert t == u;
    }
  }

  lemma {:induction false} ClientsAreCounted(trace: seq<State>, events: seq<Event>, n: nat)
    requires Behaviour(trace, events) && n < |trace|
    ensures trace[n].clients == |trace[n].threads| <= 64
  {
    InvAlways(trace, events, n);
  }

  /** A connection is admitted exactly while fewer than 64 are counted, and a subscriber with
      fewer than 32 lines queued is given the next one. */
  lemma {:induction false} CapsAreExact(s: State, slot: Slot, line: string)
    ensures s.accepted.Some? ==> Next(s, Admits).clients == s.clients + if s.clients < 64 then 1 else 0
    ensures slot.Taken? ==>
              Offered(slot, line) == if |slot.queue| < 32 then Taken(slot.fd, slot.queue + [line]) else Free
  {
  }

  /** Between two looks at its socket a thread sends at most 32 alerts. */
  lemma {:induction false} DrainIsBounded(trace: seq<State>, events: seq<Event>, n: nat, t: nat)
    requires Behaviour(trace, events) && n < |trace| && t in trace[n].threads
    ensures var pc := trace[n].threads[t].pc; (pc.Draining? ==> pc.done <= 32) && (pc.Sending? ==> pc.done < 32)
  {
    if n > 0 {
      BehaviourStep(trace, events, n - 1);
      if t in trace[n - 1].threads {
        DrainIsBounded(trace, events, n - 1, t);
      }
      DrainStep(trace[n - 1], events[n - 1], t);
    }
  }

  ghost predicate DrainsFew(s: State, t: nat) {
    t in s.threads ==>
      var pc := s.threads[t].pc; (pc.Draining? ==> pc.done <= 32) && (pc.Sending? ==> pc.done < 32)
  }

  lemma {:induction false} DrainStep(s: State, ev: Event, t: nat)
    requires Enabled(s, ev) && DrainsFew(s, t)
    ensures DrainsFew(Next(s, ev), t)
  {
  }
}
