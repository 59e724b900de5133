/** The sending loop of client/node.py: four counters updated attempt by attempt. */
module NodeSender {
  import opened Prelude
  import opened NodeRecord
  import opened TruthfulSession
  import opened DropSchedule

  /** The log of a session that follows the drop schedule. */
  ghost predicate Scheduled(log: seq<Attempt>, percentage: real) {
    forall q | 0 <= q < |log| :: log[q].fate == Omitted <==> OmittedByDrop(q, percentage)
  }

  lemma {:induction false} OmittedFollowsSchedule(log: seq<Attempt>, a: nat, percentage: real)
    requires a <= |log| && Scheduled(log, percentage)
    ensures Count(log, a, Omitted) == Omissions(a, percentage)
  {
    if a > 0 {
      OmittedFollowsSchedule(log, a - 1, percentage);
    }
  }

  lemma {:induction false} CountSnoc(log: seq<Attempt>, x: Attempt, fate: Fate)
    ensures Count(log + [x], |log| + 1, fate) == Count(log, |log|, fate) + if x.fate == fate then 1 else 0
  {
    CountOfPrefix(log, [x], |log|, fate);
  }

  /** What each iteration finds outside the node: whether the control connection met a
      restarted server, what was measured, and whether sendto worked. */
  datatype Turn = Turn(restarted: bool, values: seq<Measurement>, sendWorks: bool)

  /** The sequence number of the attempt made in the last of these turns. */
  ghost function LastSequence(start: nat, turns: seq<Turn>): nat
    requires turns != []
    decreases |turns|, 0
  {
    if turns[|turns| - 1].restarted then 0 else Position(start, turns[..|turns| - 1])
  }

  /** How many attempts the session has seen after these turns, having begun with `start`. */
  ghost function Position(start: nat, turns: seq<Turn>): nat
    decreases |turns|, 1
  {
    if turns == [] then start else LastSequence(start, turns) + 1
  }

  /** The datagrams these turns put on the network, in order. */
  ghost function Packets(percentage: real, start: nat, turns: seq<Turn>): seq<Datagram> {
    if turns == [] then []
    else
      var turn, sequence := turns[|turns| - 1], LastSequence(start, turns);
      Packets(percentage, start, turns[..|turns| - 1]) +
      if !OmittedByDrop(sequence, percentage) && turn.sendWorks then [Datagram(sequence, turn.values)] else []
  }

  predicate NoRestart(turns: seq<Turn>) {
    forall t | t in turns :: !t.restarted
  }

  lemma {:induction false} NoRestartStep(turns: seq<Turn>, i: nat)
    requires i < |turns|
    ensures turns[..i + 1][..i] == turns[..i]
    ensures NoRestart(turns[..i + 1]) <==> NoRestart(turns[..i]) && !turns[i].restarted
  {
    assert turns[..i + 1] == turns[..i] + [turns[i]];
  }

  class Sender {
    const percentage: real
    var attempts: nat
    var sent: nat
    var omitted: nat
    var errors: nat
    ghost var log: seq<Attempt>   // the attempts of the current session

    /** Holds at the loop head and while the node sleeps. */
    ghost predicate Valid()
      reads this
    {
      && 0.0 <= percentage <= 100.0
      && attempts == |log|
      && sent == Count(log, |log|, Sent)
      && omitted == Count(log, |log|, Omitted)
      && errors == Count(log, |log|, Failed)
      && Scheduled(log, percentage)
    }

    constructor (p: real)
      requires 0.0 <= p <= 100.0
      ensures Valid() && log == [] && percentage == p
    {
      percentage, attempts, sent, omitted, errors, log := p, 0, 0, 0, 0, [];
    }

    /** The counter reset of `control` when boot_id changed. */
    method Reset()
      requires Valid()
      modifies this
      ensures Valid() && log == []
    {
      attempts, sent, omitted, errors, log := 0, 0, 0, 0, [];
    }

    /** One attempt: omitted by the schedule, or handed to sendto, which may fail. */
    method Attempt(values: seq<Measurement>, sendWorks: bool) returns (packet: Option<Datagram>)
      requires Valid()
      modifies this
      ensures Valid()
      ensures |log| == |old(log)| + 1 && log[..|old(log)|] == old(log) && log[|old(log)|].values == values
      ensures packet == if log[|old(log)|].fate == Sent then Some(Datagram(|old(log)|, values)) else None
      ensures log[|old(log)|].fate == Sent <==> !OmittedByDrop(|old(log)|, percentage) && sendWorks
      ensures sent == old(sent) + if packet.Some? then 1 else 0
    {
      var sequence := attempts;
      ghost var fate;
      packet := None;
      if OmittedByDrop(sequence, percentage) {
        omitted, fate := omitted + 1, Omitted;
      } else if sendWorks {
        packet := Some(Datagram(sequence, values));
        sent, fate := sent + 1, Sent;
      } else {
        errors, fate := errors + 1, Failed;
      }
      attempts := attempts + 1;
      ghost var x := TruthfulSession.Attempt.Attempt(fate, values);
      CountSnoc(log, x, Sent);
      CountSnoc(log, x, Omitted);
      CountSnoc(log, x, Failed);
      log := log + [x];
    }

    /** The main loop over a whole run, across server restarts: it emits exactly the
        scheduled datagrams, afterwards the omissions of the current session meet the quota,
        and every attempt is accounted for. */
    method Loop(turns: seq<Turn>) returns (packets: seq<Datagram>)
      requires Valid()
      modifies this
      ensures Valid()
      ensures packets == Packets(percentage, old(attempts), turns)
      ensures attempts == Position(old(attempts), turns) == sent + omitted + errors
      ensures omitted == Quota(attempts, percentage)
      ensures KeepsUp(omitted, attempts, percentage)
      ensures |packets| <= |turns|
      ensures NoRestart(turns) ==> attempts == old(attempts) + |turns| && |packets| == sent - old(sent)
    {
      packets := [];
      var total := 0;
      while total < |turns|
        invariant 0 <= total <= |turns|
        invariant Valid()
        invariant packets == Packets(percentage, old(attempts), turns[..total])
        invariant attempts == Position(old(attempts), turns[..total])
        invariant |packets| <= total
        invariant NoRestart(turns[..total]) ==> attempts == old(attempts) + total && |packets| == sent - old(sent)
      {
        var turn := turns[total];
        NoRestartStep(turns, total);
        if turn.restarted {
          Reset();
        }
        var packet := Attempt(turn.values, turn.sendWorks);
        if packet.Some? {
          packets := packets + [packet.value];
        }
        total := total + 1;
      }
      assert turns[..total] == turns;
      CountsAddUp(log, |log|);
      OmittedFollowsSchedule(log, |log|, percentage);
      OmissionsMeetQuota(attempts, percentage);
      OmissionsKeepUp(attempts, percentage);
    }
  }

  /** The packets of turns without a restart carry strictly increasing sequences, each of an
      attempt that the schedule keeps, starting at the first attempt made. */
  lemma {:induction false} PacketsIncrease(percentage: real, start: nat, turns: seq<Turn>, i: nat, j: nat)
    requires NoRestart(turns)
    requires i <= j < |Packets(percentage, start, turns)|
    ensures Position(start, turns) == start + |turns|
    ensures var packets := Packets(percentage, start, turns);
            && start <= packets[i].sequence && packets[j].sequence < start + |turns|
            && !OmittedByDrop(packets[j].sequence, percentage)
            && (i < j ==> packets[i].sequence < packets[j].sequence)
            && packets[j].values == turns[packets[j].sequence - start].values
  {
    var before := turns[..|turns| - 1];
    assert turns[|turns| - 1] in turns && forall t | t in before :: t in turns;
    var n := |Packets(percentage, start, before)|;
    PositionWithoutRestart(start, before);
    if j < n {
      PacketsIncrease(percentage, start, before, i, j);
    } else if i < n {
      PacketsIncrease(percentage, start, before, i, i);
    }
  }

  lemma {:induction false} PositionWithoutRestart(start: nat, turns: seq<Turn>)
    requires NoRestart(turns)
    ensures Position(start, turns) == start + |turns|
  {
    if turns != [] {
      assert turns[|turns| - 1] in turns;
      PositionWithoutRestart(start, turns[..|turns| - 1]);
    }
  }
}
