/** server/response_format.c and the list replies of server/tcp_command_server.c: loops over
    the slots of the registry. */
module ListReplies {
  import opened Config
  import opened Prelude
  import opened Decimal
  import opened Fields
  import opened NodeRecord
  import opened NodeHistory
  import opened RegistrySpec
  import opened RegistryLaws
  import opened TelepProtocol
  import opened AlertDemux
  import NodeRegistry

  /** %ld */
  function IntText(n: int): string {
    if n < 0 then "-" + Digits(-n) else Digits(n)
  }

  function Header(n: nat): string {
    "OK|" + Digits(n)
  }

  function Listing(rows: seq<string>): seq<string> {
    [Header(|rows|)] + rows + [END_OF_LIST]
  }

  // GET_NODES

  /** The row of a node; `activity` is the text that depends on the clock, ACTIVE|5. */
  function NodeRow(rec: TelemetryNode, activity: string): string {
    rec.id + "|" + activity
  }

  ghost function NodeRows(nodes: seq<Entry>, activity: seq<string>): seq<string>
    requires |nodes| <= |activity|
  {
    seq(|nodes|, i requires 0 <= i < |nodes| => NodeRow(nodes[i].rec, activity[i]))
  }

  /** count_registered_nodes */
  method CountRegistered(r: NodeRegistry.Registry) returns (total: nat)
    requires r.Valid()
    ensures total == |r.View().nodes|
  {
    total := 0;
    for i := 0 to MAX_NODES
      invariant total == if i < r.used then i else r.used
    {
      total := total + if r.nodes[i].inUse then 1 else 0;
    }
  }

  /** reply_node_list: one row per registered node, in registration order. */
  method ReplyNodeList(r: NodeRegistry.Registry, activity: seq<string>) returns (lines: seq<string>)
    requires r.Valid() && |activity| == MAX_NODES
    ensures lines == Listing(NodeRows(r.View().nodes, activity))
  {
    var count := CountRegistered(r);
    lines := [Header(count)];
    ghost var all := NodeRows(r.View().nodes, activity);
    for i := 0 to MAX_NODES
      invariant lines == [Header(count)] + all[..if i < count then i else count]
    {
      if r.nodes[i].inUse {
        assert all[..i + 1] == all[..i] + [NodeRow(r.nodes[i], activity[i])];
        lines := lines + [NodeRow(r.nodes[i], activity[i])];
      }
    }
    assert all[..count] == all;
    lines := lines + [END_OF_LIST];
  }

  // GET_ALERTS

  /** The row of an alert; its time stamp is an input. */
  function AlertRow(stamp: int, alert: Alert): string {
    IntText(stamp) + "|" + alert.id + "|" + alert.kind + "|" + ValueText(alert.value)
  }

  /** The alerts numbered from .. from + n of the history; stamps are kept per ring cell. */
  function AlertRows(history: seq<Alert>, stamps: seq<int>, from: nat): seq<string>
    requires from <= |history| && |stamps| == MAX_ALERTS
  {
    seq(|history| - from, i requires 0 <= i < |history| - from =>
          AlertRow(stamps[(from + i) % MAX_ALERTS], history[from + i]))
  }

  function OldestShown(total: nat): nat {
    if total < MAX_ALERTS then 0 else total - MAX_ALERTS
  }

  lemma {:induction false} AlertRowsStep(history: seq<Alert>, stamps: seq<int>, from: nat, index: nat)
    requires from <= index < |history| && |stamps| == MAX_ALERTS
    ensures AlertRows(history[..index + 1], stamps, from) ==
            AlertRows(history[..index], stamps, from) + [AlertRow(stamps[index % MAX_ALERTS], history[index])]
  {
  }

  /** One cell of the ring, while it still holds that alert of the history. */
  method CellOf(r: NodeRegistry.Registry, index: nat) returns (alert: Alert)
    requires r.Valid() && index < r.totalAlerts <= index + MAX_ALERTS
    ensures alert == r.View().alerts[index]
  {
    assert r.alerts[index % MAX_ALERTS] == r.history[index];
    return r.alerts[index % MAX_ALERTS];
  }

  /** The loop of reply_alert_list. */
  method RecentAlerts(r: NodeRegistry.Registry, stamps: seq<int>, from: nat) returns (rows: seq<string>)
    requires r.Valid() && |stamps| == MAX_ALERTS && from <= r.totalAlerts <= from + MAX_ALERTS
    ensures rows == AlertRows(r.View().alerts, stamps, from)
  {
    rows := [];
    for index := from to r.totalAlerts
      invariant rows == AlertRows(r.history[..index], stamps, from)
    {
      var alert := CellOf(r, index);
      AlertRowsStep(r.history, stamps, from, index);
      rows := rows + [AlertRow(stamps[index % MAX_ALERTS], alert)];
    }
    assert r.history[..r.totalAlerts] == r.history;
  }

  /** reply_alert_list: read from a ring of 128 cells, it is exactly the last
      min(total, 128) alerts of the whole history, oldest first. */
  method ReplyAlertList(r: NodeRegistry.Registry, stamps: seq<int>) returns (lines: seq<string>)
    requires r.Valid() && |stamps| == MAX_ALERTS
    ensures lines == Listing(AlertRows(r.View().alerts, stamps, OldestShown(|r.View().alerts|)))
  {
    var total := r.totalAlerts;
    var shown := if total < MAX_ALERTS then total else MAX_ALERTS;
    var rows := RecentAlerts(r, stamps, total - shown);
    lines := [Header(shown)] + rows + [END_OF_LIST];
  }

  // STATS

  function Labelled(key: string, n: nat): string {
    key + "=" + Digits(n)
  }

  function Flag(b: bool): nat {
    if b then 1 else 0
  }

  function StatsParts(rec: TelemetryNode): seq<string> {
    [Labelled("attempts", rec.attempts), Labelled("sent", rec.sent), Labelled("omitted", rec.omitted),
     Labelled("send_errors", rec.errors), Labelled("unique", rec.unique), Labelled("duplicates", rec.duplicates),
     Labelled("reordered", rec.reordered), Labelled("loss_estimated", rec.lost),
     Labelled("report_seen", Flag(rec.reportSeen)), Labelled("final_report", Flag(rec.final))]
  }

  /** format_node_stats */
  function StatsText(rec: TelemetryNode): string {
    Join(StatsParts(rec), ';')
  }

  /** What %.800s prints of a text. */
  function Clipped(text: string): string {
    if |text| > 800 then text[..800] else text
  }

  function StatsRow(rec: TelemetryNode): string {
    rec.id + "|" + rec.session + "|" + Clipped(StatsText(rec))
  }

  ghost function StatsRows(nodes: seq<Entry>): seq<string> {
    seq(|nodes|, i requires 0 <= i < |nodes| => StatsRow(nodes[i].rec))
  }

  /** STATS for every node, or for the one node asked about. */
  ghost function StatsReply(s: State, id: Option<string>): seq<string> {
    match id
    case None => Listing(StatsRows(s.nodes))
    case Some(name) =>
      match Lookup(s, name)
      case Some(e) => Listing([StatsRow(e.rec)])
      case None => [ErrorLine(ERR_UNKNOWN_NODE)]
  }

  /** The loop of reply_stats without a filter. */
  method AllStats(r: NodeRegistry.Registry) returns (rows: seq<string>)
    requires r.Valid()
    ensures rows == StatsRows(r.View().nodes)
  {
    rows := [];
    ghost var nodes := r.View().nodes;
    assert nodes[..r.used] == nodes;
    for i := 0 to MAX_NODES
      invariant i <= r.used ==> rows == StatsRows(nodes[..i])
      invariant i > r.used ==> rows == StatsRows(nodes)
    {
      if r.nodes[i].inUse {
        StatsRowsStep(nodes, i);
        rows := rows + [StatsRow(r.nodes[i])];
      }
    }
  }

  lemma {:induction false} StatsRowsStep(nodes: seq<Entry>, i: nat)
    requires i < |nodes|
    ensures StatsRows(nodes[..i + 1]) == StatsRows(nodes[..i]) + [StatsRow(nodes[i].rec)]
  {
  }

  /** No two slots have the same id: what every registry run guarantees. */
  ghost predicate UniqueIds(nodes: seq<Entry>) {
    forall i, j | 0 <= i < j < |nodes| :: nodes[i].rec.id != nodes[j].rec.id
  }

  lemma {:induction false} OnlyOneSlot(nodes: seq<Entry>, id: string, i: nat)
    requires UniqueIds(nodes) && i < |nodes|
    ensures nodes[i].rec.id == id <==> i == Find(nodes, id)
  {
  }

  /** The loop of reply_stats with a filter. */
  method StatsOf(r: NodeRegistry.Registry, id: string) returns (rows: seq<string>)
    requires r.Valid() && UniqueIds(r.View().nodes)
    ensures rows == match Lookup(r.View(), id)
                    case Some(e) => [StatsRow(e.rec)]
                    case None => []
  {
    rows := [];
    ghost var nodes := r.View().nodes;
    ghost var at := Find(nodes, id);
    for i := 0 to MAX_NODES
      invariant i <= at || at == r.used ==> rows == []
      invariant at < r.used && at < i ==> rows == [StatsRow(r.nodes[at])]
    {
      assert i < r.used ==> (r.nodes[i].id == id <==> i == at) by {
        if i < r.used {
          OnlyOneSlot(nodes, id, i);
          assert nodes[i].rec == r.nodes[i];
        }
      }
      if r.nodes[i].inUse && r.nodes[i].id == id {
        rows := rows + [StatsRow(r.nodes[i])];
      }
    }
  }

  /** reply_stats */
  method ReplyStats(r: NodeRegistry.Registry, id: Option<string>) returns (lines: seq<string>)
    requires r.Valid() && UniqueIds(r.View().nodes)
    ensures lines == StatsReply(r.View(), id)
  {
    if id.None? {
      var rows := AllStats(r);
      var count := CountRegistered(r);
      return [Header(count)] + rows + [END_OF_LIST];
    }
    var node := r.FindNode(id.value);
    if node == -1 {
      return [ErrorLine(ERR_UNKNOWN_NODE)];
    }
    var rows := StatsOf(r, id.value);
    return [Header(1)] + rows + [END_OF_LIST];
  }

  /** Ids stay unique in every run. */
  lemma {:induction false} IdsStayUnique(ops: seq<Op>)
    ensures UniqueIds(Run(EMPTY, ops).nodes)
  {
    if ops != [] {
      var s, op := Run(EMPTY, ops[..|ops| - 1]), ops[|ops| - 1];
      IdsStayUnique(ops[..|ops| - 1]);
      UniqueAfterStep(s, op);
    }
  }

  lemma {:induction false} UniqueAfterStep(s: State, op: Op)
    requires UniqueIds(s.nodes)
    ensures UniqueIds(Step(s, op).nodes)
  {
    var nodes := Step(s, op).nodes;
    if Addressed(s, op) {
      assert forall i | 0 <= i < |nodes| :: nodes[i].rec.id == s.nodes[i].rec.id;
    }
  }

  // GET_STATUS

  /** sum_lost_datagrams */
  method SumLost(r: NodeRegistry.Registry) returns (total: nat)
    requires r.Valid()
    ensures total == Total(r.View().nodes, Lost)
  {
    total := 0;
    ghost var nodes := r.View().nodes;
    for i := 0 to MAX_NODES
      invariant i <= r.used ==> total == Total(nodes[..i], Lost)
      invariant i > r.used ==> total == Total(nodes, Lost)
    {
      if r.nodes[i].inUse {
        TotalStep(nodes, i, Lost);
        total := total + r.nodes[i].lost;
      }
      assert nodes[..r.used] == nodes;
    }
    assert nodes[..r.used] == nodes;
  }

  lemma {:induction false} TotalStep(nodes: seq<Entry>, i: nat, field: Field)
    requires i < |nodes|
    ensures Total(nodes[..i + 1], field) == Total(nodes[..i], field) + Get(nodes[i].rec, field)
  {
    assert nodes[..i + 1][..i] == nodes[..i];
  }

  ghost predicate AreTotals(nodes: seq<Entry>, attempts: nat, sent: nat, omitted: nat, errors: nat,
                            unique: nat, duplicates: nat, reordered: nat, reports: nat, finals: nat) {
    && attempts == Total(nodes, Attempts) && sent == Total(nodes, SentTotal)
    && omitted == Total(nodes, OmittedTotal) && errors == Total(nodes, ErrorTotal)
    && unique == Total(nodes, Unique) && duplicates == Total(nodes, Duplicates)
    && reordered == Total(nodes, Reordered)
    && reports == Total(nodes, Reported) && finals == Total(nodes, Finished)
  }

  lemma {:induction false} TotalSnoc(nodes: seq<Entry>, e: Entry, field: Field)
    ensures Total(nodes + [e], field) == Total(nodes, field) + Get(e.rec, field)
  {
    SnocInit(nodes, e);
  }

  lemma {:induction false} AreTotalsSnoc(nodes: seq<Entry>, e: Entry,
                                         attempts: nat, sent: nat, omitted: nat, errors: nat,
                                         unique: nat, duplicates: nat, reordered: nat, reports: nat, finals: nat)
    requires AreTotals(nodes, attempts, sent, omitted, errors, unique, duplicates, reordered, reports, finals)
    ensures var n := e.rec;
            AreTotals(nodes + [e], attempts + n.attempts, sent + n.sent, omitted + n.omitted, errors + n.errors,
                      unique + n.unique, duplicates + n.duplicates, reordered + n.reordered,
                      reports + Flag(n.reportSeen), finals + Flag(n.final))
  {
    forall field: Field
      ensures Total(nodes + [e], field) == Total(nodes, field) + Get(e.rec, field)
    {
      TotalSnoc(nodes, e, field);
    }
  }

  /** The summing loop of format_system_status: nine accumulators, one pass. */
  method SystemSums(r: NodeRegistry.Registry)
    returns (attempts: nat, sent: nat, omitted: nat, errors: nat, unique: nat, duplicates: nat, reordered: nat,
             reports: nat, finals: nat)
    requires r.Valid()
    ensures AreTotals(r.View().nodes, attempts, sent, omitted, errors, unique, duplicates, reordered, reports, finals)
  {
    attempts, sent, omitted, errors, unique, duplicates, reordered, reports, finals := 0, 0, 0, 0, 0, 0, 0, 0, 0;
    ghost var nodes := r.View().nodes;
    ghost var done: seq<Entry> := [];
    for i := 0 to MAX_NODES
      invariant i <= r.used ==> done == nodes[..i]
      invariant i > r.used ==> done == nodes
      invariant AreTotals(done, attempts, sent, omitted, errors, unique, duplicates, reordered, reports, finals)
    {
      var n := r.nodes[i];
      if n.inUse {
        AreTotalsSnoc(done, nodes[i], attempts, sent, omitted, errors, unique, duplicates, reordered, reports, finals);
        done := done + [nodes[i]];
        attempts, sent := attempts + n.attempts, sent + n.sent;
        omitted, errors := omitted + n.omitted, errors + n.errors;
        unique, duplicates, reordered := unique + n.unique, duplicates + n.duplicates, reordered + n.reordered;
        reports, finals := reports + Flag(n.reportSeen), finals + Flag(n.final);
      }
      assert nodes[..r.used] == nodes;
    }
    assert nodes[..r.used] == nodes;
  }

  lemma {:induction false} BalancedNodesSum(nodes: seq<Entry>)
    requires forall e | e in nodes :: e.rec.attempts == e.rec.sent + e.rec.omitted + e.rec.errors
    ensures Total(nodes, Attempts) == Total(nodes, SentTotal) + Total(nodes, OmittedTotal) + Total(nodes, ErrorTotal)
  {
    if nodes != [] {
      var before, e := nodes[..|nodes| - 1], nodes[|nodes| - 1];
      assert e in nodes && forall x | x in before :: x in nodes;
      BalancedNodesSum(before);
    }
  }

  lemma {:induction false} EveryNodeBalances(ops: seq<Op>, i: nat)
    requires i < |Run(EMPTY, ops).nodes|
    ensures var rec := Run(EMPTY, ops).nodes[i].rec; rec.attempts == rec.sent + rec.omitted + rec.errors
  {
    var s := Run(EMPTY, ops);
    var id := s.nodes[i].rec.id;
    IdsStayUnique(ops);
    OnlyOneSlot(s.nodes, id, i);
    NodesAreIndependent(ops, id);
    FreshIsWellFormed(id, SessionOf(s, id));
    WellFormedRun(Fresh(id, SessionOf(s, id)), Messages(ops, id));
  }

  /** In every run, whatever clients report, the totals GET_STATUS publishes balance:
      attempts = sent + omitted + send_errors. */
  lemma {:induction false} PublishedTotalsBalance(ops: seq<Op>)
    ensures var nodes := Run(EMPTY, ops).nodes;
            Total(nodes, Attempts) == Total(nodes, SentTotal) + Total(nodes, OmittedTotal) + Total(nodes, ErrorTotal)
  {
    var nodes := Run(EMPTY, ops).nodes;
    forall e | e in nodes
      ensures e.rec.attempts == e.rec.sent + e.rec.omitted + e.rec.errors
    {
      var i :| 0 <= i < |nodes| && e == nodes[i];
      EveryNodeBalances(ops, i);
    }
    BalancedNodesSum(nodes);
  }
}
