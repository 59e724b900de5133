/** One registered node as server/node_registry.c keeps it: the C record, the set of
    sequences its bitmap row stands for, and what REPORT and TELEMETRY do to both. */
module NodeRecord {
  import opened Config
  import opened Prelude

  datatype Measurement = Measurement(name: string, value: real)

  datatype Alert = Alert(id: string, kind: string, value: real)

  /** The sender's four totals, as one REPORT carries them. */
  datatype Counters = Counters(attempts: nat, sent: nat, omitted: nat, errors: nat) {
    predicate Balanced() {
      attempts == sent + omitted + errors
    }
  }

  /** The C struct TelemetryNode; time stamps are not part of this model. */
  datatype TelemetryNode = TelemetryNode(
    inUse: bool, id: string, session: string,
    stored: seq<Measurement>, last: int,
    unique: nat, lost: nat, duplicates: nat, reordered: nat,
    attempts: nat, sent: nat, omitted: nat, errors: nat, reportSeen: bool, final: bool)
  {
    /** The totals last reported are at most `c`. */
    predicate ReportedAtMost(c: Counters) {
      attempts <= c.attempts && sent <= c.sent && omitted <= c.omitted && errors <= c.errors
    }

    predicate ReportedExactly(c: Counters) {
      attempts == c.attempts && sent == c.sent && omitted == c.omitted && errors == c.errors
    }

    predicate SameTotals(other: TelemetryNode) {
      attempts == other.attempts && sent == other.sent && omitted == other.omitted && errors == other.errors
    }
  }

  /** A record together with the sequences received so far. */
  datatype Entry = Entry(rec: TelemetryNode, seen: set<nat>)

  function Fresh(id: string, session: string): Entry {
    Entry(TelemetryNode(true, id, session, [], -1, 0, 0, 0, 0, 0, 0, 0, 0, false, false), {})
  }

  function LossEstimate(sent: nat, received: nat): nat {
    if sent > received then sent - received else 0
  }

  ghost function LossOf(rec: TelemetryNode, seen: set<nat>): nat {
    LossEstimate(rec.sent, |Below(seen, rec.attempts)|)
  }

  datatype Datagram = Datagram(sequence: nat, values: seq<Measurement>)

  /** A message addressed to this node under its own session. */
  datatype Message = Data(datagram: Datagram) | Totals(counters: Counters, final: bool)

  ghost predicate ReportAccepted(e: Entry, c: Counters, final: bool) {
    && c.Balanced()
    && e.rec.ReportedAtMost(c)
    && (final ==> e.rec.last < c.attempts)
    && (e.rec.final ==> e.rec.ReportedExactly(c) && final)
    && |Below(e.seen, c.attempts)| <= c.sent
  }

  ghost function AfterReport(e: Entry, c: Counters, final: bool): Entry {
    var rec := e.rec.(attempts := c.attempts, sent := c.sent, omitted := c.omitted, errors := c.errors,
                       reportSeen := true, final := final);
    e.(rec := rec.(lost := LossOf(rec, e.seen)))
  }

  predicate PastSeal(rec: TelemetryNode, sequence: nat) {
    rec.final && sequence >= rec.attempts
  }

  ghost function AfterDatagram(e: Entry, sequence: nat, values: seq<Measurement>): Entry {
    if sequence in e.seen then
      e.(rec := e.rec.(duplicates := e.rec.duplicates + 1))
    else
      var seen := e.seen + {sequence};
      var rec := e.rec.(unique := e.rec.unique + 1, lost := LossOf(e.rec, seen));
      if sequence < rec.last then
        Entry(rec.(reordered := rec.reordered + 1), seen)
      else
        Entry(rec.(last := sequence, stored := values), seen)
  }

  /** Whether this datagram is a first arrival that is not below the current maximum. */
  ghost predicate SetsRecord(e: Entry, sequence: nat) {
    sequence !in e.seen && sequence >= e.rec.last
  }

  ghost function NodeStep(e: Entry, m: Message): (r: Entry)
    ensures r.rec.id == e.rec.id && r.rec.session == e.rec.session && r.rec.inUse == e.rec.inUse
  {
    match m
    case Data(d) =>
      if PastSeal(e.rec, d.sequence) then e else AfterDatagram(e, d.sequence, d.values)
    case Totals(c, final) =>
      if ReportAccepted(e, c, final) then AfterReport(e, c, final) else e
  }

  ghost function NodeRun(e: Entry, ms: seq<Message>): (r: Entry)
    ensures r.rec.id == e.rec.id && r.rec.session == e.rec.session && r.rec.inUse == e.rec.inUse
  {
    if ms == [] then e else NodeStep(NodeRun(e, ms[..|ms| - 1]), ms[|ms| - 1])
  }

  // Alerts

  /** Upper threshold per variable; 0 for a variable that never raises an alert. */
  function AlertThreshold(name: string): real {
    if name == "TEMP" then TEMP_MAX
    else if name == "HUM" then HUM_MAX
    else if name == "POWER" then POWER_MAX
    else if name == "VIB" then VIB_MAX
    else 0.0
  }

  predicate IsAnomalous(m: Measurement) {
    if m.name == "STATUS" then m.value == 0.0
    else AlertThreshold(m.name) > 0.0 && m.value > AlertThreshold(m.name)
  }

  /** The verdict on the first stored value of that name; false when there is none. */
  predicate WasAnomalous(stored: seq<Measurement>, name: string) {
    stored != [] &&
    if stored[0].name == name then IsAnomalous(stored[0]) else WasAnomalous(stored[1..], name)
  }

  function Kind(name: string): string {
    if name == "STATUS" then "STATUS_FAIL" else name + "_HIGH"
  }

  function AlertFor(id: string, m: Measurement): Alert {
    Alert(id, Kind(m.name), if m.name == "STATUS" then 0.0 else m.value)
  }

  /** The alert a value raises, unless that variable was anomalous before. */
  function AlertIfNew(id: string, stored: seq<Measurement>, m: Measurement): (alerts: seq<Alert>)
    ensures |alerts| <= 1 && forall a | a in alerts :: a.id == id
  {
    if IsAnomalous(m) && !WasAnomalous(stored, m.name) then [AlertFor(id, m)] else []
  }

  /** The alerts one record-setting datagram raises, in the order of its values. */
  function NewAlerts(id: string, stored: seq<Measurement>, values: seq<Measurement>): (alerts: seq<Alert>)
    ensures |alerts| <= |values|
    ensures forall a | a in alerts :: a.id == id
  {
    if values == [] then []
    else
      var m := values[|values| - 1];
      NewAlerts(id, stored, values[..|values| - 1]) + AlertIfNew(id, stored, m)
  }

  ghost function AlertsOf(e: Entry, m: Message): (alerts: seq<Alert>)
    ensures forall a | a in alerts :: a.id == e.rec.id
  {
    if m.Data? && !PastSeal(e.rec, m.datagram.sequence) && SetsRecord(e, m.datagram.sequence)
    then NewAlerts(e.rec.id, e.rec.stored, m.datagram.values) else []
  }
}
