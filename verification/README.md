# TELEP/2.0 verification model

A Dafny 4.11 model of the TELEP/2.0 telemetry service and proofs about it. The service has
three parties: sending nodes (`client/node.py`) that emit numbered UDP datagrams and report
their own totals over TCP, a server (`server/*.c`) that reconciles what was reported with what
arrived and raises alerts, and operators (`client/telep.py`) that ask for lists and receive
pushed alerts. The model follows the code's branches, limits and error codes.

`dafny verify dfyconfig.toml` checks everything.

## How the model is laid out

**Registry, sending node and network**

- `config.dfy`, `bitmap.dfy`: limits, small facts, one bit of the reception bitmap.
- `node_record.dfy`, `registry_spec.dfy`: one node's record as a value, the whole registry as a
  value, and one step per operation.
- `node_registry.dfy`: the static arrays of `server/node_registry.c` as a class that updates
  them in place; every method is proved against that specification. Ghost fields hold the set
  of sequences a bitmap row stands for and the full alert history behind the 128-cell ring.
- `node_history.dfy`, `node_alerts.dfy`, `alert_limits.dfy`, `late_arrivals.dfy`, `truthful_session.dfy`,
  `registry_laws.dfy`: what the records mean over whole runs.
- `drop_schedule.dfy`, `node_sender.dfy`: the omission schedule and the sending loop.
- `session_protocol.dfy`: a node, the server and the network as interleaved steps. Datagrams may
  be lost, duplicated, delayed and reordered; a TCP request is handled at most once, by the
  server process it was sent to, possibly long after the node gave up on it; the server may
  restart at any moment; other clients may do anything under other ids, and send reports and
  datagrams under the node's id with any session but its own.

**Alert fan-out**

- `subscriber_spec.dfy`, `alert_subscribers.dfy`: the 32 slots with their ring queues, as values
  and as a class updated in place.
- `alert_fanout.dfy`: the producer, the accept loop and one thread per connection, interleaved
  at the granularity of critical sections and system calls, with descriptor numbers reused.

**Text**

- `decimal.dfy`, `fields.dfy`, `line_reader.dfy`, `telep_protocol.dfy`, `measurements.dfy`: numbers,
  split and join, the byte-wise line reader, the in-place message and measurement parsers.
- `udp_telemetry_server.dfy`, `command_server.dfy`, `list_replies.dfy`: the acceptance chain of a
  datagram, the commands, and the replies built from loops over the slots.
- `client_messages.dfy`, `alert_demux.dfy`, `telep_connection.dfy`: encoding, cutting the stream
  into lines, and the connection class that keeps pushed alerts apart from replies.
- `reply_texts.dfy`: what the client decodes from every line of the server.
- `list_delivery.dfy`, `server_runs.dfy`, `conversations.dfy`: end-to-end statements, from bytes on
  the sockets to what the other side reads.

## A property that fails

A late datagram, one below the current maximum, changes neither alerts nor stored values when it
arrives. It can still do so later: before a final report it counts towards the datagrams received,
which a report must not exceed (`server/node_registry.c:73-76`). `LateArrivals.LateDatagramTurnsAReport`
gives the run: 5 arrives, 3 comes late, a final report claims that 1 of 6 attempts was sent, and 9
follows. Without 3 the report seals the session and 9 is refused; with 3 the report is refused and
the values of 9 are stored.

`LateArrivals.LateArrivalVerdict` proves when a datagram that is not above the maximum is without
effect on alerts and stored values, whatever the server can still receive. That is so if and only
if one of three things holds, all of which can be read off the node's record:

- it is a duplicate;
- a final report has been accepted;
- the protocol has no room left for a run that would tell. With S the greater of the datagrams
  received and the datagrams reported sent, there is room when the maximum is below 65535, S is
  below 65535, and S + omitted + send_errors is below 65536. (If 65535 has already arrived, for
  example, nothing can become the maximum any more.)

An honest node sends no such report, so that in its runs no late datagram ever has an effect
(`NodeAlerts.LateArrivalChangesNoAlert`).

## What is assumed

- Sessions are fresh and one process uses a node id at a time. (The registry theorems cover
  ID_IN_USE and SERVER_FULL; the protocol theorem lets other clients use all other ids, and this one with
  stale or foreign sessions.)
- SIGTERM does not arrive between `client/node.py:105` and `client/node.py:110`, where a datagram
  is counted as sent but not yet as attempted, and does not arrive a second time.
- A section under a mutex is one atomic step. A failed `sendto` puts no acceptable datagram on the
  network; `UdpTelemetry.ShortSendIsRefused` shows that a datagram sent only in part is not one.
- Clocks, time stamps, readiness of sockets and failures of calls are inputs.

## Where code and comments differ

- `server/node_registry.h:18` calls `datagrams_lost` gaps in the sequence. The code computes
  reported sent minus received below the reported attempts, and that is what is proved exact.
- `server/node_registry.h:46` says that -1 means no room for the node. The code returns -1 for an
  unknown node, for another session and for a sequence beyond a final report, and never creates
  a node there.
- `server/telep_protocol.h:30` says that -1 means an empty line. The code also refuses lines that
  are too long, have a space or a byte outside ASCII, an empty part or more than eight arguments.
- The protocol promises that a list reply has as many rows as its header says. A node may be
  called `ALERT`, and the client then files the rows of that node under pushed alerts.
  `ListDelivery.NodeNamedAlertIsMissing` shows it, and `ServerRuns.NodeListAlways` proves that
  the list is complete if and only if no node of that name is registered.

## Model

| member | source | states |
|---|---|---|
| `SessionProtocol.LossIsExactAlways` | server/node_registry.c:54-80 | In every reachable state of node, network and server, the loss estimate is the number of sequences the node sent below the reported attempts that have not arrived, it is never clamped, and after the final report it is 0 exactly when everything sent has arrived |
| `SessionProtocol.HonestNodeIsNeverRefused` | client/node.py:67-82 | In every reachable state the node's awaited REPORT is answered OK, and its HELLO can only be refused with SERVER_FULL, despite stale requests, lost acknowledgements and restarts |
| `SessionProtocol.AcknowledgedMeansSealed` | client/node.py:116-122 | If the node was told that its final report was accepted and the server has not restarted, the server holds exactly the node's final counters, sealed |
| `SessionProtocol.ScheduleIsKeptAlways` | client/node.py:97-111 | At every loop head attempts = sent + omitted + errors, and 100 * omitted is the greatest multiple of 100 not above attempts * P, across restarts |
| `SessionProtocol.CountersStayInCount` | client/node.py:86-111 | No counter exceeds the number of attempts asked for |
| `SessionProtocol.StoppedStaysStopped` | client/node.py:113-122 | Once the node stops it never attempts a datagram again |
| `SessionProtocol.RefusalStops` | client/node.py:77-80 | A refused HELLO or REPORT stops the node |
| `SessionProtocol.AttemptsNeedControl` | client/node.py:87-109 | Before its first attempt, and between a failed control exchange or a failed send and the next attempt, the node completes a control exchange with an accepted REPORT |
| `SessionProtocol.FinalReportIsTriedThrice` | client/node.py:116-122 | The final report is tried on at most three connections |
| `SessionProtocol.AwaitedReportIsAccepted` | server/node_registry.c:61-81 | A node waiting for its REPORT on the running server would be answered OK in the current state |
| `SessionProtocol.InvAlways` | client/node.py:55-122 | The joint invariant of client, network, pending requests, answers and server record holds in every state of every behaviour |
| `SessionProtocol.NextKeepsInv` | client/node.py:67-122 | Every step, of the node, the network, the server or anyone else, keeps the joint invariant |
| `TruthfulSession.HonestReportVerdict` | server/node_registry.c:66-76 | A truthful REPORT is accepted if and only if it is not older than the accepted one and is final when that was |
| `TruthfulSession.CurrentTotalsAccepted` | server/node_registry.c:61-81 | The sender's current totals are accepted, whatever has arrived so far |
| `TruthfulSession.LossIsExact` | server/node_registry.c:54-60 | For a record of an honest session the estimate is exact and not clamped |
| `TruthfulSession.LatestTotalsWin` | server/node_registry.c:61-81 | Stale reports, however interleaved, leave the record with the latest totals |
| `TruthfulSession.OrderDoesNotMatter` | server/node_registry.c:117-158 | Any two orders of arrival of the same honest datagrams and reports end with the same bitmap and record, except for `reordered` |
| `TruthfulSession.FaithfulRun` | server/node_registry.c:61-158 | Any honest messages, in any order, leave a record whose totals are ones the sender had and whose bits are ones it sent |
| `DropSchedule.OmissionsMeetQuota` | client/node.py:53-54 | Exactly floor(n * P / 100) of the first n attempts are omitted, for every percentage |
| `DropSchedule.OmissionsTrackPercentage` | client/node.py:53-54 | 100 * omissions <= n * P < 100 * (omissions + 1), for every n and every percentage P |
| `DropSchedule.WindowsTrackPercentage` | client/node.py:53-54 | In any m consecutive attempts the omissions are less than one away from m * P / 100 |
| `DropSchedule.StepsMeetQuota` | client/node.py:53-54 | In any arithmetic, rounded or exact, in which the quota never falls and never jumps, the omissions are what the quota has grown by |
| `DropSchedule.EveryWindowIsFair` | client/node.py:53-54 | Any m consecutive attempts omit floor(m * P / 100) or the next integer up |
| `NodeSender.Sender.constructor` | client/node.py:60 | The counters start as those of an empty session |
| `NodeSender.Sender.Reset` | client/node.py:72-75 | A new session starts with zero counters |
| `NodeSender.Sender.Attempt` | client/node.py:97-111 | One turn is logged with its fate, and a datagram goes out with the turn's sequence and values exactly when it is not omitted and sendto works |
| `NodeSender.Sender.Loop` | client/node.py:86-112 | Over a whole run with restarts exactly the scheduled datagrams go out, in order, the counters balance, and 100 * omitted is the greatest multiple of 100 not above attempts * P |
| `NodeSender.PacketsIncrease` | client/node.py:97-111 | Between restarts the datagrams carry strictly increasing sequences that the schedule keeps, each with the values of its own attempt |
| `NodeSender.OmittedFollowsSchedule` | client/node.py:101-102 | The omissions in a log that follows the schedule are those of the schedule |
| `NodeHistory.RecordMeansHistory` | server/node_registry.c:117-158 | After any run of messages, unique, duplicates, last_sequence, reordered, loss and stored values are what the delivered datagrams say |
| `NodeHistory.DatagramLowersLoss` | server/node_registry.c:126-140 | A datagram lowers the loss by at most one and never raises it |
| `NodeHistory.SealHolds` | server/node_registry.c:66-78 | After a final report nothing changes the totals, sets a bit beyond them or raises the loss |
| `NodeAlerts.AlertsAreRisingEdges` | server/node_registry.c:92-104 | For one node, the alerts of a variable are its absent-or-normal to anomalous edges along the record-setting datagrams |
| `AlertLimits.CrossingRaises` | server/node_registry.c:84-104 | For one reading after another, or after none: NAME_HIGH with the new value exactly when it is above 40 (TEMP), 85 (HUM), 500 (POWER) or 7 (VIB) and the one before was not |
| `AlertLimits.FailureRaises` | server/node_registry.c:92-104 | STATUS_FAIL with value 0 exactly when STATUS fails and did not fail before |
| `AlertLimits.NothingElseRaises` | server/node_registry.c:84-104 | No reading of any other name is ever anomalous |
| `AlertLimits.AlertsCrossLimits` | server/node_registry.c:143-155 | In every run the alerts of a node are exactly the readings that rose above those limits and the failures, along its record-setting datagrams |
| `NodeAlerts.OneDatagramsAlerts` | server/node_registry.c:143-153 | One datagram raises at most one alert per variable, and exactly on a rising edge |
| `NodeAlerts.LateInsertionIsInvisible` | server/node_registry.c:131-141 | In a list of delivered datagrams, inserting one that is not above the maximum so far leaves the record-setting datagrams and the final maximum as they were |
| `NodeAlerts.LateArrivalChangesNoAlert` | server/node_registry.c:131-157 | In a run of an honest session, one more duplicate or late datagram anywhere among datagrams and reports leaves the alert history, the stored values and the maximum as they were; honesty is needed, as LateArrivals shows |
| `LateArrivals.DuplicateChangesNothing` | server/node_registry.c:126-135 | In every run, honest or not, a duplicate or a datagram the seal shuts out leaves the alert history equal and the record equal up to the count of duplicates, whatever follows |
| `LateArrivals.LateArrivalVerdict` | server/node_registry.c:61-81 | In every run, honest or not, a datagram not above the maximum is without effect on alerts and stored values for every continuation the parsers let through if and only if it is a duplicate, the session is sealed, or there is no room for a run that would tell |
| `LateArrivals.LateDatagramTurnsAReport` | server/node_registry.c:73-76 | The concrete failure: one late first arrival makes the server refuse a final report and store values that it otherwise refuses |
| `LateArrivals.VisibleWithRoom` | server/node_registry.c:61-81 | Whenever there is room, a run within the limits of the protocol that shows the effect: datagrams in gaps or above, a final report that claims exactly what was received, and the datagram 65535 |
| `LateArrivals.HarmlessWithoutRoom` | server/node_registry.c:61-81 | Without room no receivable continuation shows the effect: no record can be set any more, or no seal can shut out a datagram, or both runs accept the same reports |
| `LateArrivals.HarmlessWhenSeenOrSealed` | server/node_registry.c:126-137 | A duplicate, or a late datagram in a sealed session, is without effect in every continuation |
| `NodeAlerts.AlertsComeFromRecords` | server/node_registry.c:131-157 | The whole alert history of a node is determined by its record-setting datagrams |
| `NodeAlerts.WasAnomalousMeans` | server/node_registry.c:99-104 | The scan answers whether the stored set holds an anomalous value of that name; a missing one counts as normal |
| `RegistrySpec.StepIsLocal` | server/node_registry.c:17-22 | An operation changes at most the node it names, and only under its session |
| `RegistryLaws.NodesAreIndependent` | server/node_registry.c:61-158 | In every run a node is the fold of its own messages |
| `RegistryLaws.EveryRecordMeansItsHistory` | server/node_registry.c:117-158 | The meaning of every counter of every node, over every run of the server |
| `RegistryLaws.SealIsForever` | server/node_registry.c:66-78 | Nothing any client does after a final report changes its totals, raises the loss or sets a bit beyond it |
| `RegistryLaws.AlertHistoryIsRisingEdges` | server/node_registry.c:143-155 | In the global history the alerts of one variable of one node are its rising edges |
| `RegistryLaws.RegistrationIsWriteOnce` | server/node_registry.c:39-50 | Every run is a write-once map from ids to sessions of capacity 64, and HELLO answers what that map says |
| `RegistryLaws.BindingsNeverChange` | server/node_registry.c:39-50 | A binding is never changed or dropped |
| `RegistryLaws.DatagramsAreConserved` | server/node_registry.c:117-136 | datagrams_total = unknown + refused after final + unique + duplicates, and datagrams_invalid = malformed + refused after final, in every run |
| `RegistryLaws.PublishedSumsBracketReceived` | server/response_format.c:55-72 | udp_unknown + unique + duplicates <= udp_rx <= that sum + udp_invalid |
| `NodeRegistry.Registry.constructor` | server/node_registry.c:9-15 | The zeroed arrays stand for the empty registry |
| `NodeRegistry.Registry.FindNode` | server/node_registry.c:17-22 | Finds the slot of an id, or none |
| `NodeRegistry.Registry.CreateNode` | server/node_registry.c:25-36 | The first free slot becomes a blank node, or -1 when 64 are used; used slots stay a prefix |
| `NodeRegistry.Registry.RegisterNode` | server/node_registry.c:39-50 | Updates the arrays as HELLO specifies and answers its code |
| `NodeRegistry.Registry.InvalidDatagram` | server/node_registry.c:51-53 | Counts a malformed datagram |
| `NodeRegistry.Registry.CountReceived` | server/node_registry.c:56-58 | The bit-counting loop counts the received sequences below `attempts` |
| `NodeRegistry.Registry.UpdateLoss` | server/node_registry.c:54-60 | loss = max(0, sent - received below attempts), and no other field changes |
| `NodeRegistry.Registry.Report` | server/node_registry.c:61-81 | Updates the arrays as REPORT specifies and answers OK, UNKNOWN_NODE or BAD_FORMAT |
| `NodeRegistry.Registry.WasAnomalous` | server/node_registry.c:99-104 | The loop computes the specified verdict on the stored values |
| `NodeRegistry.Registry.AddAlert` | server/node_registry.c:106-115 | Overwriting the oldest cell appends to the history; the ring holds its last 128 |
| `NodeRegistry.Registry.RaiseAlerts` | server/node_registry.c:143-153 | The loop raises exactly the specified alerts and never overruns the caller's array of 8 |
| `NodeRegistry.Registry.SetBit` | server/node_registry.c:129-136 | Setting a bit adds that sequence to that node's set and no other |
| `NodeRegistry.Registry.RecordTelemetry` | server/node_registry.c:117-158 | Updates arrays, bitmap, ring and counters as the specification says and returns the new alerts, or -1 when refused |
| `Bitmap.OrSetsOneBit` | server/node_registry.c:129-136 | Or-ing a mask sets one bit and leaves the seven others |
| `AlertFanout.SubscriberFifo` | server/alert_subscribers.c:29-61 | In every interleaving, lines sent, the line in flight and the queue of a live subscription are together the alerts broadcast since it subscribed, in order |
| `AlertFanout.WireIsContiguous` | server/tcp_command_server.c:169-190 | The alerts that went out on a connection, evicted or not, are a gap-free prefix of those raised since it first subscribed, all after its own OK/SUBSCRIBED, and what it was given since it last subscribed is a prefix of those raised since then |
| `AlertFanout.ShutWireIsFrozen` | server/alert_subscribers.c:37-39 | Once a connection is shut down, nothing ever goes out on it again |
| `AlertFanout.EvictionHitsTheSubscriber` | server/alert_subscribers.c:37-39 | Eviction needs 32 queued lines, frees the slot, counts, and shuts down the connection that owned it |
| `AlertFanout.DescriptorsAreSafe` | server/tcp_command_server.c:169-224 | Each occupied slot holds the descriptor of one open connection, in service, that itself subscribed, despite reuse of numbers; no descriptor is in two slots |
| `AlertFanout.ClientsAreCounted` | server/tcp_command_server.c:202-224 | `clients` counts the connections that are set up, served or closing, and is at most 64 |
| `AlertFanout.CapsAreExact` | server/tcp_command_server.c:203-205 | A connection is admitted exactly while fewer than 64 are counted; a subscriber is given a line exactly while fewer than 32 are queued |
| `AlertFanout.EndIsFinal` | server/tcp_command_server.c:169-190 | After the answer to BYE, the end of input or a failed push, a connection never reads a command or sends a frame again |
| `AlertFanout.DrainIsBounded` | server/alert_subscribers.c:47-61 | Between two looks at its socket a connection thread sends at most 32 alerts |
| `AlertFanout.InvAlways` | server/tcp_command_server.c:169-224 | The invariant of threads, descriptors, slots and producer holds in every interleaving |
| `AlertFanout.NextKeepsInv` | server/tcp_command_server.c:169-190 | Every step of the producer, the accept loop or a connection thread keeps that invariant |
| `AlertSubscribers.Subscribers.constructor` | server/alert_subscribers.c:9-11 | All slots start free |
| `AlertSubscribers.Subscribers.Add` | server/alert_subscribers.c:13-22 | Idempotent; otherwise the last free slot becomes an empty queue, or -1 and nothing changes |
| `AlertSubscribers.Subscribers.Remove` | server/alert_subscribers.c:23-27 | Frees exactly the slots of that descriptor |
| `AlertSubscribers.Subscribers.Broadcast` | server/alert_subscribers.c:32-45 | Every queue gets the line, except that full ones are evicted, counted and shut down |
| `AlertSubscribers.Subscribers.PopLine` | server/alert_subscribers.c:51-56 | Takes the oldest line of that descriptor's queue, or none |
| `AlertSubscribers.EnqueueAppends` | server/alert_subscribers.c:41-43 | Writing at (head + count) mod 32 appends to the queue |
| `AlertSubscribers.DequeueDropsFirst` | server/alert_subscribers.c:55 | Advancing head mod 32 drops the oldest line |
| `LineReader.ReceiveLine` | server/socket_helpers.c:92-114 | The byte loop leaves the one-shot verdict on the bytes before the LF and consumes exactly through it; end of stream and errors end it at once |
| `LineReader.Finish` | server/socket_helpers.c:110-113 | One final CR is stripped; too long beats invalid; otherwise the text is in the buffer |
| `LineReader.FlagsDecide` | server/socket_helpers.c:103-113 | The flags kept byte by byte decide whether the stripped text is printable |
| `LineReader.FrameIsConsumedWhole` | server/socket_helpers.c:92-114 | A frame, good or bad, never shifts the next one |
| `TelepProtocol.ParsedMessage.constructor` | server/telep_protocol.h:11-16 | A buffer of 1024 bytes and eight argument slots |
| `TelepProtocol.ParsedMessage.Parse` | server/telep_protocol.c:21-33 | Accepts exactly the lines of 1 to 1023 printable non-space bytes with no empty part and at most eight arguments; the C strings left in the buffer are the parts |
| `TelepProtocol.ParsedMessage.SplitCopy` | server/telep_protocol.c:26-31 | The NUL-writing loop equals the one-shot split |
| `TelepProtocol.ParsedMessage.Part` | server/telep_protocol.h:11-16 | Reading an argument as a C string gives that part |
| `TelepProtocol.IsValidNodeId` | server/telep_protocol.c:66-74 | True exactly for 1 to 15 letters, digits, `_` and `-` |
| `TelepProtocol.IsValidSession` | server/telep_protocol.c:16-20 | True exactly for 32 lower-case hexadecimal digits |
| `TelepProtocol.NamesMean` | server/telep_protocol.c:66-74 | Ids and sessions byte by byte |
| `TelepProtocol.MessageMeans` | server/telep_protocol.c:21-33 | Messages in numbers: 1 to 1023 bytes from 33 to 126, at most nine parts, none empty |
| `TelepProtocol.ParseUnsignedInt` | server/telep_protocol.c:8-15 | The number a string of digits denotes if it is at most the limit, otherwise an error |
| `Decimal.NumberOfDigits` | server/telep_protocol.c:8-15 | Reading the decimal digits of a number gives it back |
| `Decimal.ValueRoundTrip` | client/telep.py:43-49 | A value printed with two decimals is read back as that value in hundredths |
| `Decimal.RoundedIsNearest` | client/telep.py:43-49 | The value written is within half a hundredth of the value given |
| `Decimal.ScientificText` | server/telep_protocol.c:56-59 | Any number text, signed or not, followed by an exponent is read as the number scaled by that power of ten |
| `Decimal.ExponentIsRead` | server/telep_protocol.c:56-59 | The digits of an exponent, with or without a minus sign, are read as that exponent |
| `Decimal.NumbersAreNumerals` | server/telep_protocol.c:55-59 | A text is read as a number if and only if it is a sign, digits around an optional point and an optional exponent, and it is worth all its digits moved by point and exponent |
| `Decimal.RoundedIsExact` | client/telep.py:43-49 | A value that already has at most two decimals is printed exactly |
| `Decimal.RoundedStaysInRange` | server/telep_protocol.c:49-59 | Rounding to hundredths never leaves a range with integer bounds |
| `Fields.SplitOfJoin` | client/telep.py:32-40 | Splitting a join of parts without the separator gives the parts back |
| `Fields.JoinOfSplit` | server/telep_protocol.c:26-31 | Joining the split parts gives the line back |
| `Measurements.ParseMeasurements` | server/telep_protocol.c:34-64 | The in-place parser accepts exactly the readable fields and stores their readings in order |
| `Measurements.TakeReading` | server/telep_protocol.c:41-61 | Cuts one pair at its `=` and reads it, leaving the rest of the buffer alone |
| `Measurements.AcceptedFieldIsSound` | server/telep_protocol.c:34-64 | An accepted field yields three to five distinct variables, each in its range |
| `Measurements.FieldIsSpelled` | server/telep_protocol.c:34-64 | A field is accepted if and only if it spells three to five different variables within -100 to 200, 0 to 100, 0 to 1000000, 0 to 1000, or OK and FAIL, and it is read as what it spells, in order |
| `Measurements.FormatMeasurements` | server/response_format.c:7-20 | The appending loop writes all pairs in order, separated by `;` |
| `Measurements.EncodeMeasurements` | client/telep.py:43-49 | The client's encoder writes the same text |
| `Measurements.FieldRoundTrip` | server/telep_protocol.c:34-64 | The server reads back every encoded set of in-range measurements, in hundredths |
| `Measurements.DecodedFieldIsEachPair` | client/telep.py:52-56 | Decoding what the server formats recovers each printed pair and nothing else |
| `UdpTelemetry.UdpServer.Handle` | server/udp_telemetry_server.c:24-53 | One datagram updates the registry as its meaning says, or counts as invalid; its alerts are then broadcast in order |
| `UdpTelemetry.UdpServer.Serve` | server/udp_telemetry_server.c:22-56 | After any number of datagrams the registry has seen each of them in order, and the queues were offered exactly the alerts it added to its history, in order |
| `UdpTelemetry.UdpServer.Screen` | server/udp_telemetry_server.c:27-33 | Lets through exactly one whole frame and leaves it as a C string |
| `UdpTelemetry.UdpServer.Interpret` | server/udp_telemetry_server.c:35-44 | The chain of checks on the parsed line equals its specification |
| `UdpTelemetry.UdpServer.Record` | server/udp_telemetry_server.c:49-53 | Records, then broadcasts each new alert in order |
| `UdpTelemetry.AcceptedIsSound` | server/udp_telemetry_server.c:27-44 | Whatever passes the chain is within the registry's limits |
| `UdpTelemetry.AcceptedExactly` | server/udp_telemetry_server.c:27-44 | A datagram is taken if and only if it is one frame of five parts: TELEMETRY, the id, the session, the sequence in digits up to 65535, and a field that spells the values |
| `UdpTelemetry.TelemetryIsEncoded` | client/node.py:98-99 | Every datagram of a valid node can be encoded |
| `UdpTelemetry.TelemetryRoundTrip` | server/udp_telemetry_server.c:27-44 | Every datagram of a valid node passes the whole chain with the same id, session, sequence, and values in hundredths |
| `UdpTelemetry.ShortSendIsRefused` | client/node.py:105 | No proper prefix of an encoded frame is taken for telemetry |
| `UdpTelemetry.BroadcastsCompose` | server/udp_telemetry_server.c:50-53 | Broadcasting datagram by datagram is broadcasting the alert history in order |
| `CommandServer.ParseRequest` | server/tcp_command_server.c:106-141 | The dispatcher's checks, in their order, equal the specified reading of a line |
| `CommandServer.ReadNumbers` | server/tcp_command_server.c:128-130 | The loop over the five numbers accepts exactly five numbers within their limits |
| `CommandServer.RequestsAreValid` | server/tcp_command_server.c:126-137 | What reaches the registry has valid names and numbers within its limits |
| `CommandServer.HandleCommand` | server/tcp_command_server.c:106-165 | Sends exactly the specified reply, changes the registry only for HELLO and REPORT and the table only for SUBSCRIBE, and closes only on BYE |
| `CommandServer.Answer` | server/tcp_command_server.c:126-164 | Every command but SUBSCRIBE sends its specified lines |
| `CommandServer.ReplyLast` | server/tcp_command_server.c:55-69 | GET_LAST answers NO_DATA, the stored values or UNKNOWN_NODE |
| `ReplyTexts.HelloIsTold` | server/tcp_command_server.c:155-161 | In every run the client of HELLO decodes OK REGISTERED, ERR 105 ID_IN_USE or ERR 104 SERVER_FULL, each exactly under the condition of the write-once map |
| `ReplyTexts.ReportIsTold` | server/tcp_command_server.c:126-137 | In every run the client of REPORT decodes OK REPORTED exactly when the registry accepts it, and otherwise ERR 102 UNKNOWN_NODE or ERR 100 BAD_FORMAT |
| `ReplyTexts.ControlIsTold` | client/node.py:77-80 | In every reachable state a truthful node's REPORT is answered with OK as its first part, and its HELLO with OK or SERVER_FULL |
| `ReplyTexts.SubscribeIsTold` | server/tcp_command_server.c:142-146 | SUBSCRIBE is answered OK SUBSCRIBED exactly when the descriptor then is in the table, which is when it was or there was room |
| `ReplyTexts.ByeIsTold` | server/tcp_command_server.c:138 | BYE is answered OK BYE |
| `ReplyTexts.ErrorIsTold` | server/telep_protocol.c:76-87 | The six error lines taken apart |
| `ReplyTexts.NoDataIsTold` | server/tcp_command_server.c:62-63 | GET_LAST for a node without data |
| `ListReplies.CountRegistered` | server/response_format.c:29-33 | Counts the registered nodes |
| `ListReplies.SumLost` | server/response_format.c:41-46 | Sums the loss over the registered nodes |
| `ListReplies.SystemSums` | server/response_format.c:55-64 | The nine accumulators are the sums over the registered nodes |
| `ListReplies.PublishedTotalsBalance` | server/response_format.c:55-72 | In every run the published totals balance: attempts = sent + omitted + send_errors |
| `ListReplies.ReplyNodeList` | server/tcp_command_server.c:36-53 | One row per registered node in registration order, a header with their number, and END |
| `ListReplies.ReplyAlertList` | server/tcp_command_server.c:71-87 | The exact last min(total, 128) alerts of the history, oldest first |
| `ReplyTexts.AlertListIsTold` | server/tcp_command_server.c:71-87 | Row i of n of GET_ALERTS is alert total - n + i, with node, kind and value in this order, where n is the lesser of total and 128 and the header says n |
| `ReplyTexts.NodeRowIsTold` | server/tcp_command_server.c:46-50 | A row of GET_NODES taken apart |
| `ListReplies.ReplyStats` | server/tcp_command_server.c:89-103 | One row per node, or the one row asked for, or UNKNOWN_NODE |
| `ReplyTexts.StatsRowIsTold` | server/response_format.c:48-54 | A row of STATS taken apart: its ten keys have the ten counters of the node |
| `ListReplies.IdsStayUnique` | server/node_registry.c:39-50 | No two slots ever have the same id |
| `ClientMessages.DecodeInvertsEncode` | client/telep.py:27-40 | Decoding an encoded message gives its parts back |
| `ClientMessages.EncodedExactly` | client/telep.py:27-35 | What can be encoded: parts that are not empty, of ASCII without the separator, CR, LF and NUL, in at most 1023 characters |
| `ClientMessages.ServerParsesEncoded` | server/telep_protocol.c:21-33 | The server reads an encoded frame as one line and takes it for a message exactly when it has at most eight arguments and only printable non-space bytes; its parts are the encoded ones |
| `ClientMessages.EveryMessageIsEncoded` | client/telep.py:27-35 | Every message the server accepts is what the encoder makes of its parts |
| `ClientMessages.ExtractIsFirst` | client/telep.py:89-102 | One extraction is the first line, or the first error, of the one-shot reading |
| `ClientMessages.MoreBytes` | client/telep.py:89-108 | Later bytes never change lines already read, nor undo an error |
| `ClientMessages.ChunkingDoesNotMatter` | client/telep.py:104-122 | However recv cuts the stream, the same lines come out, and the same error after the same lines |
| `ClientMessages.SizesAgree` | server/socket_helpers.c:80-89 | The client accepts a line if and only if send_text_line sends it |
| `ClientMessages.FrameVerdict` | client/telep.py:89-102 | A frame is oversized from 1024 bytes before its LF, an error with a byte beyond ASCII, and otherwise a line |
| `ClientMessages.WireRoundTrip` | server/socket_helpers.c:80-89 | Lines sent one after the other arrive as those lines |
| `AlertDemux.SeparationIsExact` | client/telep.py:110-122 | Wherever alerts fall among reply lines, the client separates them exactly if and only if no reply line looks like an alert |
| `AlertDemux.ListAnswer` | client/telep.py:124-134 | A list reply is returned as its header and its rows, without END |
| `AlertDemux.ReplyIsAnswered` | client/telep.py:124-134 | A request returns the reply due to its command and leaves exactly the lines after it |
| `AlertDemux.ConversationIsInStep` | client/telep.py:124-134 | In a conversation of any length the i-th request is given the i-th reply |
| `AlertDemux.ConversationSurvivesPushes` | client/telep.py:110-134 | The same with alerts pushed anywhere, while no reply line looks like one |
| `TelepConnections.TelepConnection.constructor` | client/telep.py:67-73 | A new connection has read nothing and holds no alerts |
| `TelepConnections.TelepConnection.ExtractLine` | client/telep.py:89-102 | Takes the first line off the buffer, or reports a partial line or an error |
| `TelepConnections.TelepConnection.Receive` | client/telep.py:104-108 | Appends what recv returns; what is still to be read stays the same |
| `TelepConnections.TelepConnection.ReadLine` | client/telep.py:110-122 | Returns the first line to come that is not an alert, or the error that ends the stream, and keeps every alert in order |
| `TelepConnections.TelepConnection.Request` | client/telep.py:124-134 | Its result is a function of the reply lines of the stream alone, not of the alerts among them or the chunks |
| `TelepConnections.TelepConnection.TakeAlerts` | client/telep.py:140-153 | Alerts handed out so far are exactly the alerts received, in order; within 256 turns everything available is drained |
| `TelepConnections.SendOneRequest` | client/telep.py:163-166 | On a fresh connection the result is a function of the bytes the socket delivers |
| `ListDelivery.ListIsDelivered` | client/telep.py:124-134 | A list arrives as its header and those rows that do not look like alerts; complete if and only if none does |
| `ListDelivery.NodeListIsDelivered` | server/tcp_command_server.c:36-53 | GET_NODES returns every node if and only if none is named ALERT |
| `ListDelivery.StatsAreDelivered` | server/tcp_command_server.c:89-103 | STATS without an argument likewise |
| `ListDelivery.StatsOfOneAreDelivered` | server/tcp_command_server.c:89-103 | STATS for one node returns its row if and only if the node is not named ALERT, and UNKNOWN_NODE for an unknown one |
| `ListDelivery.AlertListIsDelivered` | server/tcp_command_server.c:71-87 | GET_ALERTS returns every row, whatever the nodes are called |
| `ListDelivery.NodeNamedAlertIsMissing` | server/telep_protocol.c:66-74 | The concrete failure: one node named ALERT, and the client gets a header of 1 and no row |
| `ListDelivery.SocketCarriesLines` | client/telep.py:104-122 | A fresh connection reads the lines written, however they are delivered |
| `ListDelivery.PushedLineIsAlert` | server/alert_subscribers.c:41-42 | A broadcast line is recognised as an alert and fits into a frame |
| `ServerRuns.EveryStateIsSound` | server/udp_telemetry_server.c:24-53 | Whatever arrives on the sockets, ids are valid and unique, stored values are in range, and every alert fits into a frame |
| `ServerRuns.AlertsAreRisingEdgesAlways` | server/node_registry.c:143-155 | Whatever arrives on the sockets, the alerts of a variable of a node are its rising edges |
| `ServerRuns.AlertsCrossLimitsAlways` | server/node_registry.c:84-104 | Whatever arrives on the sockets, a node's alerts are exactly the readings that rose above 40, 85, 500 and 7, and the failures |
| `ServerRuns.AlertsAreToldAlways` | server/alert_subscribers.c:41-42 | Whatever arrives on the sockets, a subscriber decodes each pushed alert as ALERT, node, kind, value, and reads the value in hundredths |
| `ServerRuns.HandedOutAlways` | client/telep.py:140-153 | The same for what take_alerts hands out, row by row |
| `ServerRuns.StatsAreToldAlways` | server/response_format.c:48-54 | Whatever arrives on the sockets, the client of STATS finds each node's ten counters under their names |
| `ServerRuns.ReportRoundTrip` | server/tcp_command_server.c:126-137 | A REPORT encoded by a node reaches the registry as exactly its totals |
| `ServerRuns.HelloRoundTrip` | server/tcp_command_server.c:155-161 | A HELLO encoded by a node reaches the registry |
| `ServerRuns.RequestRoundTrip` | server/tcp_command_server.c:106-165 | Every request a client can make is understood as that request |
| `ServerRuns.OnlyItsOwnText` | server/tcp_command_server.c:106-165 | Conversely, only its own text is taken for a request; a REPORT may have leading zeros in its numbers, which still denote its totals and flag |
| `ServerRuns.RefusalCodes` | server/tcp_command_server.c:169-190 | TOO_LONG exactly from 1024 bytes, UNKNOWN_CMD exactly for a message that begins with none of the nine commands, and BAD_FORMAT for everything else refused |
| `ServerRuns.CrIsOptional` | server/socket_helpers.c:110-112 | One CR before the LF makes no difference |
| `ServerRuns.ReportIsReadExactly` | server/tcp_command_server.c:126-137 | A line is read as a REPORT of given totals if and only if its eight parts spell them |
| `ServerRuns.LastMeasurementRoundTrip` | server/tcp_command_server.c:55-69 | In every run, the client of GET_LAST decodes exactly the stored variables |
| `ServerRuns.NodeListAlways` | client/telep.py:110-134 | In every run, GET_NODES is complete and alerts stay apart if and only if no node is registered as ALERT |
| `ServerRuns.NodeListFromBytes` | client/telep.py:163-166 | From bytes to rows: for any inputs to the server, any pushed alerts and any cutting of the stream, GET_NODES on a fresh connection returns every registered node if and only if none is named ALERT |
| `Conversations.EveryConversationIsInStep` | client/telep.py:124-134 | In every conversation of requests that can be encoded, SUBSCRIBE and malformed ones included, whatever the states of the server and wherever alerts are pushed, the i-th request returns what is left of the i-th answer; that is the whole answer if and only if none of its rows is of a node named ALERT, and the alerts stay apart if and only if that holds of all |
| `Conversations.ConversationStaysInStep` | client/telep.py:110-134 | Requests and replies stay in step even when rows are mistaken for alerts |
| `Conversations.EveryReplyFits` | server/tcp_command_server.c:106-165 | Every answer of the server, an error included, has the shape the client waits for, and loses a row exactly when a node named ALERT is listed |

## Left out

- Sockets, DNS, polling and thread start-up: only their outcomes are inputs.
- Deadlines, time stamps, `last_seen` and the ACTIVE flag: texts that depend on a clock are inputs of the replies.
- `server/http_status_server.c`, `client/operator_gui.py`, `client/operator_cli.py`: presentation; the ring view is covered by GET_ALERTS.
- `server/service_health.c`, `server/main.c`: heartbeat flags and start-up only.
- Decimal.ValueRoundTrip: exact reals instead of IEEE doubles; ties of `%.2f`, negative zero and the rounding inside `strtod` are not modelled.
- Measurements.ParseMeasurements: texts are read as exact reals; a nonzero text too small for a double, which `strtod` reports as a range error, is accepted by the model.
- DropSchedule.OmissionsMeetQuota: exact real arithmetic for `(sequence + 1) * percentage / 100`. In Python's doubles the quota itself is rounded: at a percentage of 0.57, `int(10000 * 0.57 / 100)` and the omissions of 10000 attempts are 56, where the exact quota is 57. StepsMeetQuota states what holds in either arithmetic as long as the quota moves in single steps.
- DropSchedule.EveryWindowIsFair: over exact reals, like OmissionsMeetQuota.
- DropSchedule.OmissionsTrackPercentage: over exact reals, like OmissionsMeetQuota.
- DropSchedule.WindowsTrackPercentage: over exact reals, like OmissionsMeetQuota.
- ReplyTexts.StatsRowIsTold: for counters that fit the C type that prints them.
- SessionProtocol.ScheduleIsKeptAlways: the quota is over exact reals, like OmissionsMeetQuota; the balance of the counters does not depend on it.
- NodeSender.Sender.Loop: the quota is over exact reals, like OmissionsMeetQuota.
- Wrap-around of `int` and `long` counters: counters are unbounded.
- Truncation by `snprintf`, other than the `%.800s` of a STATS row: lines are written whole; those of in-range data are far below the limit.
- The text of GET_STATUS: its sums are proved, the line itself is an input.
- `reply_*` functions work on a copy of the registry: the model reads the registry itself, since the copy is made under the mutex.
- Arrays of C structs are arrays of record values, so aliasing between a struct and its fields is not modelled.
- TelepConnections.TelepConnection.constructor: one connection per object; calling `connect` again on the same object is not modelled.
- `client/node.py` `main` is modelled twice: its sending loop as a class, and its control flow as steps of the session protocol.
- UUID generation, argument parsing and simulated measurements.
