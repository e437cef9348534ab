# The ESP-MQTT client, modelled and proved in Dafny

The sensor publishes through the MQTT client component `espressif__mqtt`. This project models that client and proves what
its protocol engine keeps, what its packet code preserves, and exactly where it does not do what its documentation or the
standard says. `dafny verify dfyconfig.toml` checks all of it.

## How the model is laid out

* **Protocol machine.** `Protocol.dfy` is the client as a state machine over its outbox: each body that the program runs under
  its lock is one step, and a log, which the program does not have, records what was stored, written and removed.
  `Invariants.dfy` proves one invariant of every run and `Guarantees.dfy` draws the conclusions. `Provenance.dfy` says where
  stored packets come from and why they go. `Effects.dfy` says what each input does, item by item, without the pieces that the
  steps are made of; `Runs.dfy` follows a message from call to delivery. `SharedIds.dfy` is about runs in which an id is in use twice. `Counterexample.dfy` is
  a run in which more packets are in flight than section 3.3.4 of MQTT 5.0 allows.
* **Outbox.** `Outbox.dfy` is the linked list with its tail pointer; `OutboxModel.dfy` is the sequence it refines.
* **Packets.** `Packets.dfy` and `VarInt.dfy` lay down the bytes of sections 2 and 3 of the standards. `Connection.dfy`,
  `Mqtt3.dfy` and `Mqtt5.dfy` build packets in the output buffer step by step; `Parse3.dfy` and `Parse5.dfy` read them back.
  `Wire.dfy` writes bytes out, and `Handshake.dfy` plays the exchanges between two ends, from bytes to bytes.
  `PacketId.dfy` is about the order of packet ids, and `Fragments.dfy` about the two fields that a message larger than the
  output buffer leaves behind, over whole runs.
* **The client object.** `Session.dfy` (outbox, phase, counter, quota) and `Client.dfy` (calls, acks, task passes, transport).
  Every method is proved to take the step of the protocol machine that its contract names, in the ghost field `state`, to put
  the bytes on the wire that its contract names, and to draw no packet id but the one it names. `Calls.dfy` says what a publish
  or enqueue call comes to. The C structure's fields are grouped into these objects.
* **Receiving.** `Receiver.dfy` cuts packets out of a byte stream; `Delivery.dfy` hands a payload on in pieces, and
  `Aliases.dfy` keeps the topics that the broker named with an alias.

The network (`Network.dfy`) is a sequence of answers, one for each read or write, each of which may be short, a time-out or a
failure. Nothing is assumed of them, so what is proved holds for every split of a stream into reads and time-outs; and contracts
name the answers, so that a failure is reported only where there was one. Time is an argument.

## What is assumed

* Allocation succeeds; packets are below 2^28 bytes, strings below 2^16, the buffers at least 16 bytes.
* One caller at a time, and a handler called during a step does not call back into the client.
* What the broker wants answered, and PUBREC, carries a packet id other than 0. Steps that store a packet use an id that no
  stored packet has: in incremental mode each call of the client takes the next id (`Client.Client.Publish` and its like), and
  no stored packet has it while none stays stored for 65535 further ids (`PacketId.IncrementalRunIsLegal`). In random mode
  nothing ensures it; `SharedIds.dfy` does without.
* Time does not run backwards, so that differences of ticks are not negative where the program computes them unsigned.

## Where the code and its promises part

* In flight can exceed Receive Maximum: a PUBCOMP for a packet of an earlier connection gives back a place that a packet of
  this one holds, and the next PUBLISH is one too many for section 3.3.4 of MQTT 5.0 (`Counterexample.OverQuota`; the exact
  account is `Guarantees.QuotaConservation`).
* Sending is not first in, first out, as `docs/en/index.rst:182` says (`Guarantees.PublishOvertakes`). A requeued SUBSCRIBE can
  wait behind a publish that the quota holds back (`Guarantees.NothingToSend`).
* With an id in use twice, a sent packet counts as sent if and only if no earlier one has its id (`SharedIds.SentLandsExactly`).
  Otherwise it stays queued and, without a quota, is written on every pass, DUP never added (`SharedIds.WrittenOnEveryPass`); the
  earlier one is put back to transmitted, from where it is written again after its PUBREC (`SharedIds.WrittenAfterPubrec`).
  Requeueing after CONNACK ends all the same (`SharedIds.RequeueAlwaysEnds`).
* A stored publish that did not fit the output buffer leaves its payload offset behind. A later publish that fits then writes
  bytes beyond its end if and only if the offset lies beyond its own header (`Client.WriteFragments`, `Client.StaleOffset`): if
  and only if a large message was left unwritten, no request, connection or written publish came since, and what the packets
  built since took off the offset leaves it there (`Fragments.ExcessExactly`).
* A large QoS 0 message that is neither stored nor written leaves its length behind, and the next control packets claim it
  (`Client.StaleLength`; exactly when: `Fragments.LengthLeftExactly`, `Fragments.ControlPacketsExactly`).
* With MQTT 3.1.1, a SUBACK that answers 126 topics or more reads as id 0, and its SUBSCRIBE stays stored
  (`Parse3.IdReadsExactly`, `Client.LongSubackIsLost`; MQTT 5.0 has no such limit, `Parse5.IdReads5`).
* A packet of four or five bytes whose last bytes have the top bit set, resumed after one of them, swallows bytes of the next
  packet (`Receiver.PacketComesOut`, and on an example `Receiver.SwallowsPingresp`).
* The room check for a publish larger than the input buffer forgets two bytes. In that case the topic is lost or a wrong total is
  announced (`Delivery.AnnouncesExactly`).
* A time-out in the middle of a streamed payload is no error, and the rest of the payload is then read as packets
  (`Delivery.Stream`, `Delivery.PayloadTakenForPacket`).
* With response information from the server, the response topic loses its last byte (`Parse5.PropertiesReadBackExactly`,
  `Parse5.ResponseTopicSeen`).
* Topic aliases of the broker outlive the connection on which they were set, for which section 3.3.2.3.4 of MQTT 5.0 limits
  them (`Aliases.MeansLastNamed`); and topics are compared up to their first 0 byte only (`Aliases.UpdatedExactly`,
  `Aliases.ZeroHidesChange`), which matters if the broker breaks section 1.5.4.
* An unsubscribe call is not held against the outbox limit (`Guarantees.UnsubscribeIsUnchecked`).

## Model

| member | source | states |
|---|---|---|
| `Bytes.FirstByteFields` | esp-code/sensor/managed_components/espressif__mqtt/lib/include/mqtt_msg.h:71-98 | type, DUP, QoS and RETAIN put into the first byte are what the getters read from it |
| `Bytes.WithDupFields` | esp-code/sensor/managed_components/espressif__mqtt/lib/include/mqtt_msg.h:87-90 | setting DUP changes that bit and no other, and a second time nothing |
| `Bytes.MasksAreDivisions` | esp-code/sensor/managed_components/espressif__mqtt/lib/include/mqtt_msg.h:71-98 | the masks and shifts of the C getters, as bit vectors, are the arithmetic used here |
| `VarInt.RoundTrip` | esp-code/sensor/managed_components/espressif__mqtt/lib/mqtt5_msg.c:42-84 | a variable byte integer reads back as what was written, and with exactly its bytes, whatever follows |
| `VarInt.FourBytes` | esp-code/sensor/managed_components/espressif__mqtt/lib/mqtt5_msg.c:42-58 | four bytes are enough if and only if the number is below 2^28 |
| `VarInt.Minimal` | esp-code/sensor/managed_components/espressif__mqtt/lib/mqtt5_msg.c:42-58 | no other spelling of the same number is shorter (section 1.5.5 of MQTT 5.0) |
| `Outbox.Outbox.InsertTail` | esp-code/sensor/managed_components/espressif__mqtt/test/host/mocks/include/sys/queue.h:26-30 | tail insertion keeps head, links and tail pointer consistent and appends one item |
| `Outbox.Outbox.Remove` | esp-code/sensor/managed_components/espressif__mqtt/test/host/mocks/include/sys/queue.h:47-70 | removal, at the head or after a walk, keeps head, links and tail pointer consistent and drops one item |
| `Outbox.Outbox.Enqueue` | esp-code/sensor/managed_components/espressif__mqtt/lib/mqtt_outbox.c:47-73 | the list of stored packets grows at the end by header bytes plus remaining bytes, in a buffer of its own |
| `Outbox.Outbox.Get` | esp-code/sensor/managed_components/espressif__mqtt/lib/mqtt_outbox.c:75-84 | the first item with the id, null if there is none |
| `Outbox.Outbox.Dequeue` | esp-code/sensor/managed_components/espressif__mqtt/lib/mqtt_outbox.c:86-99 | the first item in the asked state, null if there is none |
| `Outbox.Outbox.DeleteItem` | esp-code/sensor/managed_components/espressif__mqtt/lib/mqtt_outbox.c:101-116 | removes the item with that handle, and fails if and only if it is not stored |
| `Outbox.Outbox.Delete` | esp-code/sensor/managed_components/espressif__mqtt/lib/mqtt_outbox.c:131-146 | removes the first item with id and type; nothing else changes |
| `Outbox.Outbox.SetPending` | esp-code/sensor/managed_components/espressif__mqtt/lib/mqtt_outbox.c:147-157 | changes the state of the first item with the id |
| `Outbox.Outbox.SetTick` | esp-code/sensor/managed_components/espressif__mqtt/lib/mqtt_outbox.c:168-178 | changes the tick of the first item with the id |
| `Outbox.Outbox.DeleteSingleExpired` | esp-code/sensor/managed_components/espressif__mqtt/lib/mqtt_outbox.c:180-196 | removes the first overdue item and returns its id, or -1 |
| `Outbox.Outbox.DeleteExpired` | esp-code/sensor/managed_components/espressif__mqtt/lib/mqtt_outbox.c:198-213 | one walk leaves exactly the items that are not overdue, in order |
| `Outbox.Outbox.GetSize` | esp-code/sensor/managed_components/espressif__mqtt/lib/mqtt_outbox.c:215-218 | the size kept is the sum of the stored lengths |
| `Outbox.Outbox.DeleteAllItems` | esp-code/sensor/managed_components/espressif__mqtt/lib/mqtt_outbox.c:220-230 | nothing is stored, and the size is 0 |
| `OutboxModel.SingleDeletionsReachKeep` | esp-code/sensor/managed_components/espressif__mqtt/mqtt_client.c:1920-1940 | expiring one item at a time until none is left is expiring all in one walk |
| `OutboxModel.RequeueEnds` | esp-code/sensor/managed_components/espressif__mqtt/mqtt_client.c:847-880 | with the condition below, as many passes as there are transmitted items requeue them all: order and acknowledged items unchanged, DUP on exactly the publishes with QoS > 0 |
| `OutboxModel.RequeueTerminatesExactly` | esp-code/sensor/managed_components/espressif__mqtt/mqtt_client.c:847-880 | over any list, reachable or not, the requeue loop ends if and only if each transmitted item is the first with its id |
| `SharedIds.RequeueAlwaysEnds` | esp-code/sensor/managed_components/espressif__mqtt/mqtt_client.c:847-880 | in every run, ids in use twice or not, each transmitted item is the first with its id, so the loop ends with the intended result |
| `Client.RunGives` | esp-code/sensor/managed_components/espressif__mqtt/mqtt_client.c:847-880 | so the stored packets of every run are as the methods of the client need them |
| `Invariants.StepKeeps` | esp-code/sensor/managed_components/espressif__mqtt/mqtt_client.c:1972-2178 | every call, pass, received packet and failure keeps the invariant of all that follows |
| `Invariants.Reachable` | esp-code/sensor/managed_components/espressif__mqtt/mqtt_client.c:1972-2178 | so it holds after every run |
| `Invariants.ExpireLeaves` | esp-code/sensor/managed_components/espressif__mqtt/mqtt_client.c:1920-1940 | what expiry leaves in the protocol machine is what one filtering walk leaves |
| `Guarantees.QuotaConservation` | esp-code/sensor/managed_components/espressif__mqtt/mqtt_client.c:2079-2118 | counter + carried-over completions = packets in flight + packets lost to expiry or stop + completions at counter 0, in every reachable state |
| `Guarantees.InFlightBound` | esp-code/sensor/managed_components/espressif__mqtt/mqtt_client.c:2637-2690 | without carried-over completions the packets in flight respect Receive Maximum; without losses too, the counter is their number; in general they respect it if and only if counter + carried-over completions is at most Receive Maximum + losses + completions at counter 0 |
| `Counterexample.OverQuota` | esp-code/sensor/managed_components/espressif__mqtt/mqtt_client.c:1796-1811 | with one, they need not: ten legal steps, of a broker that sends PUBCOMP only after the PUBREL it was sent, end with two packets in flight where one is allowed |
| `Guarantees.QuotaBound` | esp-code/sensor/managed_components/espressif__mqtt/mqtt5_client.c:381-390 | while connected the counter is at most Receive Maximum, whatever acks arrive |
| `Guarantees.CounterNeverWraps` | esp-code/sensor/managed_components/espressif__mqtt/mqtt5_client.c:25-37 | every step moves the 16-bit counter by at most one, or resets it: it never wraps up or down |
| `Guarantees.Qos2Safety` | esp-code/sensor/managed_components/espressif__mqtt/mqtt_client.c:1749-1769 | after PUBREC no PUBLISH is written under the id until another packet is stored under it, reconnects included (section 4.3.3 of MQTT 5.0) |
| `SharedIds.SentLandsExactly` | esp-code/sensor/managed_components/espressif__mqtt/mqtt_client.c:2106-2108 | after a successful send an item is transmitted if and only if no earlier item has its id; otherwise the first of those is, and the sent one is unchanged |
| `SharedIds.PassSendsOneExactly` | esp-code/sensor/managed_components/espressif__mqtt/mqtt_client.c:2079-2118 | a pass that sends the first queued item leaves one less queued if and only if its id is not taken |
| `SharedIds.WrittenOnEveryPass` | esp-code/sensor/managed_components/espressif__mqtt/mqtt_client.c:2079-2118 | with no quota, an item whose id is taken is written on every pass, the same bytes each time, DUP never added, and stays queued |
| `SharedIds.WrittenAfterPubrec` | esp-code/sensor/managed_components/espressif__mqtt/mqtt_client.c:2120-2128 | six steps, legal but for one id, in which a PUBLISH is written again after its PUBREC |
| `Guarantees.WritesAreHonest` | esp-code/sensor/managed_components/espressif__mqtt/mqtt_client.c:1848-1871 | a written PUBLISH has DUP if and only if its QoS is above 0 and an earlier write of the packet completed; it is the stored packet, DUP aside |
| `Guarantees.OneFate` | esp-code/sensor/managed_components/espressif__mqtt/mqtt_client.c:1440-1449 | each packet ever stored is in the outbox or was removed, once: completed, dropped as sent QoS 0, expired or cleared |
| `Provenance.RemovalHasCause` | esp-code/sensor/managed_components/espressif__mqtt/mqtt_client.c:1730-1811 | an item goes only by an ack for its id and kind, by a completed write if it is a QoS 0 publish, by its age, or at stop; the log tells which ack or write it was |
| `Provenance.StepTraced` | esp-code/sensor/managed_components/espressif__mqtt/mqtt_client.c:1972-2178 | every item after a step was there before, or is the one the call stored; only PUBREC for its id acknowledges it, and only a connection queues it again |
| `Guarantees.DuplicateAck` | esp-code/sensor/managed_components/espressif__mqtt/mqtt_client.c:1730-1811 | an ack received twice removes nothing more |
| `Effects.AckEnds` | esp-code/sensor/managed_components/espressif__mqtt/mqtt_client.c:1730-1811 | the converse: an ack removes the request with its id and kind and no other, and a completed publish lowers a positive count by one |
| `Effects.AckOfNothing` | esp-code/sensor/managed_components/espressif__mqtt/mqtt_client.c:1440-1449 | an ack that answers no stored request changes nothing |
| `Effects.PubrecAcknowledges` | esp-code/sensor/managed_components/espressif__mqtt/mqtt_client.c:1749-1769 | a PUBREC acknowledges the item with its id and changes nothing else |
| `Effects.PubrecOfNothing` | esp-code/sensor/managed_components/espressif__mqtt/mqtt_client.c:1749-1769 | a PUBREC for an id that no item has changes no item |
| `Effects.EnqueueStores` | esp-code/sensor/managed_components/espressif__mqtt/mqtt_client.c:2532-2566 | in every phase an enqueue call within the limit stores its message last and queued, if it has QoS > 0 or is to be stored; any other changes nothing |
| `Effects.PublishStores` | esp-code/sensor/managed_components/espressif__mqtt/mqtt_client.c:2616-2704 | in every phase a publish call with QoS > 0 within the limit stores its message last: transmitted and counted if it was written at once, else queued; a failed write ends the connection |
| `Effects.PublishPasses` | esp-code/sensor/managed_components/espressif__mqtt/mqtt_client.c:2606-2704 | beyond the limit nothing happens; a QoS 0 publish is written at once or not at all, and never stored |
| `Effects.RequestWaits` | esp-code/sensor/managed_components/espressif__mqtt/mqtt_client.c:2354-2498 | an accepted request waits as transmitted, written or not; the number of queued items stays, and so does the connection |
| `Effects.ChosenExactly` | esp-code/sensor/managed_components/espressif__mqtt/mqtt_client.c:2079-2096 | a pass chooses the first queued item, or, if that is a publish that the quota holds back, the first queued QoS 0 publish |
| `Effects.PassSends` | esp-code/sensor/managed_components/espressif__mqtt/mqtt_client.c:2098-2118 | the chosen item is written as it is stored; then a QoS 0 publish is gone, anything else transmitted with the time of the pass, and a publish counted; a failed write ends the connection and changes no item |
| `Effects.PassSendsAgain` | esp-code/sensor/managed_components/espressif__mqtt/mqtt_client.c:2119-2133 | a pass that is due and finds nothing to send writes the first transmitted item again, a publish with DUP, if and only if it is older than the time-out, and PUBREL under the same condition on the first acknowledged item; the connection ends if and only if one of these writes fails |
| `Effects.ExpiryExactly` | esp-code/sensor/managed_components/espressif__mqtt/mqtt_client.c:1920-1940 | expiry removes exactly the items older than its time-out |
| `Effects.ConnackTakesOver` | esp-code/sensor/managed_components/espressif__mqtt/mqtt_client.c:944-951 | an accepted connection takes over the quota announced with count 0, and with MQTT 5.0 queues exactly the transmitted items again, DUP set |
| `Effects.StopClears` | esp-code/sensor/managed_components/espressif__mqtt/mqtt_client.c:2183-2187 | the end of the task empties the outbox |
| `Effects.PhaseAfter` | esp-code/sensor/managed_components/espressif__mqtt/mqtt_client.c:1972-2178 | the phase after every step: a connection lasts until abort, stop or a failed write of a publish, a pass or a PUBREL |
| `Runs.OfflineIsDelivered` | esp-code/sensor/managed_components/espressif__mqtt/mqtt_client.c:2532-2566 | a message accepted without a connection is written, as it was stored, by as many successful passes after the next CONNACK as items are then queued, if the quota has room for what is queued |
| `Runs.RequestWrittenOnce` | esp-code/sensor/managed_components/espressif__mqtt/mqtt_client.c:2420-2432 | an accepted request is written once; no later pass chooses it, and it is written again only by retransmissions that are due, until a connection of MQTT 5.0 queues it again |
| `Runs.AnnouncedQuota` | esp-code/sensor/managed_components/espressif__mqtt/mqtt_client.c:944-951 | after a CONNACK the quota in force is the one it announced, and packets in flight respect it unless completions are carried over |
| `Guarantees.PassSendsOne` | esp-code/sensor/managed_components/espressif__mqtt/mqtt_client.c:2079-2118 | a pass that can send lowers the number of queued items by exactly one |
| `Guarantees.NothingToSend` | esp-code/sensor/managed_components/espressif__mqtt/mqtt_client.c:2080-2096 | a pass can send nothing if and only if nothing is queued, or quota is used up, the first queued item counts and no QoS 0 publish is queued |
| `Guarantees.SentInListOrder` | esp-code/sensor/managed_components/espressif__mqtt/mqtt_client.c:2080-2096 | the task sends packets with an id in list order |
| `Guarantees.Drains` | esp-code/sensor/managed_components/espressif__mqtt/mqtt_client.c:2079-2118 | as many successful passes as there are queued items send all that can be sent |
| `Guarantees.PublishOvertakes` | esp-code/sensor/managed_components/espressif__mqtt/mqtt_client.c:2616-2690 | sending is not first in, first out: a publish call overtakes everything queued if and only if connected with room in the quota |
| `Guarantees.Backpressure` | esp-code/sensor/managed_components/espressif__mqtt/mqtt_client.c:2606-2611 | with a limit set, only UNSUBSCRIBE packets take the outbox beyond the limit plus one output buffer |
| `Guarantees.BackpressureBound` | esp-code/sensor/managed_components/espressif__mqtt/mqtt_client.c:2723-2727 | so without a stored UNSUBSCRIBE the outbox stays below that bound |
| `Guarantees.UnsubscribeIsUnchecked` | esp-code/sensor/managed_components/espressif__mqtt/mqtt_client.c:2439-2498 | an unsubscribe call is stored whatever the limit says |
| `Connection.Connection.AllocateId` | esp-code/sensor/managed_components/espressif__mqtt/lib/mqtt_msg.c:38-48 | the id given, or the next one that is not 0 |
| `PacketId.SameIdExactly` | esp-code/sensor/managed_components/espressif__mqtt/lib/mqtt_msg.c:38-48 | two allocations in order give the same id if and only if a multiple of 65535 lies between them |
| `PacketId.WindowDistinct` | esp-code/sensor/managed_components/espressif__mqtt/lib/mqtt_msg.c:38-48 | any 65535 in a row are pairwise distinct, across the wrap-around |
| `PacketId.FreshExactly` | esp-code/sensor/managed_components/espressif__mqtt/lib/mqtt_msg.c:38-48 | the next id is free if and only if no stored packet is a multiple of 65535 allocations old |
| `PacketId.IncrementalRunIsLegal` | esp-code/sensor/managed_components/espressif__mqtt/lib/mqtt_msg.c:38-48 | in incremental mode, where each call takes the next id as the calls of the client promise, a run uses each id at most once at a time while no packet stays stored for 65535 further ids, so all guarantees hold of it |
| `Connection.GenerateVariableLen` | esp-code/sensor/managed_components/espressif__mqtt/lib/mqtt5_msg.c:42-58 | the loop writes the variable byte integer, of at most four bytes |
| `Connection.Connection.AppendString` | esp-code/sensor/managed_components/espressif__mqtt/lib/mqtt_msg.c:25-36 | length and bytes of a string are appended, or nothing if they do not fit |
| `Connection.Connection.AppendMessageId` | esp-code/sensor/managed_components/espressif__mqtt/lib/mqtt_msg.c:38-57 | the id is appended, or 0 returned if it does not fit; a given id leaves the last id as it is, and a drawn one becomes the last id, used up even if it does not fit |
| `Connection.Connection.FiniMessage` | esp-code/sensor/managed_components/espressif__mqtt/lib/mqtt_msg.c:72-118 | type byte and length go back to front into the gap; the length claimed is that of the message or a fragment length left behind |
| `Mqtt3.MsgPublish` | esp-code/sensor/managed_components/espressif__mqtt/lib/mqtt_msg.c:436-478 | refuses exactly an empty topic, a null payload with a length, and a header that does not fit; else the packet stands in the buffer, whole or cut at its end |
| `Mqtt3.MsgAck` | esp-code/sensor/managed_components/espressif__mqtt/lib/mqtt_msg.c:480-522 | PUBACK, PUBREC, PUBREL, PUBCOMP with this id and flags |
| `Mqtt3.MsgSubscribe` | esp-code/sensor/managed_components/espressif__mqtt/lib/mqtt_msg.c:524-551 | SUBSCRIBE with all topics in order, refused exactly if a filter is empty or they do not fit |
| `Mqtt3.MsgUnsubscribe` | esp-code/sensor/managed_components/espressif__mqtt/lib/mqtt_msg.c:553-570 | UNSUBSCRIBE with this topic, refused exactly if it is empty or does not fit |
| `Mqtt3.MsgEmpty` | esp-code/sensor/managed_components/espressif__mqtt/lib/mqtt_msg.c:572-592 | PINGREQ and DISCONNECT are a header alone |
| `Mqtt5.ShiftUp` | esp-code/sensor/managed_components/espressif__mqtt/lib/mqtt5_msg.c:98-108 | the move in place, last byte first, copies the block and touches nothing before it |
| `Mqtt5.UpdatePropertyLenValue` | esp-code/sensor/managed_components/espressif__mqtt/lib/mqtt5_msg.c:91-115 | prefix, reserved byte, properties become prefix, shortest length, same properties; or nothing changes if that does not fit |
| `Mqtt5.AppendProperty` | esp-code/sensor/managed_components/espressif__mqtt/lib/mqtt5_msg.c:117-150 | identifier, number in that width and data are appended, or nothing if they do not fit |
| `Mqtt5.AddProperties` | esp-code/sensor/managed_components/espressif__mqtt/lib/mqtt5_msg.c:1090-1150 | all properties that were set, in order, or failure exactly if they do not fit |
| `Mqtt5.MsgPublish5` | esp-code/sensor/managed_components/espressif__mqtt/lib/mqtt5_msg.c:1062-1172 | as for 3.1.1, with the property block; an empty topic is allowed with a topic alias |
| `Mqtt5.MsgAck5` | esp-code/sensor/managed_components/espressif__mqtt/lib/mqtt5_msg.c:1409-1471 | acks with id, reason code 0 and no properties |
| `Mqtt5.MsgSubscribe5` | esp-code/sensor/managed_components/espressif__mqtt/lib/mqtt5_msg.c:1233-1318 | SUBSCRIBE without properties |
| `Mqtt5.MsgUnsubscribe5` | esp-code/sensor/managed_components/espressif__mqtt/lib/mqtt5_msg.c:1354-1407 | UNSUBSCRIBE without properties |
| `Mqtt5.MsgDisconnect5` | esp-code/sensor/managed_components/espressif__mqtt/lib/mqtt5_msg.c:1320-1352 | DISCONNECT with reason code 0 and no properties |
| `Parse3.GetTotalLength` | esp-code/sensor/managed_components/espressif__mqtt/lib/mqtt_msg.c:120-141 | header length and total length, from at most four length bytes |
| `Parse3.GetPublishTopic` | esp-code/sensor/managed_components/espressif__mqtt/lib/mqtt_msg.c:177-202 | the topic of a PUBLISH, or null |
| `Parse3.GetPublishData` | esp-code/sensor/managed_components/espressif__mqtt/lib/mqtt_msg.c:204-255 | the payload received so far, or null |
| `Parse3.GetId` | esp-code/sensor/managed_components/espressif__mqtt/lib/mqtt_msg.c:270-334 | the id, 0 if there is none |
| `Parse3.HeaderReads` | esp-code/sensor/managed_components/espressif__mqtt/lib/mqtt_msg.c:120-141 | a header is read as the length it claims |
| `Parse3.HonestExactly` | esp-code/sensor/managed_components/espressif__mqtt/lib/mqtt_msg.c:72-94 | a control packet states its own length if and only if no fragment length was left behind when it was begun (or one that happens to fit) |
| `Fragments.LengthLeftExactly` | esp-code/sensor/managed_components/espressif__mqtt/mqtt_client.c:2532-2566 | in every run a length is left behind if and only if a message was dropped since which nothing but control packets was built |
| `Fragments.ControlPacketsExactly` | esp-code/sensor/managed_components/espressif__mqtt/lib/mqtt_msg.c:72-94 | in every run a control packet states its true length if and only if no dropped large message came last, control packets aside |
| `Fragments.ExcessExactly` | esp-code/sensor/managed_components/espressif__mqtt/mqtt_client.c:2646-2677 | in every run a publish that fits would write bytes beyond its end if and only if a large message was left unwritten, nothing since reset the offset, and what later packets took off leaves it beyond the header of the publish |
| `Parse3.FlagsAreValid` | esp-code/sensor/managed_components/espressif__mqtt/lib/mqtt_msg.c:594-632 | every packet type built, and a publish sent again, passes the flag check |
| `Parse3.PublishReadsBack` | esp-code/sensor/managed_components/espressif__mqtt/lib/mqtt_msg.c:177-334 | topic, id, total length and the payload received read back from any part of a built PUBLISH that holds its header |
| `Parse3.IdReadsExactly` | esp-code/sensor/managed_components/espressif__mqtt/lib/mqtt_msg.c:316-329 | the id of an ack or request is found if and only if its remaining length is spelt with one byte |
| `Parse5.GetVariableLen` | esp-code/sensor/managed_components/espressif__mqtt/lib/mqtt5_msg.c:60-84 | the loop reads at most four bytes; an integer without an end counts as 0 of 0 bytes |
| `Parse5.LengthReads` | esp-code/sensor/managed_components/espressif__mqtt/lib/mqtt5_msg.c:60-84 | it reads back what was encoded |
| `Parse5.ParseProperties` | esp-code/sensor/managed_components/espressif__mqtt/lib/mqtt5_msg.c:408-545 | the loop goes through the block one property after the other |
| `Parse5.BlockReads` | esp-code/sensor/managed_components/espressif__mqtt/lib/mqtt5_msg.c:408-545 | the block built from a set of properties parses to those properties, user properties in order, or is refused if and only if a checked string is longer than 16384 bytes |
| `Parse5.PublishReadsBack5` | esp-code/sensor/managed_components/espressif__mqtt/lib/mqtt5_msg.c:373-557 | topic, id, properties and the payload received read back from any part of a built PUBLISH that holds them, or the parser gives up, exactly if a checked string is too long |
| `Parse5.PropertiesReadBackExactly` | esp-code/sensor/managed_components/espressif__mqtt/lib/mqtt5_msg.c:373-557 | the properties set are recovered from a built PUBLISH, with topic and payload, if and only if the checked strings are short enough and no response information was joined to a response topic |
| `Parse5.ResponseTopicSeen` | esp-code/sensor/managed_components/espressif__mqtt/lib/mqtt5_msg.c:1108-1118 | with response information the receiver finds topic, slash and information with the last byte replaced by 0 |
| `Parse5.IdReads5` | esp-code/sensor/managed_components/espressif__mqtt/lib/mqtt5_msg.c:329-371 | the id of an ack or request is found whatever its length |
| `Parse5.SubscriptionReads` | esp-code/sensor/managed_components/espressif__mqtt/lib/mqtt5_msg.c:408-545 | a subscription identifier reads back as its number |
| `Parse5.UnknownRejected` | esp-code/sensor/managed_components/espressif__mqtt/lib/mqtt5_msg.c:408-545 | the parser gives up at a property that PUBLISH does not have |
| `Wire.Group` | esp-code/sensor/managed_components/espressif__mqtt/lib/mqtt5_msg.c:42-58 | a variable byte integer has its groups of seven bits least significant first |
| `Wire.Integers` | esp-code/sensor/managed_components/espressif__mqtt/lib/mqtt_msg.c:25-48 | two-byte integers have the most significant byte first |
| `Wire.PublishIs` | esp-code/sensor/managed_components/espressif__mqtt/lib/mqtt_msg.c:436-478 | the bytes of PUBLISH: flags in the first, then length, topic, id if the QoS is above 0, and payload |
| `Wire.Header5Is` | esp-code/sensor/managed_components/espressif__mqtt/lib/mqtt5_msg.c:1062-1172 | with MQTT 5.0 length and bytes of the property block follow topic and id |
| `Wire.RequestIs` | esp-code/sensor/managed_components/espressif__mqtt/lib/mqtt_msg.c:524-570 | the bytes of SUBSCRIBE and UNSUBSCRIBE, of both versions |
| `Wire.TopicsAre` | esp-code/sensor/managed_components/espressif__mqtt/lib/mqtt_msg.c:524-551 | each filter of a SUBSCRIBE with its length before it and its QoS behind |
| `Wire.PropertiesAre` | esp-code/sensor/managed_components/espressif__mqtt/lib/include/mqtt5_msg.h:18-42 | each PUBLISH property under the identifier that section 2.2.2.2 of MQTT 5.0 gives it |
| `Wire.UserPropertyIs` | esp-code/sensor/managed_components/espressif__mqtt/lib/include/mqtt5_msg.h:18-42 | the bytes of a user property |
| `Wire.HeadersAre` | esp-code/sensor/managed_components/espressif__mqtt/lib/mqtt_msg.c:594-632 | the legal first bytes, listed |
| `Handshake.IdStands` | esp-code/sensor/managed_components/espressif__mqtt/lib/mqtt_msg.c:316-329 | both parsers find the id of an ack behind one length byte, most significant byte first |
| `Handshake.AckReceived` | esp-code/sensor/managed_components/espressif__mqtt/mqtt_client.c:1640-1811 | a received packet with the id of a stored request removes it if and only if it is the ack for its kind, by the type bits: PUBACK and PUBCOMP for PUBLISH, SUBACK for SUBSCRIBE, UNSUBACK for UNSUBSCRIBE |
| `Handshake.PublishAnswered` | esp-code/sensor/managed_components/espressif__mqtt/mqtt_client.c:1695-1725 | PUBLISH is answered by 0x40 with QoS 1, by 0x50 with QoS 2, by nothing with QoS 0, under its own id |
| `Handshake.AckAnswered` | esp-code/sensor/managed_components/espressif__mqtt/mqtt_client.c:1749-1794 | PUBREC is answered by 0x62, PUBREL by 0x70, PUBACK and PUBCOMP by nothing |
| `Handshake.Qos1Completes` | esp-code/sensor/managed_components/espressif__mqtt/mqtt_client.c:1695-1740 | between two ends: the answer to a stored QoS 1 publish, read by its sender, removes it |
| `Handshake.Qos2Completes` | esp-code/sensor/managed_components/espressif__mqtt/mqtt_client.c:1695-1811 | between two ends: PUBLISH, PUBREC, PUBREL, PUBCOMP remove a stored QoS 2 publish at the PUBCOMP, and not before |
| `Handshake.DupReads` | esp-code/sensor/managed_components/espressif__mqtt/lib/include/mqtt_msg.h:87-90 | DUP changes nothing in how a PUBLISH is read |
| `Client.WriteOutbound` | esp-code/sensor/managed_components/espressif__mqtt/mqtt_client.c:818-844 | all bytes are written if and only if each write takes something; else a proper part, and the last answer was a failure or a time-out |
| `Wire.AttemptExactly` | esp-code/sensor/managed_components/espressif__mqtt/mqtt_client.c:818-844 | for all that the client writes but publish calls: the packet is on the wire if and only if every write took something; else a proper part |
| `Client.WriteFragments` | esp-code/sensor/managed_components/espressif__mqtt/mqtt_client.c:2646-2677 | the wire carries the packet, and as many bytes more as an offset left behind reaches beyond the header, none if the packet was fragmented; or part of it, if and only if a write took nothing |
| `Client.Client.MakePublish` | esp-code/sensor/managed_components/espressif__mqtt/mqtt_client.c:2500-2531 | the publish of the configured version; properties that were set are used up |
| `Client.Client.StorePublish` | esp-code/sensor/managed_components/espressif__mqtt/mqtt_client.c:2532-2566 | what is stored is the whole packet, buffer and rest of the payload |
| `Client.Client.Publish` | esp-code/sensor/managed_components/espressif__mqtt/mqtt_client.c:2568-2704 | return codes, stored copy, bytes on the wire with the exact excess, whether they could be written, the protocol machine's publish step, the id drawn, and what is left in the fragment fields |
| `Client.Client.Enqueue` | esp-code/sensor/managed_components/espressif__mqtt/mqtt_client.c:2706-2750 | return codes, the enqueue step, the id drawn, and what is left in the fragment fields; nothing is written |
| `Calls.RefusedExactly` | esp-code/sensor/managed_components/espressif__mqtt/mqtt5_client.c:364-380 | a call is turned down if and only if Maximum QoS or Retain Available forbids it, the outbox is full, a null payload has a length, the topic is missing, or the header does not fit the buffer |
| `Calls.EnqueueMeans` | esp-code/sensor/managed_components/espressif__mqtt/mqtt_client.c:2706-2750 | an accepted enqueue call returns the id and has stored the message, in every phase; or returns -1 and has changed nothing |
| `Calls.PublishMeans` | esp-code/sensor/managed_components/espressif__mqtt/mqtt_client.c:2568-2704 | a publish call with QoS > 0 has stored the message; with connection and room it went out, and is transmitted exactly if the network took all of it; a failure returns -1 and ends the connection |
| `Calls.PublishOnceMeans` | esp-code/sensor/managed_components/espressif__mqtt/mqtt_client.c:2568-2704 | a publish call with QoS 0 went out at once, or returns -1 |
| `Calls.MessageReads` | esp-code/sensor/managed_components/espressif__mqtt/mqtt_client.c:2500-2531 | the other end reads the message as the PUBLISH it is, by type, QoS and id |
| `Client.Client.PublishIsLegal` | esp-code/sensor/managed_components/espressif__mqtt/mqtt_client.c:2532-2566 | packets the calls build are those the guarantees assume |
| `Client.Client.RequestIsLegal` | esp-code/sensor/managed_components/espressif__mqtt/mqtt_client.c:2354-2498 | so are the SUBSCRIBE and UNSUBSCRIBE packets |
| `Client.StaleOffset` | esp-code/sensor/managed_components/espressif__mqtt/mqtt_client.c:2532-2566 | on a network that takes every write, two calls after which the wire carries a packet and then bytes of no packet |
| `Client.StaleLength` | esp-code/sensor/managed_components/espressif__mqtt/mqtt_client.c:2532-2566 | on a network that takes every write, a call after which the PINGREQ on the wire claims a length it does not have |
| `Client.Client.Subscribe` | esp-code/sensor/managed_components/espressif__mqtt/mqtt_client.c:2354-2432 | refused exactly if over the limit, not connected, QoS too high or not buildable; else stored as transmitted before it is written; the id drawn; fragment fields reset if connected and within the limit |
| `Client.Client.Unsubscribe` | esp-code/sensor/managed_components/espressif__mqtt/mqtt_client.c:2439-2498 | the same without a limit |
| `Client.Client.HandleCompletion` | esp-code/sensor/managed_components/espressif__mqtt/mqtt_client.c:1730-1811 | SUBACK, UNSUBACK, PUBACK, PUBCOMP are the steps of that name |
| `Client.Client.HandlePubrec` | esp-code/sensor/managed_components/espressif__mqtt/mqtt_client.c:1749-1769 | PUBREC acknowledges whatever reason code it has, and PUBREL is written unless a write takes nothing; the payload offset falls by exactly what its header leaves unused |
| `Client.Client.HandlePacket` | esp-code/sensor/managed_components/espressif__mqtt/mqtt_client.c:1646-1811 | each received packet takes its step, if it is an ack, and is answered with the packet that is owed, or with nothing; failure exactly if an answer to PUBLISH could not be written |
| `Client.Client.Process` | esp-code/sensor/managed_components/espressif__mqtt/mqtt_client.c:1640-1835 | the same for a packet that came out, its type, QoS and id read from its bytes |
| `Client.LongSubackIsLost` | esp-code/sensor/managed_components/espressif__mqtt/mqtt_client.c:1655-1672 | a SUBACK of MQTT 3.1.1 that answers 126 topics or more changes nothing: its SUBSCRIBE stays stored |
| `Client.Client.Answer` | esp-code/sensor/managed_components/espressif__mqtt/mqtt_client.c:1680-1794 | PUBACK, PUBREC and PUBCOMP answer PUBLISH and PUBREL; an unwritten PUBCOMP is no failure; the payload offset falls by exactly what the header leaves unused |
| `Client.Client.ResendQueued` | esp-code/sensor/managed_components/espressif__mqtt/mqtt_client.c:1848-1871 | the stored bytes go out, with DUP first if they were sent before; an abort if and only if a write takes nothing |
| `Client.Client.SendPass` | esp-code/sensor/managed_components/espressif__mqtt/mqtt_client.c:2073-2134 | one pass of the task is the send step; the wire carries the chosen packet, or, when that is due, the first transmitted packet with DUP and a PUBREL for the first acknowledged one; each counts as written if and only if the network took all of it |
| `Wire.SendOnTheWire` | esp-code/sensor/managed_components/espressif__mqtt/mqtt_client.c:2098-2118 | in terms of items: the next item goes out as it is stored |
| `Wire.AgainOnTheWire` | esp-code/sensor/managed_components/espressif__mqtt/mqtt_client.c:2119-2133 | with nothing to send and retransmission due: the first transmitted item with DUP if it is older than the time-out, then PUBREL with the id of the first acknowledged item if that one is, and nothing else |
| `Wire.NothingOnTheWire` | esp-code/sensor/managed_components/espressif__mqtt/mqtt_client.c:2079-2134 | a pass with nothing to send that is not due writes nothing |
| `Client.Client.Connacked` | esp-code/sensor/managed_components/espressif__mqtt/mqtt_client.c:883-951 | CONNACK: new quota, count 0, everything in flight queued again; the fragment fields are reset before CONNECT is built, which lowers the offset |
| `Client.Client.Ping` | esp-code/sensor/managed_components/espressif__mqtt/mqtt_client.c:2336-2352 | PINGREQ, or an abort if and only if a write takes nothing; the payload offset falls by exactly what its header leaves unused |
| `Client.Client.Stop` | esp-code/sensor/managed_components/espressif__mqtt/mqtt_client.c:2183-2187 | the end of the task clears the outbox; DISCONNECT goes out if connected |
| `Wire.GoodbyeIs` | esp-code/sensor/managed_components/espressif__mqtt/mqtt_client.c:2270-2300 | the bytes of DISCONNECT, written by a connected client only |
| `Session.Session.Complete` | esp-code/sensor/managed_components/espressif__mqtt/mqtt_client.c:1440-1449 | the first stored request with id and type is removed; a completed publish gives its place back |
| `Session.Session.DeleteExpiredOneByOne` | esp-code/sensor/managed_components/espressif__mqtt/mqtt_client.c:1920-1940 | the reporting variant of expiry is the expiry step |
| `Session.Session.DeleteExpired` | esp-code/sensor/managed_components/espressif__mqtt/mqtt_client.c:1920-1940 | so is the silent one |
| `Session.Session.Requeue` | esp-code/sensor/managed_components/espressif__mqtt/mqtt_client.c:847-880 | the loop, with the condition that SharedIds.RequeueAlwaysEnds gives, requeues exactly the transmitted items |
| `Session.Session.ChooseQueued` | esp-code/sensor/managed_components/espressif__mqtt/mqtt_client.c:2079-2096 | the first queued item, or a queued QoS 0 publish when the quota holds it back |
| `Receiver.Receiver.Receive` | esp-code/sensor/managed_components/espressif__mqtt/mqtt_client.c:1477-1606 | one call is the reading function Receiving of the answers of the network: return code, bytes taken, reads made |
| `Receiver.PacketComesOut` | esp-code/sensor/managed_components/espressif__mqtt/mqtt_client.c:1477-1606 | for all answers: a good packet that fits comes out alone when its last byte has come; before that the code is -2 exactly if a read failed, -1 exactly if it timed out in the message, 0 otherwise; only a misled call takes bytes beyond it |
| `Receiver.OneCall` | esp-code/sensor/managed_components/espressif__mqtt/mqtt_client.c:1477-1606 | if every read brings all that was asked for, one call receives a packet, with a read for each header byte and one for the rest |
| `Receiver.IllegalFirst` | esp-code/sensor/managed_components/espressif__mqtt/mqtt_client.c:1490-1508 | a first byte that is not legal makes the call fail |
| `Receiver.SafeExactly` | esp-code/sensor/managed_components/espressif__mqtt/mqtt_client.c:1510-1527 | a packet can mislead no call if and only if it has fewer than four or more than five bytes, or one of its last two has the top bit clear |
| `Receiver.SafeNeverMisled` | esp-code/sensor/managed_components/espressif__mqtt/mqtt_client.c:1510-1527 | among safe packets no call is misled, however they are read |
| `Receiver.LargeFills` | esp-code/sensor/managed_components/espressif__mqtt/mqtt_client.c:1538-1574 | a publish larger than the buffer fills it if and only if the room check passes and all came; a failure is for lack of room or a failed read |
| `Receiver.SwallowsPingresp` | esp-code/sensor/managed_components/espressif__mqtt/mqtt_client.c:1510-1527 | on a network of single bytes a PINGRESP behind a PUBACK is taken for a part of it |
| `Receiver.Receiver.ReceiveAll` | esp-code/sensor/managed_components/espressif__mqtt/mqtt_client.c:1612-1637 | framing does not depend on chunking, for packets that fit the buffer while no call is misled: out comes every packet whose last byte was read; it ends early only after a failed read or a time-out in a message, and if every read brings something all packets come out |
| `Receiver.Receiver.ReceiveStep` | esp-code/sensor/managed_components/espressif__mqtt/mqtt_client.c:1608-1637 | the connection is given up if and only if the last read failed, or timed out in the middle of a message of which the step brought nothing |
| `Receiver.AckSafety` | esp-code/sensor/managed_components/espressif__mqtt/mqtt_client.c:1510-1527 | an ack of four bytes is safe if and only if not both bytes of its id have the top bit set |
| `Receiver.Receiver.FillBuffer` | esp-code/sensor/managed_components/espressif__mqtt/mqtt_client.c:1538-1574 | a publish larger than the buffer fills it, as the reading function says; the check for room forgets the two bytes of the topic length |
| `Delivery.Stream` | esp-code/sensor/managed_components/espressif__mqtt/mqtt_client.c:1345-1387 | chunks are what the reads gave and concatenate to the payload, offsets are the sums of the earlier lengths, each event announces the same total; complete if and only if every read brought something, and if not, no error if and only if the last one timed out; what is missing is still to come |
| `Delivery.FullChunks` | esp-code/sensor/managed_components/espressif__mqtt/mqtt_client.c:1345-1387 | if every read brings all that was asked for, every chunk but first and last fills the buffer |
| `Delivery.PayloadTakenForPacket` | esp-code/sensor/managed_components/espressif__mqtt/mqtt_client.c:1345-1387 | after a time-out the next call receives whatever packet the rest of the payload spells |
| `Delivery.DeliverPublish` | esp-code/sensor/managed_components/espressif__mqtt/mqtt_client.c:1290-1391 | that, for a publish of MQTT 3.1.1 with topic and id in the buffer |
| `Delivery.AnnouncesExactly` | esp-code/sensor/managed_components/espressif__mqtt/mqtt_client.c:1345 | the announced length is that of the payload if and only if topic and id are all in the buffer |
| `Delivery.DeliverPublish5` | esp-code/sensor/managed_components/espressif__mqtt/mqtt5_client.c:137-184 | the same for MQTT 5.0, with the properties, under the topic that a topic alias stands for; nothing is delivered exactly if a checked string is too long, or the alias is beyond the maximum or unknown |
| `Aliases.AliasList.Update` | esp-code/sensor/managed_components/espressif__mqtt/mqtt5_client.c:424-459 | the list of aliases takes topic and alias on, or keeps the topic that the comparison takes for the same |
| `Aliases.UpdatedExactly` | esp-code/sensor/managed_components/espressif__mqtt/mqtt5_client.c:424-459 | the alias stands for the new topic if and only if no other topic was taken for it; the other aliases stand for what they did |
| `Aliases.MeansLastNamed` | esp-code/sensor/managed_components/espressif__mqtt/mqtt5_client.c:461-474 | over every history of topics without 0 bytes, an alias stands for the topic that came with it last, on whatever connection |
| `Aliases.DeliveredUnder` | esp-code/sensor/managed_components/espressif__mqtt/mqtt5_client.c:151-173 | over every such history: no topic beyond the maximum alias, the one named last for an empty topic, and else the own one |

## Left out

- Connection.Connection.AllocateId: in random mode the draw is repeated until it is not 0; the model takes one draw that is not 0, since nothing bounds how often the C loop draws.
- Mqtt3.MsgPublish: a null payload while a fragment length is left behind is described but not used; there the C code adds to a null pointer, and `Client.Client.Publish` asks that it does not happen.
- Mqtt5.MsgSubscribe5: subscription identifier, shared subscriptions and user properties of SUBSCRIBE, UNSUBSCRIBE and DISCONNECT; their encoding is that of the PUBLISH properties.
- Mqtt5.AppendProperty: a property of width 0 does not occur.
- Parse5.BlockReads: for property blocks up to 65535 bytes, as the parser's 16-bit length demands; block contents that no builder makes are classified as outside, since some lengths are not checked there.
- Delivery.DeliverPublish5: a property block that does not fit the input buffer.
- Receiver.Receiver.ReceiveAll: packets larger than the input buffer, which `Receive` and `Delivery` treat one at a time.
- Receiver.Receiver.Receive: a first byte with illegal flags counts as read into the buffer; the program leaves it uncounted, but gives the connection up in either case.
- Client.Client.Connacked: the bytes of CONNECT; only what it leaves unused of the gap is an input, since the payload offset depends on it.
- Client.Client.Answer: the pairing with the received PUBLISH is by packet id only; the received QoS 2 handshake keeps no state in the program.
- The CONNECT packet, its properties and the properties of CONNACK other than Receive Maximum, which is an input here.
- Keep-alive, refresh and reconnect timers: an abort, a ping or a reconnect may come at any step.
- Event dispatch, and what SUBACK, PUBACK and DISCONNECT carry for the application.
- Messages that wrap 16 bits when topic and response information are joined.
- The state CONFIRMED of an item, which the client never sets.
- TLS, transports, URI and configuration handling, tasks and locks: calls into code that is not part of this model.
- The custom outbox example, `main.c`, the DHT driver and the string helpers: other programs, or code without a protocol.
