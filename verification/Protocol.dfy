/**
 * The client as a state machine over its outbox. Each locked body of the program is one step.
 * The log records what happened; the program keeps no such record, and no step looks at it.
 */
module Protocol {
  import opened Bytes
  import opened OutboxModel

  datatype Phase = Init | Disconnected | Connected | WaitReconnect

  /** The ways a stored packet can leave the outbox. */
  datatype Fate = Published | Subscribed | Unsubscribed | SentQos0 | Expired | Cleared

  datatype Event =
    | Stored(serial: nat, id: int, packet: seq<byte>)
    | Wrote(serial: nat, id: int, kind: int, qos: int, bytes: seq<byte>, done: bool)
    | WroteUnstored(bytes: seq<byte>, done: bool)
    | PubrecSeen(id: int)
    | Removed(serial: nat, fate: Fate, before: nat)
    | Connack

  datatype Log = Start | Then(past: Log, event: Event)

  datatype Config = Config(v5: bool, limit: nat, bufferLength: nat, retransmit: nat, expiry: nat)

  datatype State = State(phase: Phase, outbox: seq<Entry>, count: nat, receiveMax: nat, next: nat, log: Log)

  datatype Input =
    | PublishCall(id: int, qos: int, packet: seq<byte>, payload: nat, stored: int, sent: int, written: bool)
    | EnqueueCall(id: int, qos: int, packet: seq<byte>, payload: nat, store: bool, now: int)
    | SubscribeCall(id: int, packet: seq<byte>, now: int, written: bool)
    | UnsubscribeCall(id: int, packet: seq<byte>, now: int, written: bool)
    | Suback(id: int)
    | Unsuback(id: int)
    | Puback(id: int)
    | Pubrec(id: int)
    | Pubcomp(id: int)
    | SendPass(now: int, due: bool, written: bool, pubrelWritten: bool)
    | ExpiryPass(now: int)
    | ConnackAccepted(receiveMax: nat)
    | ConnackRefused(receiveMax: nat)
    | Abort
    | Reconnect
    | StartTask
    | Stop

  // ---------- pieces shared by the steps

  function Noted(st: State, e: Event): State {
    st.(log := Then(st.log, e))
  }

  function Aborted(st: State): State {
    st.(phase := WaitReconnect)
  }

  function Store(st: State, id: int, kind: int, qos: int, tick: int, packet: seq<byte>): State {
    State(st.phase, st.outbox + [Entry(st.next, id, kind, qos, tick, Queued, packet)], st.count, st.receiveMax,
          st.next + 1, Then(st.log, Stored(st.next, id, packet)))
  }

  /** Remove the k-th item; a completed publish gives its place in the quota back unless the counter is 0 already. */
  function Dropped(cfg: Config, st: State, k: nat, fate: Fate): State
    requires k < |st.outbox|
  {
    Noted(st, Removed(st.outbox[k].serial, fate, st.count)).(
      outbox := Without(st.outbox, k),
      count := if fate == Published && cfg.v5 && st.count > 0 then st.count - 1 else st.count)
  }

  /** mqtt_resend_queued: DUP goes on before the write when the item was transmitted earlier. */
  function Resent(st: State, k: nat, written: bool): State
    requires k < |st.outbox|
  {
    var e := if st.outbox[k].pending == Transmitted then Marked(st.outbox[k]) else st.outbox[k];
    var s := Noted(st, Wrote(e.serial, e.id, e.kind, e.qos, e.data, written)).(outbox := st.outbox[k := e]);
    if written then s else Aborted(s)
  }

  /** The uint16 counter. */
  function Incremented(count: nat): nat {
    (count + 1) % 0x1_0000
  }

  /** A queued item is written; then a QoS 0 publish is dropped, anything else waits for its ack. */
  function Sent(cfg: Config, st: State, k: nat, now: int, written: bool): State
    requires k < |st.outbox|
  {
    var e := st.outbox[k];
    var s := Resent(st, k, written);
    if !written then s
    else if e.kind == MSG_PUBLISH && e.qos == 0 then Dropped(cfg, s, k, SentQos0)
    else s.(outbox := SetPending(SetTick(s.outbox, e.id, now), e.id, Transmitted),
            count := if e.kind == MSG_PUBLISH && cfg.v5 then Incremented(s.count) else s.count)
  }

  function Completed(cfg: Config, st: State, id: int, kind: int, fate: Fate): State {
    var k := First(st.outbox, ByIdAndKind(id, kind));
    if k < |st.outbox| then Dropped(cfg, st, k, fate) else st
  }

  function ExpireAll(cfg: Config, st: State, now: int): State
    decreases |st.outbox|
  {
    var k := First(st.outbox, Overdue(now, cfg.expiry));
    if k < |st.outbox| then ExpireAll(cfg, Dropped(cfg, st, k, Expired), now) else st
  }

  function ClearAll(cfg: Config, st: State): State
    decreases |st.outbox|
  {
    if st.outbox == [] then st else ClearAll(cfg, Dropped(cfg, st, 0, Cleared))
  }

  predicate QuotaFull(cfg: Config, st: State) {
    cfg.v5 && st.count >= st.receiveMax
  }

  /** mqtt_get_queued_qos0: the first item with id 0, if it is a queued QoS 0 publish. */
  function QueuedQos0(s: seq<Entry>): (k: nat)
    ensures k <= |s|
  {
    var k := First(s, ById(0));
    if k < |s| && s[k].pending == Queued && s[k].kind == MSG_PUBLISH && s[k].qos == 0 then k else |s|
  }

  /** The item a pass sends: the first queued one, unless the quota holds it back. */
  function Choose(cfg: Config, st: State): (k: nat)
    ensures k <= |st.outbox|
  {
    var k := First(st.outbox, ByPending(Queued));
    if k < |st.outbox| && QuotaFull(cfg, st) && st.outbox[k].kind == MSG_PUBLISH && st.outbox[k].qos > 0
    then QueuedQos0(st.outbox) else k
  }

  /** Whether the first item in that state is due to be sent again. */
  predicate FirstDue(cfg: Config, st: State, p: Pending, now: int) {
    var k := First(st.outbox, ByPending(p));
    k < |st.outbox| && now - st.outbox[k].tick > cfg.retransmit
  }

  function FirstResent(cfg: Config, st: State, now: int, written: bool): State {
    if FirstDue(cfg, st, Transmitted, now) then Resent(st, First(st.outbox, ByPending(Transmitted)), written) else st
  }

  function PubrelTried(cfg: Config, st: State, now: int, written: bool): State {
    if FirstDue(cfg, st, Acknowledged, now) && !written then Aborted(st) else st
  }

  /** The periodic retransmission: the first transmitted item, then a PUBREL for the first acknowledged one. */
  function Retransmitted(cfg: Config, st: State, now: int, written: bool, pubrelWritten: bool): State {
    PubrelTried(cfg, FirstResent(cfg, st, now, written), now, pubrelWritten)
  }

  predicate OverLimit(cfg: Config, st: State, payload: nat) {
    cfg.limit > 0 && payload + Size(st.outbox) > cfg.limit
  }

  function Requested(st: State, id: int, kind: int, packet: seq<byte>, now: int, written: bool): State {
    var s := Store(st, id, kind, 0, now, packet);
    Noted(s, Wrote(st.next, id, kind, 0, packet, written)).(outbox := SetPending(s.outbox, id, Transmitted))
  }

  // ---------- the steps

  /** A QoS 0 publish is written now or never; any other is stored, and written at once if the quota has room. */
  function PublishStep(cfg: Config, st: State, id: int, qos: int, packet: seq<byte>, payload: nat, stored: int,
                       sent: int, written: bool): State
  {
    if qos > 0 then
      if OverLimit(cfg, st, payload) then st
      else
        var s := Store(st, id, MSG_PUBLISH, qos, stored, packet);
        if st.phase != Connected || QuotaFull(cfg, st) then s
        else Sent(cfg, s, |st.outbox|, sent, written)
    else if st.phase != Connected then st
    else
      var s := Noted(st, WroteUnstored(packet, written));
      if written then s else Aborted(s)
  }

  function Step(cfg: Config, st: State, i: Input): State {
    match i
    case PublishCall(id, qos, packet, payload, stored, sent, written) =>
      PublishStep(cfg, st, id, qos, packet, payload, stored, sent, written)
    case EnqueueCall(id, qos, packet, payload, store, now) =>
      if OverLimit(cfg, st, payload) || (qos == 0 && !store) then st
      else Store(st, id, MSG_PUBLISH, qos, now, packet)
    case SubscribeCall(id, packet, now, written) =>
      if OverLimit(cfg, st, 0) || st.phase != Connected then st
      else Requested(st, id, MSG_SUBSCRIBE, packet, now, written)
    case UnsubscribeCall(id, packet, now, written) =>
      if st.phase != Connected then st else Requested(st, id, MSG_UNSUBSCRIBE, packet, now, written)
    case Suback(id) =>
      if st.phase != Connected then st else Completed(cfg, st, id, MSG_SUBSCRIBE, Subscribed)
    case Unsuback(id) =>
      if st.phase != Connected then st else Completed(cfg, st, id, MSG_UNSUBSCRIBE, Unsubscribed)
    case Puback(id) =>
      if st.phase != Connected then st else Completed(cfg, st, id, MSG_PUBLISH, Published)
    case Pubcomp(id) =>
      if st.phase != Connected then st else Completed(cfg, st, id, MSG_PUBLISH, Published)
    case Pubrec(id) =>
      if st.phase != Connected then st
      else Noted(st, PubrecSeen(id)).(outbox := SetPending(st.outbox, id, Acknowledged))
    case SendPass(now, due, written, pubrelWritten) =>
      if st.phase != Connected then st
      else
        var k := Choose(cfg, st);
        if k < |st.outbox| then Sent(cfg, st, k, now, written)
        else if due then Retransmitted(cfg, st, now, written, pubrelWritten)
        else st
    case ExpiryPass(now) => ExpireAll(cfg, st, now)
    case ConnackAccepted(receiveMax) =>
      if st.phase != Init then st
      else
        var s := Noted(st, Connack).(phase := Connected);
        if cfg.v5 then s.(count := 0, receiveMax := receiveMax, outbox := Requeued(st.outbox)) else s
    case ConnackRefused(receiveMax) =>
      if st.phase != Init then st
      else Aborted(if cfg.v5 then st.(receiveMax := receiveMax) else st)
    case Abort => Aborted(st)
    case Reconnect => if st.phase == WaitReconnect then st.(phase := Init) else st
    case StartTask => if st.phase in {Init, Disconnected} then st.(phase := Init) else st
    case Stop => ClearAll(cfg, st).(phase := Disconnected)
  }

  function Initial(receiveMax: nat): State {
    State(Init, [], 0, receiveMax, 0, Start)
  }

  function Run(cfg: Config, st: State, inputs: seq<Input>): State
    decreases |inputs|
  {
    if inputs == [] then st else Run(cfg, Step(cfg, st, inputs[0]), inputs[1..])
  }

  lemma RunOne(cfg: Config, st: State, i: Input, rest: seq<Input>)
    ensures Run(cfg, st, [i] + rest) == Run(cfg, Step(cfg, st, i), rest)
  {
    assert ([i] + rest)[1..] == rest;
  }

  // ---------- what callers, the packet builder and the broker provide

  predicate FreshId(s: seq<Entry>, id: int) {
    1 <= id < 0x1_0000 && forall k :: 0 <= k < |s| ==> s[k].id != id
  }

  predicate PublishPacket(packet: seq<byte>, qos: int) {
    packet != [] && Kind(packet[0]) == MSG_PUBLISH && Qos(packet[0]) == qos && Dup(packet[0]) == 0
  }

  /**
   * Packet ids are in use at most once; packets come from the builder, whose headers fit the
   * output buffer; a PUBREC names a packet id, which is never 0.
   */
  predicate Legal(cfg: Config, st: State, i: Input) {
    match i
    case PublishCall(id, qos, packet, payload, stored, sent, written) =>
      && 0 <= qos <= 2 && PublishPacket(packet, qos) && |packet| <= payload + cfg.bufferLength
      && (if qos > 0 then FreshId(st.outbox, id) else id == 0)
    case EnqueueCall(id, qos, packet, payload, store, now) =>
      && 0 <= qos <= 2 && PublishPacket(packet, qos) && |packet| <= payload + cfg.bufferLength
      && (if qos > 0 then FreshId(st.outbox, id) else id == 0)
    case SubscribeCall(id, packet, now, written) =>
      FreshId(st.outbox, id) && packet != [] && |packet| <= cfg.bufferLength
    case UnsubscribeCall(id, packet, now, written) =>
      FreshId(st.outbox, id) && packet != [] && |packet| <= cfg.bufferLength
    case Pubrec(id) => id != 0
    case ConnackAccepted(receiveMax) => receiveMax < 0x1_0000
    case ConnackRefused(receiveMax) => receiveMax < 0x1_0000
    case _ => true
  }

  /** All of that but the demand that the id is not in use. */
  predicate LegalButId(cfg: Config, st: State, i: Input) {
    Legal(cfg, st.(outbox := []), i)
  }

  predicate LegalRun(cfg: Config, st: State, inputs: seq<Input>)
    decreases |inputs|
  {
    inputs == [] || (Legal(cfg, st, inputs[0]) && LegalRun(cfg, Step(cfg, st, inputs[0]), inputs[1..]))
  }

  predicate LegalButIdsRun(cfg: Config, st: State, inputs: seq<Input>)
    decreases |inputs|
  {
    inputs == [] || (LegalButId(cfg, st, inputs[0]) && LegalButIdsRun(cfg, Step(cfg, st, inputs[0]), inputs[1..]))
  }

  // ---------- reading the log

  /** A write of this stored packet completed at some time. */
  predicate WrittenBefore(log: Log, serial: nat) {
    match log
    case Start => false
    case Then(past, Wrote(s, _, _, _, _, done)) => (s == serial && done) || WrittenBefore(past, serial)
    case Then(past, _) => WrittenBefore(past, serial)
  }

  /** The QoS > 0 publishes whose write completed on the current connection. */
  function SentHere(log: Log): set<nat> {
    match log
    case Start => {}
    case Then(past, Connack) => {}
    case Then(past, Wrote(s, _, kind, qos, _, done)) =>
      if kind == MSG_PUBLISH && qos > 0 && done then SentHere(past) + {s} else SentHere(past)
    case Then(past, _) => SentHere(past)
  }

  /** Completions on this connection that lowered the counter for a packet not sent on it. */
  function Carried(log: Log): nat {
    match log
    case Start => 0
    case Then(past, Connack) => 0
    case Then(past, Removed(s, fate, before)) =>
      Carried(past) + (if fate == Published && before > 0 && s !in SentHere(past) then 1 else 0)
    case Then(past, _) => Carried(past)
  }

  /** Packets sent on this connection that expiry (or stop) removed: the counter is not told. */
  function Lost(log: Log): nat {
    match log
    case Start => 0
    case Then(past, Connack) => 0
    case Then(past, Removed(s, fate, before)) =>
      Lost(past) + (if fate in {Expired, Cleared} && s in SentHere(past) then 1 else 0)
    case Then(past, _) => Lost(past)
  }

  /** Completions of packets sent on this connection that found the counter at 0. */
  function AtZero(log: Log): nat {
    match log
    case Start => 0
    case Then(past, Connack) => 0
    case Then(past, Removed(s, fate, before)) =>
      AtZero(past) + (if fate == Published && before == 0 && s in SentHere(past) then 1 else 0)
    case Then(past, _) => AtZero(past)
  }

  function Removals(log: Log, serial: nat): nat {
    match log
    case Start => 0
    case Then(past, Removed(s, _, _)) => Removals(past, serial) + (if s == serial then 1 else 0)
    case Then(past, _) => Removals(past, serial)
  }

  /** A PUBREC for this id was processed and no packet was stored under the id since. */
  predicate Blocked(log: Log, id: int) {
    match log
    case Start => false
    case Then(past, PubrecSeen(i)) => i == id || Blocked(past, id)
    case Then(past, Stored(_, i, _)) => i != id && Blocked(past, id)
    case Then(past, _) => Blocked(past, id)
  }

  /** The packet stored under a serial number; [] if none was. */
  function PacketOf(log: Log, serial: nat): seq<byte> {
    match log
    case Start => []
    case Then(past, Stored(s, _, packet)) => if s == serial then packet else PacketOf(past, serial)
    case Then(past, _) => PacketOf(past, serial)
  }

  /** The same packet, the DUP bit of its first byte aside. */
  predicate SamePacket(a: seq<byte>, b: seq<byte>) {
    |a| == |b| && a != [] && (a == b || a == b[0 := WithDup(b[0])])
  }

  predicate HasDup(bytes: seq<byte>) {
    bytes != [] && Dup(bytes[0]) == 1
  }

  /** The three promises about every write, each judged against the log before it. */
  predicate DupExact(log: Log) {
    match log
    case Start => true
    case Then(past, Wrote(s, _, kind, qos, bytes, _)) =>
      DupExact(past) && (kind == MSG_PUBLISH ==> (HasDup(bytes) <==> qos > 0 && WrittenBefore(past, s)))
    case Then(past, WroteUnstored(bytes, _)) => DupExact(past) && !HasDup(bytes)
    case Then(past, _) => DupExact(past)
  }

  predicate Qos2Safe(log: Log) {
    match log
    case Start => true
    case Then(past, Wrote(_, id, kind, _, _, _)) =>
      Qos2Safe(past) && (kind == MSG_PUBLISH && id != 0 ==> !Blocked(past, id))
    case Then(past, _) => Qos2Safe(past)
  }

  predicate WritesStoredPacket(log: Log) {
    match log
    case Start => true
    case Then(past, Wrote(s, _, _, _, bytes, _)) =>
      WritesStoredPacket(past) && SamePacket(bytes, PacketOf(past, s))
    case Then(past, _) => WritesStoredPacket(past)
  }
}
