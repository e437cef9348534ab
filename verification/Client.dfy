/** mqtt_client.c: the client object, its calls and the passes of its task. */
module Client {
  import opened Bytes
  import opened Packets
  import opened OutboxModel
  import opened Protocol
  import opened Connection
  import opened Mqtt3
  import opened Mqtt5
  import opened Session
  import opened Network
  import opened Fragments
  import I = Invariants
  import O = Outbox
  import P3 = Parse3
  import P5 = Parse5
  import S = SharedIds
  import V = VarInt

  datatype WriteStatus = Done | Failed | TimedOut

  datatype Moment = Moment(asked: nat, wire: seq<byte>)

  /** The transport, seen from the writing side. */
  class Transport {
    const network: Answers
    var wire: seq<byte>
    /** Writes so far. */
    var asked: nat

    constructor (network: Answers)
      ensures this.network == network && wire == [] && asked == 0
    {
      this.network, wire, asked := network, [], 0;
    }

    /** Where the writing stands. */
    function Now(): Moment
      reads this`asked, this`wire
    {
      Moment(asked, wire)
    }

    /** All that was to be written was taken, or the last answer says why not. */
    twostate predicate Went(done: bool)
      reads this`asked
    {
      Told(network, old(asked), asked, done)
    }

    method Write(data: array<byte>, start: nat, len: nat) returns (wlen: int)
      requires len > 0 && start + len <= data.Length
      modifies this
      ensures asked == old(asked) + 1 && wlen == Given(network(old(asked)), len, len)
      ensures wire == old(wire) + if wlen > 0 then data[start..start + wlen] else []
    {
      wlen := Given(network(asked), len, len);
      asked := asked + 1;
      if wlen > 0 {
        wire := wire + data[start..start + wlen];
      }
    }
  }

  /** esp_mqtt_write: write until everything is written, or a write takes nothing. */
  method WriteOutbound(c: Connection, t: Transport) returns (status: WriteStatus)
    requires c.outStart + c.length <= c.out.Length
    modifies t
    ensures status == Done ==> t.wire == old(t.wire) + c.Outbound()
    ensures status != Done ==> old(t.wire) <= t.wire < old(t.wire) + c.Outbound()
    ensures t.Went(status == Done)
    ensures status != Done ==> (status == Failed <==> t.network(t.asked - 1) < 0)
  {
    var widx, len := 0, c.length;
    while len > 0
      invariant 0 <= widx && 0 <= len && widx + len == c.length
      invariant t.wire == old(t.wire) + c.out[c.outStart..c.outStart + widx]
      invariant t.Went(true)
      decreases len
    {
      var wlen := t.Write(c.out, c.outStart + widx, len);
      if wlen < 0 { return Failed; }
      if wlen == 0 { return TimedOut; }
      widx := widx + wlen;
      len := len - wlen;
    }
    return Done;
  }

  /**
   * What a write attempt did to the wire: the packet and as many bytes more as the offset left behind reaches
   * beyond the header; or, if it failed, a proper part of that.
   */
  predicate Carries(written: bool, before: seq<byte>, after: seq<byte>, packet: seq<byte>, extra: seq<byte>,
                    excess: nat) {
    if written then after == before + packet + extra && |extra| == excess
    else before <= after && (excess == 0 ==> after < before + packet)
  }

  /** One packet was to be written between these moments, or nothing. */
  predicate Attempt(made: bool, net: Answers, a: Moment, b: Moment, packet: seq<byte>, done: bool) {
    if made then Carries(done, a.wire, b.wire, packet, [], 0) && Told(net, a.asked, b.asked, done) else done && a == b
  }

  /** What a publish call answers and leaves on the wire, once its packet was built. */
  predicate Outcome(attempted: bool, id: int, qos: nat, ret: int, written: bool, before: seq<byte>, after: seq<byte>,
                    packet: seq<byte>, extra: seq<byte>, excess: nat) {
    if attempted then Carries(written, before, after, packet, extra, excess) && ret == (if written then id else -1)
    else after == before && ret == (if qos > 0 then id else -1)
  }

  /** memcpy of n bytes at data + at into the output buffer; what lies before the payload in memory is not known. */
  method LoadChunk(c: Connection, payload: seq<byte>, at: int, n: nat)
    requires n <= c.buffer.Length && at + n <= |payload|
    modifies c`out, c`outStart, c`length, c.buffer
    ensures c.out == c.buffer && c.outStart == 0 && c.length == n
    ensures at >= 0 ==> c.Outbound() == payload[at..at + n]
  {
    var chunk: seq<byte>;
    if at >= 0 {
      chunk := payload[at..at + n];
    } else {
      assert |seq(n, _ => 0 as byte)| == n;
      chunk :| |chunk| == n;
    }
    CopyInto(c.buffer, 0, chunk);
    c.out, c.outStart, c.length := c.buffer, 0, n;
    assert c.Outbound() == c.buffer[0..0 + n];
  }

  /** How far an offset left behind reaches beyond the header of a packet that fits. */
  function Excess(fits: bool, offset: int, headerEnd: nat): nat {
    if fits && offset > headerEnd then offset - headerEnd else 0
  }

  /** What is written so far, the buffer included: part of a packet that does not fit; a packet that does, and more. */
  predicate Planned(packet: seq<byte>, bytes: seq<byte>, fits: bool) {
    if fits then packet <= bytes else bytes <= packet
  }

  lemma Regroup3(a: seq<byte>, b: seq<byte>, c: seq<byte>)
    ensures a + b + c == a + (b + c)
  {
  }

  /** A write that stops early stops inside the packet, if what was to be written is part of it. */
  lemma Cut(was: seq<byte>, done: seq<byte>, out: seq<byte>, packet: seq<byte>, wire: seq<byte>)
    requires was + done <= wire < was + done + out
    ensures was <= wire && (|done + out| <= |packet| && (done + out <= packet || packet <= done + out) ==>
            wire < was + packet)
  {
    assert was == (was + done)[..|was|] == wire[..|was|];
    if |done + out| <= |packet| && (done + out <= packet || packet <= done + out) {
      assert done + out == packet[..|done + out|];
      assert was + done + out == was + packet[..|done + out|] == (was + packet)[..|was| + |done + out|];
      assert wire == (was + done + out)[..|wire|];
    }
  }

  /** Whether what the buffer held first is on the wire, when a later write stops early. */
  lemma Front(was: seq<byte>, done: seq<byte>, front: seq<byte>, wire: seq<byte>, first: bool)
    requires was + done <= wire
    requires if first then done == [] && wire < was + front else front <= done
    ensures !first <==> was + front <= wire
  {
    if !first {
      assert was + front == (was + done)[..|was + front|] == wire[..|was + front|];
    }
  }

  /** Both of that. */
  lemma Stopped(was: seq<byte>, done: seq<byte>, out: seq<byte>, packet: seq<byte>, wire: seq<byte>, front: seq<byte>,
                first: bool, fits: bool, excess: nat)
    requires was + done <= wire < was + done + out && Planned(packet, done + out, fits)
    requires excess == 0 ==> |done + out| <= |packet|
    requires if first then done == [] && out == front else front <= done
    ensures Carries(false, was, wire, packet, [], excess) && (!first <==> was + front <= wire)
  {
    Cut(was, done, out, packet, wire);
    Front(was, done, front, wire, first);
  }

  /** The next chunk of the payload continues the packet. */
  lemma NextChunk(packet: seq<byte>, payload: seq<byte>, done: seq<byte>, at: nat, n: nat)
    requires |payload| < |packet| && packet[|packet| - |payload|..] == payload
    requires done <= packet && |packet| - |done| == |payload| - at && at + n <= |payload|
    ensures done + payload[at..at + n] <= packet
  {
    assert payload[at..at + n] == packet[|done|..|done| + n];
  }

  method LoadNext(c: Connection, payload: seq<byte>, current: int, remaining: nat, ghost packet: seq<byte>,
                  ghost done: seq<byte>, ghost fits: bool)
    requires remaining > 0 && c.buffer.Length > 0 && current + remaining == |payload|
    requires Planned(packet, done, fits) && |payload| < |packet| && packet[|packet| - |payload|..] == payload
    requires !fits ==> |done| + remaining == |packet| && current >= 0
    modifies c`out, c`outStart, c`length, c.buffer
    ensures c.out == c.buffer && c.outStart + c.length <= c.buffer.Length && 0 < c.length <= remaining
    ensures Planned(packet, done + c.Outbound(), fits)
  {
    var n := if remaining > c.buffer.Length then c.buffer.Length else remaining;
    LoadChunk(c, payload, current, n);
    if fits {
      assert packet <= done + c.Outbound() by { assert (done + c.Outbound())[..|packet|] == done[..|packet|]; }
    } else {
      NextChunk(packet, payload, done, current, n);
    }
  }

  /** What is in the buffer is written; how much payload that was; the fragment fields are reset. */
  method WriteBuffer(c: Connection, t: Transport) returns (sent: bool, dataSent: int)
    requires c.outStart + c.length <= c.out.Length
    modifies c`fragTotal, c`fragOffset, t
    ensures if sent then t.wire == old(t.wire) + c.Outbound()
            else old(t.wire) <= t.wire < old(t.wire) + c.Outbound()
    ensures t.Went(sent)
    ensures if sent then c.fragOffset == c.fragTotal == 0 && dataSent == c.length - old(c.fragOffset)
            else c.fragOffset == old(c.fragOffset) && c.fragTotal == old(c.fragTotal)
  {
    var status := WriteOutbound(c, t);
    if status != Done { return false, 0; }
    dataSent := c.length - c.fragOffset;
    c.fragOffset, c.fragTotal := 0, 0;
    return true, dataSent;
  }

  /** The write loop of esp_mqtt_client_publish: the buffer, then the rest of the payload, a buffer at a time. */
  method WriteFragments(c: Connection, t: Transport, payload: seq<byte>, ghost packet: seq<byte>, ghost f: int)
    returns (written: bool, ghost extra: seq<byte>, ghost begun: bool)
    requires Built(c, packet, payload, f) && c.buffer.Length > 0
    modifies c`out, c`outStart, c`length, c`fragTotal, c`fragOffset, c.buffer, t
    ensures c.out == c.buffer && c.outStart + c.length <= c.buffer.Length
    ensures Carries(written, old(t.wire), t.wire, packet, extra,
                    Excess(old(c.length) == |packet|, f, old(c.outStart) + |packet| - |payload|))
    ensures c.fragTotal == (if begun then 0 else old(c.fragTotal))
    ensures c.fragOffset == (if begun then 0 else old(c.fragOffset))
    ensures t.Went(written) && (written ==> begun)
    ensures begun <==> old(t.wire) + old(c.Outbound()) <= t.wire
  {
    ghost var fits, was := c.length == |packet|, t.wire;
    ghost var excess := Excess(fits, f, c.outStart + |packet| - |payload|);
    ghost var x := if fits then f - (c.outStart + |packet| - |payload|) else 0;
    assert excess == if x > 0 then x else 0;
    ghost var done: seq<byte>, first, front := [], true, c.Outbound();
    var remaining, current := |payload|, 0;
    var sending := true;
    while sending
      invariant c.out == c.buffer && c.outStart + c.length <= c.buffer.Length
      invariant t.wire == was + done
      invariant sending ==> Planned(packet, done + c.Outbound(), fits)
      invariant sending ==> |done| + c.length + (remaining - (c.length - c.fragOffset)) == |packet| + x
      invariant sending ==> current + remaining == |payload| && (fits || |done| + c.length >= |packet| - |payload|)
      invariant sending && !first ==> c.fragOffset == 0 && c.length > 0 && remaining - c.length >= 0 && (fits ==> x > 0)
      invariant first ==> done == [] && c.outStart == old(c.outStart) && c.length == old(c.length)
      invariant !sending ==> packet <= done && |done| == |packet| + excess
      invariant c.fragTotal == (if first then old(c.fragTotal) else 0)
      invariant c.fragOffset == (if first then old(c.fragOffset) else 0)
      invariant first ==> sending && c.Outbound() == front
      invariant !first ==> front <= done
      invariant t.Went(true)
      decreases sending, first, remaining
    {
      var sent, dataSent := WriteBuffer(c, t);
      if !sent {
        Stopped(was, done, c.Outbound(), packet, t.wire, front, first, fits, excess);
        return false, [], !first;
      }
      Regroup3(was, done, c.Outbound());
      done := done + c.Outbound();
      remaining, current := remaining - dataSent, current + dataSent;
      first := false;
      if remaining > 0 {
        LoadNext(c, payload, current, remaining, packet, done, fits);
      } else {
        sending := false;
      }
    }
    AllWritten(was, done, packet, front);
    return true, done[|packet|..], true;
  }

  /** Everything is on the wire, the packet first. */
  lemma AllWritten(was: seq<byte>, done: seq<byte>, packet: seq<byte>, front: seq<byte>)
    requires packet <= done && front <= done
    ensures was + done == was + packet + done[|packet|..] && was + front <= was + done
  {
    assert done == packet + done[|packet|..];
    Regroup3(was, packet, done[|packet|..]);
  }

  /** Whether a built publish is written at once. */
  predicate Attempted(cfg: Config, st: State, qos: nat) {
    st.phase == Connected && !(qos > 0 && QuotaFull(cfg, st))
  }

  /** The item stored last is this publish. */
  predicate LastIs(s: seq<Entry>, id: nat, qos: nat, packet: seq<byte>) {
    s != [] && var e := s[|s| - 1]; e == Entry(e.serial, id, MSG_PUBLISH, qos, e.tick, Queued, packet)
  }

  /** What a call can change, as values: stored packets, wire and fragment fields. */
  datatype World = World(state: State, at: Moment, fields: Fields)

  /** A publish: id, QoS and bytes, the lengths of header and payload, and the length the caller named. */
  datatype Message = Message(id: nat, qos: nat, packet: seq<byte>, header: nat, payload: nat, len: nat)

  /** How many bytes too many a publish writes: what an offset left behind by an earlier publish makes of it. */
  function ExcessOf(m: Message, room: nat, offset: int): nat {
    Excess(GAP + m.header + m.payload <= room, offset, GAP + m.header)
  }

  /**
   * A publish call, once the message is built: the step of the protocol machine, the answer, the bytes on the wire,
   * whether the network took them, and what is left in the fragment fields.
   */
  predicate PublishDone(cfg: Config, net: Answers, a: World, b: World, m: Message, stored: int, sent: int, ret: int,
                        written: bool, begun: bool, extra: seq<byte>) {
    var attempted := Attempted(cfg, a.state, m.qos);
    && b.state == Step(cfg, a.state, PublishCall(m.id, m.qos, m.packet, m.len, stored, sent, written))
    && Outcome(attempted, m.id, m.qos, ret, written, a.at.wire, b.at.wire, m.packet, extra,
               ExcessOf(m, cfg.bufferLength, a.fields.offset))
    && (written ==> begun) && (if attempted then Told(net, a.at.asked, b.at.asked, written) else !begun && b.at == a.at)
    && Becomes(a.fields, Building(GAP + m.header, m.payload, cfg.bufferLength, begun, false), b.fields)
  }

  /** The part of that after the message was stored; offset is what the payload offset was before the call. */
  predicate DispatchDone(cfg: Config, net: Answers, a: World, b: World, m: Message, offset: int, sent: int, ret: int,
                         written: bool, begun: bool, extra: seq<byte>) {
    var attempted := Attempted(cfg, a.state, m.qos);
    && (m.qos > 0 ==> a.state.outbox != [])
    && b.state == (if attempted then SentNow(cfg, a.state, m.qos, m.packet, sent, written) else a.state)
    && Outcome(attempted, m.id, m.qos, ret, written, a.at.wire, b.at.wire, m.packet, extra,
               ExcessOf(m, cfg.bufferLength, offset))
    && (written ==> begun) && (if attempted then Told(net, a.at.asked, b.at.asked, written) else !begun && b.at == a.at)
    && b.fields == Fields(0, if begun then 0 else a.fields.offset)
  }

  /** Storing and dispatching is the publish step. */
  lemma DispatchIsPublish(cfg: Config, net: Answers, a: World, s: World, b: World, m: Message, stored: int, sent: int,
                          ret: int, written: bool, begun: bool, extra: seq<byte>)
    requires !(m.qos > 0 && OverLimit(cfg, a.state, m.len)) && Sound(a.fields) && GAP + m.header + m.payload < V.LIMIT
    requires s.state == if m.qos > 0 then Store(a.state, m.id, MSG_PUBLISH, m.qos, stored, m.packet) else a.state
    requires s.at == a.at && s.fields.offset == BuiltOffset(m, cfg.bufferLength, a.fields.offset)
    requires DispatchDone(cfg, net, s, b, m, a.fields.offset, sent, ret, written, begun, extra)
    ensures PublishDone(cfg, net, a, b, m, stored, sent, ret, written, begun, extra)
  {
  }

  /** The payload offset once a message is built. */
  function BuiltOffset(m: Message, room: nat, offset: int): int
    requires GAP + m.header + m.payload < V.LIMIT
  {
    (if GAP + m.header + m.payload <= room then offset else GAP + m.header) - Unused(m.header + m.payload)
  }

  /** An enqueue call, once the message is built. */
  predicate EnqueueDone(cfg: Config, a: World, b: World, m: Message, store: bool, now: int, ret: int) {
    && b.state == Step(cfg, a.state, EnqueueCall(m.id, m.qos, m.packet, m.len, store, now))
    && ret == (if m.qos > 0 || store then m.id else -1) && b.at == a.at
    && Becomes(a.fields, Building(GAP + m.header, m.payload, cfg.bufferLength, false, m.qos == 0 && !store), b.fields)
  }

  function SentNow(cfg: Config, st: State, qos: nat, packet: seq<byte>, sent: int, written: bool): State
    requires qos > 0 ==> st.outbox != []
  {
    if qos > 0 then Sent(cfg, st, |st.outbox| - 1, sent, written)
    else if written then Noted(st, WroteUnstored(packet, written))
    else Aborted(Noted(st, WroteUnstored(packet, written)))
  }

  /** The id that the parser of this version finds. */
  function IdOf(v5: bool, p: seq<byte>): (id: nat)
    requires p != []
    ensures id < 0x1_0000
  {
    if v5 then P5.MessageId5(p) else P3.MessageId(p)
  }

  /** The packet a received one is answered with. */
  function AnswerTo(kind: nat, qos: nat): Option<nat> {
    if kind == MSG_PUBREC then Some(MSG_PUBREL)
    else if kind == MSG_PUBREL then Some(MSG_PUBCOMP)
    else if kind == MSG_PUBLISH && qos == 1 then Some(MSG_PUBACK)
    else if kind == MSG_PUBLISH && qos == 2 then Some(MSG_PUBREC)
    else None
  }

  /** PUBACK, PUBREC, PUBREL or PUBCOMP for this id, under the header a fragment length left behind makes. */
  function AckBytes(v5: bool, kind: nat, id: nat, stale: nat): seq<byte>
    requires id < 0x1_0000 && (stale == 0 || stale >= GAP)
  {
    var body := U16(id) + if v5 then [0, 0] else [];
    Headed(kind, if kind == MSG_PUBREL then 1 else 0, 0, Claimed(stale, |body|), body)
  }

  /** The bytes that answer a received packet. */
  function AnswerBytes(v5: bool, kind: nat, qos: nat, id: nat, stale: nat): seq<byte>
    requires id < 0x1_0000 && (stale == 0 || stale >= GAP)
  {
    match AnswerTo(kind, qos)
    case None => []
    case Some(answer) => AckBytes(v5, answer, id, stale)
  }

  /** The PUBREL for the first acknowledged item. */
  function PubrelBytes(v5: bool, s: State, stale: nat): seq<byte>
    requires Answerable(s.outbox) && (stale == 0 || stale >= GAP)
  {
    var k := First(s.outbox, ByPending(Acknowledged));
    if k < |s.outbox| then AckBytes(v5, MSG_PUBREL, s.outbox[k].id, stale) else []
  }

  /** The SUBSCRIBE and UNSUBSCRIBE packets, without properties. */
  function RequestPacket(v5: bool, kind: nat, id: nat, body: seq<byte>): seq<byte>
    requires id < 0x1_0000
  {
    Packet(kind, 1, 0, U16(id) + (if v5 then [0] else []) + body)
  }

  /** The bytes a send puts on the wire: DUP goes on a publish that was transmitted before. */
  function SentBytes(e: Entry): seq<byte> {
    (if e.pending == Transmitted then Marked(e) else e).data
  }

  /** The first item in that state, sent. */
  function FirstBytes(st: State, p: Pending): seq<byte> {
    var k := First(st.outbox, ByPending(p));
    if k < |st.outbox| then SentBytes(st.outbox[k]) else []
  }

  /** The request an ack answers, and what its removal means. */
  function RequestOf(kind: nat): nat {
    if kind == MSG_SUBACK then MSG_SUBSCRIBE else if kind == MSG_UNSUBACK then MSG_UNSUBSCRIBE else MSG_PUBLISH
  }

  function FateOf(kind: nat): Fate {
    if kind == MSG_SUBACK then Subscribed else if kind == MSG_UNSUBACK then Unsubscribed else Published
  }

  lemma StopIsStep(cfg: Config, st: State)
    ensures Step(cfg, st, Input.Stop) == ClearAll(cfg, st).(phase := Disconnected)
  {
  }

  /** The step a received packet makes; none if it is not an ack. */
  function ReceivedStep(cfg: Config, st: State, kind: nat, id: nat): State {
    if kind in {MSG_SUBACK, MSG_UNSUBACK, MSG_PUBACK, MSG_PUBCOMP} then Step(cfg, st, AckInput(kind, id))
    else if kind == MSG_PUBREC then Step(cfg, st, Input.Pubrec(id))
    else st
  }

  /**
   * A SUBACK of MQTT 3.1.1 that answers 126 topics or more is read as one for the id 0, which no request has: nothing
   * changes, so the SUBSCRIBE stays stored.
   */
  lemma LongSubackIsLost(cfg: Config, st: State, id: nat, codes: seq<byte>)
    requires I.Inv(cfg, st) && 0 < id < 0x1_0000 && 126 <= |codes| && 2 + |codes| < V.LIMIT
    ensures ReceivedStep(cfg, st, MSG_SUBACK, P3.MessageId(Packet(MSG_SUBACK, 0, 0, U16(id) + codes))) == st
  {
    P3.IdReadsExactly(MSG_SUBACK, 0, id, codes);
    var q := ByIdAndKind(0, MSG_SUBSCRIBE);
    forall k | 0 <= k < |st.outbox| ensures !Matches(st.outbox[k], q) {
      assert I.Wellformed(st.outbox[k]);
    }
    FirstIs(st.outbox, q, |st.outbox|);
  }

  /** A packet that PUBREC acknowledged has an id to send PUBREL for. */
  predicate Answerable(s: seq<Entry>) {
    forall k :: 0 <= k < |s| && s[k].pending == Acknowledged ==> 1 <= s[k].id < 0x1_0000
  }

  /** In every run, also with ids in use twice, the stored packets are as the methods here need them. */
  lemma RunGives(cfg: Config, receiveMax: nat, inputs: seq<Input>)
    requires LegalButIdsRun(cfg, Initial(receiveMax), inputs)
    ensures var s := Run(cfg, Initial(receiveMax), inputs).outbox; Stocked(s) && Answerable(s) && FirstOfItsId(s)
  {
    S.RunKeepsFirst(cfg, Initial(receiveMax), inputs);
    S.RunKeepsFit(cfg, Initial(receiveMax), inputs);
    assert forall k :: 0 <= k < |Run(cfg, Initial(receiveMax), inputs).outbox| ==>
                         S.Fit(Run(cfg, Initial(receiveMax), inputs).outbox[k]);
  }

  function AckInput(kind: nat, id: nat): Input
    requires kind in {MSG_SUBACK, MSG_UNSUBACK, MSG_PUBACK, MSG_PUBCOMP}
  {
    if kind == MSG_SUBACK then Suback(id)
    else if kind == MSG_UNSUBACK then Unsuback(id)
    else if kind == MSG_PUBACK then Puback(id)
    else Pubcomp(id)
  }

  lemma CompletionIsStep(cfg: Config, st: State, kind: nat, id: nat)
    requires st.phase == Connected && kind in {MSG_SUBACK, MSG_UNSUBACK, MSG_PUBACK, MSG_PUBCOMP}
    ensures Step(cfg, st, AckInput(kind, id)) == Completed(cfg, st, id, RequestOf(kind), FateOf(kind))
    ensures First(st.outbox, ByIdAndKind(id, RequestOf(kind))) < |st.outbox|
            <==> |Step(cfg, st, AckInput(kind, id)).outbox| < |st.outbox|
  {
  }

  class Client {
    const session: Session
    const conn: Connection
    const transport: Transport
    var maxQos: nat
    var retainAvailable: bool
    var property: Option<Properties>
    var responseInfo: seq<byte>
    var lastRetransmit: int

    ghost predicate Valid()
      reads conn`fragTotal, conn`lastMessageId, session, session.outbox, session.outbox.items, session.outbox.buffers
    {
      && session.Valid() && Ready(conn)
      && session.cfg.bufferLength == conn.buffer.Length && conn.buffer !in session.outbox.buffers
    }

    constructor (cfg: Config, incremental: bool, network: Answers)
      requires 16 <= cfg.bufferLength < V.LIMIT
      ensures Valid() && fresh(conn) && fresh(conn.buffer) && fresh(session) && fresh(session.outbox)
              && fresh(transport)
      ensures session.cfg == cfg && session.state == Initial(0xFFFF) && Frag() == Fields(0, 0)
    {
      conn := new Connection(cfg.bufferLength, incremental);
      session := new Session(cfg);
      transport := new Transport(network);
      maxQos, retainAvailable := 2, true;
      property, responseInfo := None, [];
      lastRetransmit := 0;
    }

    /** What the connection remembers of a message larger than the output buffer. */
    ghost function Frag(): Fields
      reads conn`fragTotal, conn`fragOffset
    {
      Fields(conn.fragTotal, conn.fragOffset)
    }

    ghost function Here(): World
      reads session`state, transport`asked, transport`wire, conn`fragTotal, conn`fragOffset
    {
      World(session.state, transport.Now(), Frag())
    }

    /** Which ids a call drew that may draw one: the id of the packet it built, or at most one to no effect. */
    twostate predicate Drew(draws: bool, id: int)
      reads conn`lastMessageId
    {
      if !draws then conn.lastMessageId == old(conn.lastMessageId)
      else if id > 0 then conn.DrewNext(old(conn.lastMessageId), id)
      else conn.DrewAtMostOne(old(conn.lastMessageId))
    }

    /** The variable header make_publish would build. */
    ghost function Header(topic: seq<byte>, qos: int, id: nat): seq<byte>
      reads this`property, this`responseInfo
      requires |topic| < 0x1_0000 && id < 0x1_0000
      requires property.Some? ==> Sized(property.value) && InfoFits(property.value, responseInfo)
    {
      if session.cfg.v5 then Header5(topic, qos, id, BlockOf(property, responseInfo)) else Header3(topic, qos, id)
    }

    /** The packet it would build. */
    ghost function PacketFor(topic: seq<byte>, data: Data, qos: nat, retain: int, id: nat): seq<byte>
      reads this`property, this`responseInfo
      requires |topic| < 0x1_0000 && id < 0x1_0000
      requires property.Some? ==> Sized(property.value) && InfoFits(property.value, responseInfo)
    {
      Packet(MSG_PUBLISH, qos, retain, Header(topic, qos, id) + Content(data))
    }

    /** The message it would build. */
    ghost function MessageFor(topic: seq<byte>, data: Data, qos: nat, retain: int, id: nat): Message
      reads this`property, this`responseInfo
      requires |topic| < 0x1_0000 && id < 0x1_0000
      requires property.Some? ==> Sized(property.value) && InfoFits(property.value, responseInfo)
    {
      Message(id, qos, PacketFor(topic, data, qos, retain, id), |Header(topic, qos, id)|, |Content(data)|, Length(data))
    }

    /** The lengths the program can handle, and no null payload over a fragment length left behind. */
    ghost predicate Publishable(topic: seq<byte>, data: Data, qos: nat)
      reads this`property, this`responseInfo, conn`fragTotal
    {
      && (property.Some? ==> Sized(property.value) && InfoFits(property.value, responseInfo))
      && |topic| < 0x1_0000 && qos <= 2
      && GAP + |Header(topic, qos, 0)| + 2 + Length(data) < V.LIMIT
      && (data.Null? && !session.cfg.v5 ==> conn.fragTotal == 0)
    }

    /** Whether make_publish builds a packet. */
    ghost predicate Accepted(topic: seq<byte>, data: Data, qos: nat)
      reads this`property, this`responseInfo
      requires property.Some? ==> Sized(property.value) && InfoFits(property.value, responseInfo)
    {
      if session.cfg.v5 then Accepts5(topic, data, qos, property, BlockOf(property, responseInfo), conn.buffer.Length)
      else Accepts(topic, data, qos, conn.buffer.Length)
    }

    method MakePublish(topic: seq<byte>, data: Data, qos: nat, retain: int) returns (id: int)
      requires Ready(conn) && Publishable(topic, data, qos)
      modifies this`property, conn, conn.buffer
      ensures Ready(conn) && -1 <= id < 0x1_0000 && (id == -1 <==> !old(Accepted(topic, data, qos)))
      ensures id != -1 ==>
                && (id != 0 <==> qos > 0)
                && Finished(conn, old(Header(topic, qos, id)), Content(data), qos, retain, old(conn.fragOffset))
      ensures id == -1 ==> conn.fragTotal == old(conn.fragTotal) && conn.fragOffset == old(conn.fragOffset)
      ensures property == if id != -1 && session.cfg.v5 then None else old(property)
      ensures Drew(qos > 0, id)
    {
      if session.cfg.v5 {
        id := MakePublish5(topic, data, qos, retain);
      } else {
        id := MsgPublish(conn, topic, data, qos, retain);
      }
      if conn.length == 0 { id := -1; }
    }

    /** The properties that were set for the next publish go with this one, if it is built. */
    method MakePublish5(topic: seq<byte>, data: Data, qos: nat, retain: int) returns (id: nat)
      requires Ready(conn) && Publishable(topic, data, qos) && session.cfg.v5
      modifies this`property, conn, conn.buffer
      ensures Ready(conn) && id < 0x1_0000 && (qos == 0 ==> id == 0) && (conn.length > 0 && qos > 0 ==> id > 0)
      ensures (conn.length > 0) == old(Accepted(topic, data, qos))
      ensures conn.length > 0 ==>
                Finished(conn, old(Header(topic, qos, id)), Content(data), qos, retain, old(conn.fragOffset))
      ensures conn.length == 0 ==> conn.fragTotal == old(conn.fragTotal) && conn.fragOffset == old(conn.fragOffset)
      ensures property == if conn.length > 0 then None else old(property)
      ensures Drew(qos > 0, if conn.length > 0 then id else -1)
    {
      id := MsgPublish5(conn, topic, data, qos, retain, property, responseInfo);
      if conn.length > 0 {
        property := None;
      }
    }

    /** A publish stands in the buffer, as far as it fits; a is what the fragment fields were before. */
    ghost predicate Prepared(m: Message, payload: seq<byte>, a: Fields)
      reads conn`out, conn`outStart, conn`length, conn`fragTotal, conn`fragOffset, conn.out
    {
      && Built(conn, m.packet, payload, a.offset) && Kind(m.packet[0]) == MSG_PUBLISH && |payload| == m.payload
      && GAP + m.header + m.payload < V.LIMIT && conn.outStart == Unused(m.header + m.payload)
      && conn.outStart + |m.packet| == GAP + m.header + m.payload
      && conn.fragTotal == if conn.length == |m.packet| then 0 else GAP + m.header + m.payload
    }

    /** The payload bytes that did not go into the buffer; the message counts as whole from now on. */
    method TakeRemaining(payload: seq<byte>, ghost packet: seq<byte>, ghost f: int) returns (rest: seq<byte>)
      requires Built(conn, packet, payload, f) && (conn.fragTotal == 0 <==> conn.length == |packet|)
      modifies conn`fragTotal
      ensures packet == conn.out[conn.outStart..conn.outStart + conn.length] + rest && conn.fragTotal == 0
    {
      if conn.fragTotal == 0 {
        assert packet + [] == packet;
        return [];
      }
      conn.fragTotal := 0;
      var firstFragment := conn.length - conn.fragOffset;
      return payload[firstFragment..];
    }

    /** A packet that fits is stored from the buffer alone, a larger one from the buffer and the rest of the payload. */
    method StorePublish(id: nat, ghost packet: seq<byte>, payload: seq<byte>, qos: nat, now: int, ghost f: int)
      requires Valid() && Built(conn, packet, payload, f)
      requires (conn.fragTotal == 0 <==> conn.length == |packet|) && Kind(packet[0]) == MSG_PUBLISH
      modifies conn`fragTotal, session`state, session.outbox, session.outbox.items
      ensures Valid() && session.Fresh() && conn.fragTotal == 0
      ensures session.state == Store(old(session.state), id, MSG_PUBLISH, qos, now, packet)
    {
      var kind := Kind(conn.out[conn.outStart]);
      assert conn.out[conn.outStart] == packet[0];
      var rest := TakeRemaining(payload, packet, f);
      session.Enqueue(id, kind, qos, conn.out, conn.outStart, conn.length, rest, now, packet);
    }

    /** The bytes of a publish go out; an abort if they cannot. The k-th item is the stored copy, if there is one. */
    method WritePublish(payload: seq<byte>, ghost packet: seq<byte>, ghost f: int, ghost excess: nat, ghost k: nat)
      returns (written: bool, ghost extra: seq<byte>, ghost begun: bool)
      requires Valid() && Built(conn, packet, payload, f)
      requires var s := session.state.outbox; k < |s| ==> s[k].data == packet && s[k].pending == Queued
      requires excess == Excess(conn.length == |packet|, f, conn.outStart + |packet| - |payload|)
      modifies session`phase, session`state, conn`out, conn`outStart, conn`length, conn`fragTotal, conn`fragOffset
      modifies conn.buffer, transport
      ensures Valid() && conn.fragTotal == 0
      ensures session.state == (
                if k < |old(session.state).outbox| then Resent(old(session.state), k, written)
                else
                  var s := Noted(old(session.state), WroteUnstored(packet, written));
                  if written then s else Aborted(s))
      ensures Carries(written, old(transport.wire), transport.wire, packet, extra, excess)
      ensures transport.Went(written) && (written ==> begun)
      ensures conn.fragOffset == if begun then 0 else old(conn.fragOffset)
    {
      written, extra, begun := WriteFragments(conn, transport, payload, packet, f);
      Record(written, packet, k);
      if !written {
        conn.fragTotal := 0;
      }
    }

    /** What became of a write; an abort if it failed. */
    method Record(written: bool, ghost packet: seq<byte>, ghost k: nat)
      requires session.Valid()
      requires var s := session.state.outbox; k < |s| ==> s[k].data == packet && s[k].pending == Queued
      modifies session`phase, session`state
      ensures session.Valid()
      ensures session.state == (
                if k < |old(session.state).outbox| then Resent(old(session.state), k, written)
                else
                  var s := Noted(old(session.state), WroteUnstored(packet, written));
                  if written then s else Aborted(s))
    {
      ghost var s := session.state;
      if k < |s.outbox| {
        assert s.outbox[k := s.outbox[k]] == s.outbox;
        session.Note(Wrote(s.outbox[k].serial, s.outbox[k].id, s.outbox[k].kind, s.outbox[k].qos, packet, written));
      } else {
        session.Note(WroteUnstored(packet, written));
      }
      if !written {
        session.AbortConnection();
      }
    }

    method SendNow(id: nat, qos: nat, payload: seq<byte>, sent: int, ghost packet: seq<byte>, ghost f: int,
                   ghost excess: nat)
      returns (written: bool, ghost extra: seq<byte>, ghost begun: bool)
      requires Valid() && Built(conn, packet, payload, f) && (qos > 0 ==> LastIs(session.state.outbox, id, qos, packet))
      requires excess == Excess(conn.length == |packet|, f, conn.outStart + |packet| - |payload|)
      modifies session, session.outbox`contents, session.outbox.items
      modifies conn`out, conn`outStart, conn`length, conn`fragTotal, conn`fragOffset, conn.buffer, transport
      ensures Valid() && conn.fragTotal == 0 && transport.Went(written) && (written ==> begun)
      ensures conn.fragOffset == if begun then 0 else old(conn.fragOffset)
      ensures session.state == SentNow(session.cfg, old(session.state), qos, packet, sent, written)
      ensures Carries(written, old(transport.wire), transport.wire, packet, extra, excess)
    {
      ghost var k := if qos > 0 then |session.state.outbox| - 1 else |session.state.outbox|;
      written, extra, begun := WritePublish(payload, packet, f, excess, k);
      if written {
        if qos > 0 {
          session.MarkSent(id, true, sent);
        }
      }
    }

    /** Writes a publish if the client is connected and the quota has room, and counts it. */
    method Dispatch(id: nat, qos: nat, payload: seq<byte>, sent: int, ghost m: Message, ghost offset: int)
      returns (ret: int, ghost written: bool, ghost extra: seq<byte>, ghost begun: bool)
      requires Valid() && Built(conn, m.packet, payload, offset) && m.id == id && m.qos == qos && |payload| == m.payload
      requires conn.outStart + |m.packet| == GAP + m.header + m.payload
      requires qos > 0 ==> LastIs(session.state.outbox, id, qos, m.packet)
      modifies session, session.outbox`contents, session.outbox.items
      modifies conn`out, conn`outStart, conn`length, conn`fragTotal, conn`fragOffset, conn.buffer, transport
      ensures Valid() && conn.fragTotal in {0, old(conn.fragTotal)}
      ensures DispatchDone(session.cfg, transport.network, old(Here()), Here().(fields := Fields(0, conn.fragOffset)),
                           m, offset, sent, ret, written, begun, extra)
      ensures conn.fragTotal == 0 || qos > 0
    {
      if session.phase != Connected {
        conn.fragTotal := 0;
        return if qos > 0 then id else -1, false, [], false;
      }
      if qos > 0 && session.cfg.v5 && session.count >= session.receiveMax {
        return id, false, [], false;
      }
      var done;
      done, extra, begun := SendNow(id, qos, payload, sent, m.packet, offset, ExcessOf(m, conn.buffer.Length, offset));
      return if done then id else -1, done, extra, begun;
    }

    predicate PublishCheck(qos: nat, retain: int)
      reads this`maxQos, this`retainAvailable
    {
      session.cfg.v5 ==> qos <= maxQos && (retainAvailable || retain == 0)
    }

    method StoreIfAcked(id: nat, qos: nat, payload: seq<byte>, now: int, ghost m: Message, ghost a: Fields)
      requires Valid() && Prepared(m, payload, a)
      modifies conn`fragTotal, session`state, session.outbox, session.outbox.items
      ensures Valid() && session.Fresh() && (qos > 0 ==> conn.fragTotal == 0)
      ensures session.state == if qos > 0 then Store(old(session.state), id, MSG_PUBLISH, qos, now, m.packet)
                               else old(session.state)
      ensures conn.fragOffset == BuiltOffset(m, conn.buffer.Length, a.offset)
      ensures Built(conn, m.packet, payload, a.offset)
    {
      if qos > 0 {
        StorePublish(id, m.packet, payload, qos, now, a.offset);
      }
    }

    /** A publish that was built: stored if it needs an ack, and written if it may be; a is the world before. */
    method StoreAndDispatch(id: nat, qos: nat, payload: seq<byte>, stored: int, sent: int, ghost m: Message,
                            ghost a: World)
      returns (ret: int, ghost written: bool, ghost extra: seq<byte>, ghost begun: bool)
      requires Valid() && Prepared(m, payload, a.fields) && Sound(a.fields) && m.id == id && m.qos == qos
      requires a == Here().(fields := a.fields) && !(qos > 0 && OverLimit(session.cfg, session.state, m.len))
      modifies conn`out, conn`outStart, conn`length, conn`fragTotal, conn`fragOffset, conn.buffer
      modifies transport, session, session.outbox, session.outbox.items
      ensures Valid() && session.Fresh()
      ensures PublishDone(session.cfg, transport.network, a, Here(), m, stored, sent, ret, written, begun, extra)
    {
      StoreIfAcked(id, qos, payload, stored, m, a.fields);
      ghost var s := Here();
      ret, written, extra, begun := Dispatch(id, qos, payload, sent, m, a.fields.offset);
      DispatchIsPublish(session.cfg, transport.network, a, s, Here(), m, stored, sent, ret, written, begun, extra);
    }

    /** The checks before anything is built. */
    function Admit(qos: nat, retain: int, len: nat): (code: int)
      requires session.Valid()
      reads this, session, session.outbox, session.outbox.items, session.outbox.buffers
      ensures code == -1 <==> !PublishCheck(qos, retain)
      ensures code == -2 <==> PublishCheck(qos, retain) && qos > 0 && OverLimit(session.cfg, session.state, len)
      ensures -2 <= code <= 0
    {
      if !PublishCheck(qos, retain) then -1
      else if session.cfg.limit > 0 && qos > 0 && len + session.outbox.GetSize() > session.cfg.limit then -2
      else 0
    }

    /** make_publish, seen from the client: the packet is ready to be stored and written. */
    method BuildPublish(topic: seq<byte>, data: Data, qos: nat, retain: int) returns (id: int, ghost m: Message)
      requires Valid() && Publishable(topic, data, qos)
      modifies this`property, conn, conn.buffer
      ensures Valid() && -1 <= id < 0x1_0000 && (id == -1 <==> !old(Accepted(topic, data, qos)))
      ensures id != -1 ==>
                && (id != 0 <==> qos > 0) && m == old(MessageFor(topic, data, qos, retain, id))
                && Prepared(m, Content(data), old(Frag()))
      ensures id == -1 ==> Frag() == old(Frag())
      ensures property == if id != -1 && session.cfg.v5 then None else old(property)
      ensures Drew(qos > 0, id)
    {
      id, m := MakeMessage(topic, data, qos, retain);
    }

    method MakeMessage(topic: seq<byte>, data: Data, qos: nat, retain: int) returns (id: int, ghost m: Message)
      requires Ready(conn) && Publishable(topic, data, qos)
      modifies this`property, conn, conn.buffer
      ensures Ready(conn) && -1 <= id < 0x1_0000 && (id == -1 <==> !old(Accepted(topic, data, qos)))
      ensures id != -1 ==>
                && (id != 0 <==> qos > 0) && m == old(MessageFor(topic, data, qos, retain, id))
                && Prepared(m, Content(data), old(Frag()))
      ensures id == -1 ==> Frag() == old(Frag())
      ensures property == if id != -1 && session.cfg.v5 then None else old(property)
      ensures Drew(qos > 0, id)
    {
      ghost var a := Frag();
      id := MakePublish(topic, data, qos, retain);
      m := Message(0, 0, [], 0, 0, 0);
      if id != -1 {
        ghost var header := old(Header(topic, qos, id));
        m := old(MessageFor(topic, data, qos, retain, id));
        FinishedIsPrepared(m, header, Content(data), retain, a);
      }
    }

    lemma FinishedIsPrepared(m: Message, header: seq<byte>, payload: seq<byte>, retain: int, a: Fields)
      requires Finished(conn, header, payload, m.qos, retain, a.offset) && m.qos <= 2
      requires m.packet == Packet(MSG_PUBLISH, m.qos, retain, header + payload)
      requires m.header == |header| && m.payload == |payload|
      ensures Prepared(m, payload, a)
    {
      FirstByteFields(MSG_PUBLISH, 0, m.qos, retain);
    }

    /** Whether a call is turned down before it has any effect on what is stored or sent. */
    ghost predicate Refused(topic: seq<byte>, data: Data, qos: nat, retain: int, limited: bool)
      reads this, session`state
      requires property.Some? ==> Sized(property.value) && InfoFits(property.value, responseInfo)
    {
      || !PublishCheck(qos, retain)
      || (limited && OverLimit(session.cfg, session.state, Length(data)))
      || !Accepted(topic, data, qos)
    }

    /** What the calls build is what the protocol machine's guarantees ask for, if ids are in use at most once. */
    lemma PublishIsLegal(topic: seq<byte>, data: Data, qos: nat, retain: int, id: nat, stored: int, sent: int,
                         written: bool, store: bool)
      requires Valid() && Publishable(topic, data, qos) && Accepted(topic, data, qos) && id < 0x1_0000
      requires if qos > 0 then FreshId(session.state.outbox, id) else id == 0
      ensures var packet := PacketFor(topic, data, qos, retain, id);
              && Legal(session.cfg, session.state, PublishCall(id, qos, packet, Length(data), stored, sent, written))
              && Legal(session.cfg, session.state, EnqueueCall(id, qos, packet, Length(data), store, stored))
    {
      var body := Header(topic, qos, id) + Content(data);
      V.FourBytes(|body|);
      FirstByteFields(MSG_PUBLISH, 0, qos, retain);
    }

    lemma RequestIsLegal(kind: nat, id: nat, body: seq<byte>, now: int, written: bool)
      requires Valid() && FreshId(session.state.outbox, id) && id < 0x1_0000
      requires GAP + (if session.cfg.v5 then 3 else 2) + |body| <= conn.buffer.Length
      ensures var packet := RequestPacket(session.cfg.v5, kind, id, body);
              && Legal(session.cfg, session.state, SubscribeCall(id, packet, now, written))
              && Legal(session.cfg, session.state, UnsubscribeCall(id, packet, now, written))
    {
      var rest := U16(id) + (if session.cfg.v5 then [0] else []) + body;
      V.FourBytes(|rest|);
    }

    /** esp_mqtt_client_publish. */
    method Publish(topic: seq<byte>, data: Data, qos: nat, retain: int, stored: int, sent: int)
      returns (ret: int, ghost id: int, ghost m: Message, ghost written: bool, ghost begun: bool,
               ghost extra: seq<byte>)
      requires Valid() && Publishable(topic, data, qos)
      modifies this`property, conn, conn.buffer, transport, session, session.outbox, session.outbox.items
      ensures Valid() && session.Fresh()
      ensures id == -1 <==> old(Refused(topic, data, qos, retain, qos > 0))
      ensures property == if id != -1 && session.cfg.v5 then None else old(property)
      ensures id == -1 ==>
                Here() == old(Here())
                && ret == if PublishCheck(qos, retain) && qos > 0 && OverLimit(session.cfg, session.state, Length(data))
                          then -2 else -1
      ensures id != -1 ==>
                && 0 <= id < 0x1_0000 && (id != 0 <==> qos > 0) && m == old(MessageFor(topic, data, qos, retain, id))
                && PublishDone(session.cfg, transport.network, old(Here()), Here(), m, stored, sent, ret, written,
                               begun, extra)
      ensures Drew(qos > 0, id)
    {
      id, m, written, begun, extra := -1, Message(0, 0, [], 0, 0, 0), false, false, [];
      ret := Admit(qos, retain, Length(data));
      if ret == 0 {
        ret, id, m, written, begun, extra := PublishAdmitted(topic, data, qos, retain, stored, sent);
      }
    }

    method PublishAdmitted(topic: seq<byte>, data: Data, qos: nat, retain: int, stored: int, sent: int)
      returns (ret: int, ghost id: int, ghost m: Message, ghost written: bool, ghost begun: bool,
               ghost extra: seq<byte>)
      requires Valid() && Publishable(topic, data, qos)
      requires !(qos > 0 && OverLimit(session.cfg, session.state, Length(data)))
      modifies this`property, conn, conn.buffer, transport, session, session.outbox, session.outbox.items
      ensures Valid() && session.Fresh() && (id == -1 <==> !old(Accepted(topic, data, qos)))
      ensures property == if id != -1 && session.cfg.v5 then None else old(property)
      ensures id == -1 ==> Here() == old(Here()) && ret == -1
      ensures id != -1 ==>
                && 0 <= id < 0x1_0000 && (id != 0 <==> qos > 0) && m == old(MessageFor(topic, data, qos, retain, id))
                && PublishDone(session.cfg, transport.network, old(Here()), Here(), m, stored, sent, ret, written,
                               begun, extra)
      ensures Drew(qos > 0, id)
    {
      written, begun, extra := false, false, [];
      ghost var a := Here();
      ret, m := BuildPublish(topic, data, qos, retain);
      id := ret;
      if ret == -1 { return; }
      ret, written, extra, begun := StoreAndDispatch(ret, qos, Content(data), stored, sent, m, a);
    }

    /** esp_mqtt_client_enqueue: here the limit comes first, and holds for QoS 0 too. Nothing is written. */
    method Enqueue(topic: seq<byte>, data: Data, qos: nat, retain: int, store: bool, now: int)
      returns (ret: int, ghost id: int, ghost m: Message)
      requires Valid() && Publishable(topic, data, qos)
      modifies this`property, conn, conn.buffer, session`state, session.outbox, session.outbox.items
      ensures Valid() && session.Fresh()
      ensures id == -1 <==> old(Refused(topic, data, qos, retain, true))
      ensures property == if id != -1 && session.cfg.v5 then None else old(property)
      ensures id == -1 ==>
                Here() == old(Here()) && ret == if OverLimit(session.cfg, session.state, Length(data)) then -2 else -1
      ensures id != -1 ==>
                && 0 <= id < 0x1_0000 && (id != 0 <==> qos > 0) && m == old(MessageFor(topic, data, qos, retain, id))
                && EnqueueDone(session.cfg, old(Here()), Here(), m, store, now, ret)
      ensures Drew(qos > 0, id)
    {
      id, m := -1, Message(0, 0, [], 0, 0, 0);
      ret := AdmitEnqueue(qos, retain, Length(data));
      if ret == 0 {
        ret, id, m := EnqueueAdmitted(topic, data, qos, retain, store, now);
      }
    }

    method EnqueueAdmitted(topic: seq<byte>, data: Data, qos: nat, retain: int, store: bool, now: int)
      returns (ret: int, ghost id: int, ghost m: Message)
      requires Valid() && Publishable(topic, data, qos) && !OverLimit(session.cfg, session.state, Length(data))
      modifies this`property, conn, conn.buffer, session`state, session.outbox, session.outbox.items
      ensures Valid() && session.Fresh() && (id == -1 <==> !old(Accepted(topic, data, qos)))
      ensures property == if id != -1 && session.cfg.v5 then None else old(property)
      ensures id == -1 ==> Here() == old(Here()) && ret == -1
      ensures id != -1 ==>
                && 0 <= id < 0x1_0000 && (id != 0 <==> qos > 0) && m == old(MessageFor(topic, data, qos, retain, id))
                && EnqueueDone(session.cfg, old(Here()), Here(), m, store, now, ret)
      ensures Drew(qos > 0, id)
    {
      ghost var a := Here();
      ret, m := BuildPublish(topic, data, qos, retain);
      id := ret;
      if ret == -1 { return; }
      ret := StoreOrDrop(ret, qos, Content(data), store, now, m, a);
    }

    function AdmitEnqueue(qos: nat, retain: int, len: nat): (code: int)
      requires session.Valid()
      reads this, session, session.outbox, session.outbox.items, session.outbox.buffers
      ensures code == -2 <==> OverLimit(session.cfg, session.state, len)
      ensures code == -1 <==> !OverLimit(session.cfg, session.state, len) && !PublishCheck(qos, retain)
      ensures -2 <= code <= 0
    {
      if session.cfg.limit > 0 && len + session.outbox.GetSize() > session.cfg.limit then -2
      else if PublishCheck(qos, retain) then 0
      else -1
    }

    method StoreOrDrop(id: nat, qos: nat, payload: seq<byte>, store: bool, now: int, ghost m: Message, ghost a: World)
      returns (ret: int)
      requires Valid() && Prepared(m, payload, a.fields) && Sound(a.fields) && m.id == id && m.qos == qos
      requires a == Here().(fields := a.fields) && !OverLimit(session.cfg, session.state, m.len)
      modifies conn`fragTotal, session`state, session.outbox, session.outbox.items
      ensures Valid() && session.Fresh() && EnqueueDone(session.cfg, a, Here(), m, store, now, ret)
    {
      if qos > 0 || store {
        StorePublish(id, m.packet, payload, qos, now, a.fields.offset);
        return id;
      }
      return -1;
    }

    // ---------- subscribe and unsubscribe

    /** mqtt_reset_pending_message. */
    method ResetPending()
      modifies conn`fragTotal, conn`fragOffset
      ensures conn.fragTotal == 0 && conn.fragOffset == 0
    {
      conn.fragTotal, conn.fragOffset := 0, 0;
    }

    /** A request is stored as transmitted before it is written; a failed write leaves it so, and keeps the session. */
    method SendRequest(id: nat, kind: nat, now: int, ghost packet: seq<byte>) returns (ret: int, ghost written: bool)
      requires Valid() && conn.out == conn.buffer && conn.outStart + conn.length <= conn.buffer.Length
      requires packet == conn.Outbound()
      modifies session`state, session.outbox, session.outbox.items, transport
      ensures Valid() && session.Fresh()
      ensures session.state == Requested(old(session.state), id, kind, packet, now, written)
      ensures Carries(written, old(transport.wire), transport.wire, packet, [], 0) && ret == if written then id else -1
      ensures transport.Went(written)
    {
      StoreTransmitted(id, kind, now, packet);
      var status := WriteOutbound(conn, transport);
      written := status == Done;
      session.Note(Wrote(old(session.state).next, id, kind, 0, packet, written));
      ret := if status == Done then id else -1;
    }

    method StoreTransmitted(id: nat, kind: nat, now: int, ghost packet: seq<byte>)
      requires Valid() && conn.out == conn.buffer && conn.outStart + conn.length <= conn.buffer.Length
      requires packet == conn.Outbound()
      modifies session`state, session.outbox, session.outbox.items
      ensures Valid() && session.Fresh()
      ensures var s := Store(old(session.state), id, kind, 0, now, packet);
              session.state == s.(outbox := OutboxModel.SetPending(s.outbox, id, Transmitted))
    {
      session.Enqueue(id, kind, 0, conn.out, conn.outStart, conn.length, [], now, packet);
      session.SetPending(id, Transmitted);
    }

    /** The length of a request after its fixed header. */
    function RequestSize(body: nat): nat {
      (if session.cfg.v5 then 3 else 2) + body
    }

    method BuildSubscribe(list: seq<Topic>) returns (id: int)
      requires Valid() && GoodTopics(list) && conn.fragTotal == 0
      modifies conn, conn.buffer
      ensures Valid() && -1 <= id < 0x1_0000 && id != 0 && Drew(true, id)
      ensures conn.fragTotal == 0
      ensures id != -1 <==> (forall k :: 0 <= k < |list| ==> list[k].filter != [])
                            && GAP + (if session.cfg.v5 then 3 else 2) + |TopicBytes(list)| <= conn.buffer.Length
      ensures id == -1 ==> conn.fragOffset == old(conn.fragOffset)
      ensures id != -1 ==> conn.fragOffset == old(conn.fragOffset) - Unused(RequestSize(|TopicBytes(list)|))
      ensures id != -1 ==>
                && conn.out == conn.buffer && conn.outStart + conn.length <= conn.buffer.Length
                && conn.Outbound() == RequestPacket(session.cfg.v5, MSG_SUBSCRIBE, id, TopicBytes(list))
    {
      if session.cfg.v5 {
        id := MsgSubscribe5(conn, list);
      } else {
        id := MsgSubscribe(conn, list);
        assert U16(id) + TopicBytes(list) == U16(id) + [] + TopicBytes(list);
      }
      if conn.length == 0 { id := -1; }
    }

    method SubscribeCheck(list: seq<Topic>) returns (ok: bool)
      requires list != []
      ensures ok <==> forall k :: 0 <= k < |list| ==> list[k].qos <= maxQos
    {
      var max, k := list[0].qos, 0;
      while k < |list|
        invariant 0 <= k <= |list| && exists j :: 0 <= j < |list| && list[j].qos == max
        invariant forall j :: 0 <= j < k ==> list[j].qos <= max
      {
        if list[k].qos > max {
          max := list[k].qos;
        }
        k := k + 1;
      }
      return max <= maxQos;
    }

    ghost predicate Subscribable(list: seq<Topic>)
      reads this`maxQos
    {
      && (session.cfg.v5 ==> forall k :: 0 <= k < |list| ==> list[k].qos <= maxQos)
      && (forall k :: 0 <= k < |list| ==> list[k].filter != [])
      && GoodTopics(list) && GAP + (if session.cfg.v5 then 3 else 2) + |TopicBytes(list)| <= conn.buffer.Length
    }

    /** esp_mqtt_client_subscribe_multiple. The limit is held against what is stored already. */
    method Subscribe(list: seq<Topic>, now: int) returns (ret: int, ghost id: int, ghost written: bool)
      requires Valid() && list != [] && GoodTopics(list)
      modifies conn, conn.buffer, session`state, session.outbox, session.outbox.items, transport
      ensures Valid() && session.Fresh()
      ensures ret == -2 <==> OverLimit(session.cfg, old(session.state), 0)
      ensures id != -1 <==>
        !OverLimit(session.cfg, old(session.state), 0) && old(session.state).phase == Connected && Subscribable(list)
      ensures id == -1 ==> ret < 0 && session.state == old(session.state) && transport.wire == old(transport.wire)
      ensures id != -1 ==> Requests(id, ret, MSG_SUBSCRIBE, TopicBytes(list), old(transport.wire), written)
      ensures id != -1 ==>
                session.state == Step(session.cfg, old(session.state),
                                      SubscribeCall(id,
                                                    RequestPacket(session.cfg.v5, MSG_SUBSCRIBE, id, TopicBytes(list)),
                                                    now, written))
      ensures if id != -1 then transport.Went(written) else transport.Now() == old(transport.Now())
      ensures Drew(true, id)
      ensures if OverLimit(session.cfg, old(session.state), 0) || old(session.state).phase != Connected
              then Frag() == old(Frag())
              else Becomes(old(Frag()), Fresh(if id != -1 then Unused(RequestSize(|TopicBytes(list)|)) else 0), Frag())
    {
      ret, id, written := -1, -1, false;
      if Full() {
        ret := -2;
      } else if session.phase == Connected {
        ret, id, written := SubscribeConnected(list, now);
      }
    }

    predicate Full()
      requires session.Valid()
      reads session, session.outbox, session.outbox.items, session.outbox.buffers
      ensures Full() <==> OverLimit(session.cfg, session.state, 0)
    {
      session.cfg.limit > 0 && session.outbox.GetSize() > session.cfg.limit
    }

    /** What a request that was built does: one packet on the wire, or a part of it. */
    ghost predicate Requests(id: int, ret: int, kind: nat, body: seq<byte>, before: seq<byte>, written: bool)
      reads transport, conn`fragTotal
    {
      && 1 <= id < 0x1_0000 && conn.fragTotal == 0 && ret == (if written then id else -1)
      && Carries(written, before, transport.wire, RequestPacket(session.cfg.v5, kind, id, body), [], 0)
    }

    method SubscribeConnected(list: seq<Topic>, now: int) returns (ret: int, ghost id: int, ghost written: bool)
      requires Valid() && list != [] && GoodTopics(list)
      modifies conn, conn.buffer, session`state, session.outbox, session.outbox.items, transport
      ensures Valid() && session.Fresh() && (id != -1 <==> Subscribable(list)) && ret >= -1
      ensures id == -1 ==> ret == -1 && session.state == old(session.state) && transport.wire == old(transport.wire)
      ensures id != -1 ==> Requests(id, ret, MSG_SUBSCRIBE, TopicBytes(list), old(transport.wire), written)
      ensures id != -1 ==>
                session.state == Requested(old(session.state), id, MSG_SUBSCRIBE,
                                           RequestPacket(session.cfg.v5, MSG_SUBSCRIBE, id, TopicBytes(list)), now,
                                           written)
      ensures if id != -1 then transport.Went(written) else transport.Now() == old(transport.Now())
      ensures Drew(true, id)
      ensures Frag() == Fields(0, if id != -1 then 0 - Unused(RequestSize(|TopicBytes(list)|)) else 0)
    {
      ResetPending();
      written := false;
      if session.cfg.v5 {
        var ok := SubscribeCheck(list);
        if !ok { return -1, -1, false; }
      }
      ret := BuildSubscribe(list);
      id := ret;
      if ret != -1 {
        ret, written := SendRequest(ret, MSG_SUBSCRIBE, now,
                                    RequestPacket(session.cfg.v5, MSG_SUBSCRIBE, ret, TopicBytes(list)));
      }
    }

    method BuildUnsubscribe(topic: seq<byte>) returns (id: int)
      requires Valid() && |topic| < 0x1_0000 && conn.fragTotal == 0
      modifies conn, conn.buffer
      ensures Valid() && -1 <= id < 0x1_0000 && id != 0 && Drew(true, id)
      ensures conn.fragTotal == 0
      ensures id != -1 <==> Unsubscribable(topic)
      ensures id == -1 ==> conn.fragOffset == old(conn.fragOffset)
      ensures id != -1 ==> conn.fragOffset == old(conn.fragOffset) - Unused(RequestSize(2 + |topic|))
      ensures id != -1 ==>
                && conn.out == conn.buffer && conn.outStart + conn.length <= conn.buffer.Length
                && conn.Outbound() == RequestPacket(session.cfg.v5, MSG_UNSUBSCRIBE, id, Str(topic))
    {
      if session.cfg.v5 {
        id := MsgUnsubscribe5(conn, topic);
      } else {
        id := MsgUnsubscribe(conn, topic);
        assert id < 0x1_0000 && U16(id) + Str(topic) == U16(id) + [] + Str(topic);
      }
      if conn.length == 0 { id := -1; }
    }

    predicate Unsubscribable(topic: seq<byte>) {
      topic != [] && GAP + (if session.cfg.v5 then 5 else 4) + |topic| <= conn.buffer.Length
    }

    /** esp_mqtt_client_unsubscribe: no limit applies. */
    method Unsubscribe(topic: seq<byte>, now: int) returns (ret: int, ghost id: int, ghost written: bool)
      requires Valid() && |topic| < 0x1_0000
      modifies conn, conn.buffer, session`state, session.outbox, session.outbox.items, transport
      ensures Valid() && session.Fresh()
      ensures id != -1 <==> old(session.state).phase == Connected && Unsubscribable(topic)
      ensures id == -1 ==> ret == -1 && session.state == old(session.state) && transport.wire == old(transport.wire)
      ensures id != -1 ==> Requests(id, ret, MSG_UNSUBSCRIBE, Str(topic), old(transport.wire), written)
      ensures id != -1 ==>
                session.state == Step(session.cfg, old(session.state),
                                      UnsubscribeCall(id,
                                                      RequestPacket(session.cfg.v5, MSG_UNSUBSCRIBE, id, Str(topic)),
                                                      now, written))
      ensures if id != -1 then transport.Went(written) else transport.Now() == old(transport.Now())
      ensures Drew(true, id)
      ensures if old(session.state).phase != Connected then Frag() == old(Frag())
              else Becomes(old(Frag()), Fresh(if id != -1 then Unused(RequestSize(2 + |topic|)) else 0), Frag())
    {
      ret, id, written := -1, -1, false;
      if session.phase == Connected {
        ret, id, written := UnsubscribeConnected(topic, now);
      }
    }

    method UnsubscribeConnected(topic: seq<byte>, now: int) returns (ret: int, ghost id: int, ghost written: bool)
      requires Valid() && |topic| < 0x1_0000
      modifies conn, conn.buffer, session`state, session.outbox, session.outbox.items, transport
      ensures Valid() && session.Fresh() && (id != -1 <==> Unsubscribable(topic))
      ensures id == -1 ==> ret == -1 && session.state == old(session.state) && transport.wire == old(transport.wire)
      ensures id != -1 ==> Requests(id, ret, MSG_UNSUBSCRIBE, Str(topic), old(transport.wire), written)
      ensures id != -1 ==>
                session.state == Requested(old(session.state), id, MSG_UNSUBSCRIBE,
                                           RequestPacket(session.cfg.v5, MSG_UNSUBSCRIBE, id, Str(topic)), now, written)
      ensures if id != -1 then transport.Went(written) else transport.Now() == old(transport.Now())
      ensures Drew(true, id)
      ensures Frag() == Fields(0, if id != -1 then 0 - Unused(RequestSize(2 + |topic|)) else 0)
    {
      ResetPending();
      written := false;
      ret := BuildUnsubscribe(topic);
      id := ret;
      if ret != -1 {
        ret, written := SendRequest(ret, MSG_UNSUBSCRIBE, now,
                                    RequestPacket(session.cfg.v5, MSG_UNSUBSCRIBE, ret, Str(topic)));
      }
    }

    // ---------- received packets

    function AckSize(): nat {
      if session.cfg.v5 then 4 else 2
    }

    /** Builds an answer and writes it. */
    method Reply(kind: nat, id: nat) returns (written: bool)
      requires Valid() && MSG_PUBACK <= kind <= MSG_PUBCOMP && 1 <= id < 0x1_0000
      modifies conn, conn.buffer, transport
      ensures Valid() && Becomes(old(Frag()), Control(AckSize()), Frag()) && Drew(false, id)
      ensures Attempt(true, transport.network, old(transport.Now()), transport.Now(),
                      AckBytes(session.cfg.v5, kind, id, old(conn.fragTotal)), written)
    {
      BuildAck(kind, id);
      written := Write();
    }

    /** esp_mqtt_write of what was built. */
    method Write() returns (written: bool)
      requires conn.out == conn.buffer && conn.outStart + conn.length <= conn.out.Length
      modifies transport
      ensures Attempt(true, transport.network, old(transport.Now()), transport.Now(), conn.Outbound(), written)
    {
      var status := WriteOutbound(conn, transport);
      written := status == Done;
    }

    method BuildAck(kind: nat, id: nat)
      requires Ready(conn) && MSG_PUBACK <= kind <= MSG_PUBCOMP && 1 <= id < 0x1_0000
      modifies conn, conn.buffer
      ensures Ready(conn) && Becomes(old(Frag()), Control(AckSize()), Frag()) && Drew(false, id)
      ensures conn.out == conn.buffer && conn.outStart + conn.length <= conn.buffer.Length
      ensures conn.Outbound() == AckBytes(session.cfg.v5, kind, id, old(conn.fragTotal))
    {
      if session.cfg.v5 {
        var i := MsgAck5(conn, kind, id);
      } else {
        var i := MsgAck(conn, kind, id);
        assert U16(id) + [] == U16(id);
      }
    }

    /** SUBACK, UNSUBACK, PUBACK and PUBCOMP: the request stored under the id is done with. */
    method HandleCompletion(kind: nat, id: nat) returns (found: bool)
      requires Valid() && session.phase == Connected && kind in {MSG_SUBACK, MSG_UNSUBACK, MSG_PUBACK, MSG_PUBCOMP}
      modifies session`count, session`state, session.outbox, session.outbox.items
      ensures Valid() && session.outbox.items == old(session.outbox.items)
              && session.outbox.buffers == old(session.outbox.buffers)
      ensures session.state == Step(session.cfg, old(session.state), AckInput(kind, id))
      ensures found <==> |session.state.outbox| < |old(session.state.outbox)|
    {
      CompletionIsStep(session.cfg, session.state, kind, id);
      found := session.Complete(id, RequestOf(kind), FateOf(kind));
    }

    /** PUBREC: the publish counts as acknowledged whatever becomes of the PUBREL. */
    method HandlePubrec(id: nat) returns (ghost written: bool)
      requires Valid() && session.phase == Connected && 1 <= id < 0x1_0000
      modifies conn, conn.buffer, transport, session`state, session.outbox`contents, session.outbox.items
      ensures Valid() && Becomes(old(Frag()), Control(AckSize()), Frag()) && Drew(false, id)
      ensures session.state == Noted(old(session.state), PubrecSeen(id)).(
        outbox := OutboxModel.SetPending(old(session.state).outbox, id, Acknowledged))
      ensures Attempt(true, transport.network, old(transport.Now()), transport.Now(),
                      AckBytes(session.cfg.v5, MSG_PUBREL, id, old(conn.fragTotal)), written)
    {
      BuildAck(MSG_PUBREL, id);
      session.Acknowledge(id);
      var done := Write();
      written := done;
    }

    /** The answers to PUBLISH with QoS 1 and 2, and to PUBREL; a PUBCOMP that cannot be written is no failure. */
    method Answer(kind: nat, qos: nat, id: nat) returns (ok: bool, ghost written: bool)
      requires Valid() && (kind == MSG_PUBREL || (kind == MSG_PUBLISH && 1 <= qos <= 2)) && 1 <= id < 0x1_0000
      modifies conn, conn.buffer, transport
      ensures Valid() && session.state == old(session.state)
      ensures Becomes(old(Frag()), Control(AckSize()), Frag()) && Drew(false, id)
      ensures ok == (written || kind == MSG_PUBREL)
      ensures Attempt(true, transport.network, old(transport.Now()), transport.Now(),
                      AckBytes(session.cfg.v5, AnswerTo(kind, qos).value, id, old(conn.fragTotal)), written)
    {
      var done := Reply(AnswerTo(kind, qos).value, id);
      ok, written := done || kind == MSG_PUBREL, done;
    }

    /**
     * The switch of mqtt_process_receive. Only an answer to a PUBLISH that cannot be written is a failure. The broker
     * owes an id where there is something to answer; elsewhere it may be 0.
     */
    method HandlePacket(kind: nat, qos: nat, id: nat) returns (ok: bool, ghost written: bool)
      requires Valid() && session.phase == Connected && id < 0x1_0000 && (AnswerTo(kind, qos).Some? ==> id > 0)
      modifies conn, conn.buffer, transport, session`count, session`state, session.outbox, session.outbox.items
      ensures Valid() && session.outbox.items == old(session.outbox.items)
              && session.outbox.buffers == old(session.outbox.buffers)
      ensures session.state == ReceivedStep(session.cfg, old(session.state), kind, id)
      ensures Attempt(AnswerTo(kind, qos).Some?, transport.network, old(transport.Now()), transport.Now(),
                      AnswerBytes(session.cfg.v5, kind, qos, id, old(conn.fragTotal)), written)
      ensures ok == (written || kind != MSG_PUBLISH) && Drew(false, id)
      ensures Becomes(old(Frag()), if AnswerTo(kind, qos).Some? then Control(AckSize()) else Untouched, Frag())
    {
      ok, written := true, true;
      if kind in {MSG_SUBACK, MSG_UNSUBACK, MSG_PUBACK, MSG_PUBCOMP} {
        var found := HandleCompletion(kind, id);
      } else if kind == MSG_PUBREC {
        written := HandlePubrec(id);
      } else {
        ok, written := HandleOther(kind, qos, id);
      }
    }

    /** What mqtt_process_receive does with a packet that came out: type, QoS and id are read, and it is handled. */
    method Process(packet: seq<byte>) returns (ok: bool, ghost written: bool)
      requires Valid() && session.phase == Connected && packet != []
      requires AnswerTo(Kind(packet[0]), Qos(packet[0])).Some? ==> IdOf(session.cfg.v5, packet) > 0
      modifies conn, conn.buffer, transport, session`count, session`state, session.outbox, session.outbox.items
      ensures Valid() && session.outbox.items == old(session.outbox.items)
              && session.outbox.buffers == old(session.outbox.buffers)
      ensures session.state
              == ReceivedStep(session.cfg, old(session.state), Kind(packet[0]), IdOf(session.cfg.v5, packet))
      ensures Attempt(AnswerTo(Kind(packet[0]), Qos(packet[0])).Some?, transport.network, old(transport.Now()),
                      transport.Now(),
                      AnswerBytes(session.cfg.v5, Kind(packet[0]), Qos(packet[0]), IdOf(session.cfg.v5, packet),
                                  old(conn.fragTotal)), written)
      ensures ok == (written || Kind(packet[0]) != MSG_PUBLISH)
    {
      var id;
      if session.cfg.v5 {
        id := P5.MessageId5(packet);
      } else {
        id := P3.GetId(packet);
      }
      ok, written := HandlePacket(Kind(packet[0]), Qos(packet[0]), id);
    }

    method HandleOther(kind: nat, qos: nat, id: nat) returns (ok: bool, ghost written: bool)
      requires Valid() && id < 0x1_0000 && (AnswerTo(kind, qos).Some? ==> id > 0) && kind != MSG_PUBREC
      modifies conn, conn.buffer, transport
      ensures Valid()
      ensures Attempt(AnswerTo(kind, qos).Some?, transport.network, old(transport.Now()), transport.Now(),
                      AnswerBytes(session.cfg.v5, kind, qos, id, old(conn.fragTotal)), written)
      ensures ok == (written || kind != MSG_PUBLISH) && Drew(false, id)
      ensures Becomes(old(Frag()), if AnswerTo(kind, qos).Some? then Control(AckSize()) else Untouched, Frag())
    {
      ok, written := true, true;
      if kind == MSG_PUBREL {
        ok, written := Answer(kind, qos, id);
      } else if kind == MSG_PUBLISH {
        if 1 <= qos <= 2 {
          ok, written := Answer(kind, qos, id);
        }
      }
    }

    // ---------- the task: sending

    /** mqtt_resend_queued: the item's own buffer is written; DUP goes on first if it was written before. */
    method ResendQueued(item: O.Item, ghost k: nat) returns (ok: bool)
      requires Valid() && k < |session.outbox.spine| && session.outbox.spine[k] == item && item.buffer.Length > 0
      modifies conn`out, conn`outStart, conn`length, session`phase, session`state, session.outbox`contents,
          item.buffer, transport
      ensures Valid() && session.state == Resent(old(session.state), k, ok)
      ensures Attempt(true, transport.network, old(transport.Now()), transport.Now(),
                      SentBytes(old(session.state.outbox[k])), ok)
    {
      conn.out, conn.outStart, conn.length := item.buffer, 0, item.buffer.Length;
      MarkIfSent(item, k);
      ok := WriteItem(item, k);
      if !ok {
        session.AbortConnection();
      }
    }

    method MarkIfSent(item: O.Item, ghost k: nat)
      requires Valid() && k < |session.outbox.spine| && session.outbox.spine[k] == item && item.buffer.Length > 0
      modifies session`state, session.outbox`contents, item.buffer
      ensures Valid() && var e := old(session.state).outbox[k];
              session.state == old(session.state).(
                outbox := old(session.state).outbox[k := if e.pending == Transmitted then Marked(e) else e])
    {
      assert session.state.outbox[k] == item.View();
      if item.pending == Transmitted {
        session.MarkAt(item, k);
      } else {
        assert session.state.outbox[k := session.state.outbox[k]] == session.state.outbox;
      }
    }

    method WriteItem(item: O.Item, ghost k: nat) returns (ok: bool)
      requires Valid() && k < |session.outbox.spine| && session.outbox.spine[k] == item
      requires conn.out == item.buffer && conn.outStart == 0 && conn.length == item.buffer.Length
      modifies session`state, transport
      ensures Valid()
      ensures var e := session.state.outbox[k];
              session.state == Noted(old(session.state), Wrote(e.serial, e.id, e.kind, e.qos, e.data, ok))
      ensures Attempt(true, transport.network, old(transport.Now()), transport.Now(), session.state.outbox[k].data, ok)
    {
      ghost var e := session.state.outbox[k];
      assert e == item.View() && conn.Outbound() == e.data;
      var status := WriteOutbound(conn, transport);
      ok := status == Done;
      session.Note(Wrote(e.serial, e.id, e.kind, e.qos, e.data, ok));
    }

    /** The chosen item goes out, and is counted or dropped if it went. */
    method SendChosen(item: O.Item, ghost k: nat, now: int) returns (ok: bool)
      requires Valid() && k < |session.outbox.spine| && session.outbox.spine[k] == item && item.buffer.Length > 0
      modifies conn`out, conn`outStart, conn`length, transport
      modifies session, session.outbox, session.outbox.items, session.outbox.buffers
      ensures Valid() && session.outbox.items == old(session.outbox.items)
              && session.outbox.buffers == old(session.outbox.buffers)
      ensures session.state == Sent(session.cfg, old(session.state), k, now, ok)
      ensures Attempt(true, transport.network, old(transport.Now()), transport.Now(),
                      SentBytes(old(session.state.outbox[k])), ok)
    {
      ok := ResendQueued(item, k);
      SentIsResent(session.cfg, old(session.state), k, now, ok);
      if ok {
        FinishItem(item, k, now);
      }
    }

    method FinishItem(item: O.Item, ghost k: nat, now: int)
      requires Valid() && k < |session.outbox.spine| && session.outbox.spine[k] == item
      modifies session`count, session`state, session.outbox, session.outbox.items
      ensures Valid() && session.outbox.items == old(session.outbox.items)
              && session.outbox.buffers == old(session.outbox.buffers)
      ensures session.state == AfterWrite(session.cfg, old(session.state), k, now)
    {
      session.Finish(item, k, now);
    }

    method RetransmitFirst(now: int) returns (ok: bool)
      requires Valid() && Stocked(session.state.outbox)
      modifies conn`out, conn`outStart, conn`length, transport
      modifies session`phase, session`state, session.outbox`contents, session.outbox.buffers
      ensures Valid() && session.state == FirstResent(session.cfg, old(session.state), now, ok)
      ensures var s := old(session.state);
              Attempt(FirstDue(session.cfg, s, Transmitted, now), transport.network, old(transport.Now()),
                      transport.Now(), FirstBytes(s, Transmitted), ok)
    {
      ok := true;
      var item := session.outbox.Dequeue(Transmitted);
      if item != null {
        ghost var k := First(session.state.outbox, ByPending(Transmitted));
        assert session.state.outbox[k] == item.View();
        if now - item.tick > session.cfg.retransmit {
          ok := ResendQueued(item, k);
        }
      }
    }

    method RetransmitPubrel(now: int) returns (ok: bool)
      requires Valid() && Answerable(session.state.outbox)
      modifies conn, conn.buffer, session`phase, session`state, transport
      ensures Valid() && Drew(false, 0)
      ensures Becomes(old(Frag()), PubrelCall(old(session.state), now), Frag())
      ensures session.state == PubrelTried(session.cfg, old(session.state), now, ok)
      ensures var s := old(session.state);
              Attempt(FirstDue(session.cfg, s, Acknowledged, now), transport.network, old(transport.Now()),
                      transport.Now(), PubrelBytes(session.cfg.v5, s, old(conn.fragTotal)), ok)
    {
      ok := true;
      var item := session.outbox.Dequeue(Acknowledged);
      if item != null {
        assert session.state.outbox[First(session.state.outbox, ByPending(Acknowledged))] == item.View();
        if now - item.tick > session.cfg.retransmit {
          ok := ResendPubrel(item.id);
        }
      }
    }

    /** mqtt_resend_pubrel. */
    method ResendPubrel(id: nat) returns (ok: bool)
      requires Valid() && 1 <= id < 0x1_0000
      modifies conn, conn.buffer, session`phase, session`state, transport
      ensures Valid() && Drew(false, 0) && Becomes(old(Frag()), Control(AckSize()), Frag())
      ensures session.state == if ok then old(session.state) else Aborted(old(session.state))
      ensures Attempt(true, transport.network, old(transport.Now()), transport.Now(),
                      AckBytes(session.cfg.v5, MSG_PUBREL, id, old(conn.fragTotal)), ok)
    {
      ok := Reply(MSG_PUBREL, id);
      if !ok {
        session.AbortConnection();
      }
    }

    /** What the PUBREL of a pass does to the fragment fields. */
    function PubrelCall(s: State, now: int): Call {
      if FirstDue(session.cfg, s, Acknowledged, now) then Control(AckSize()) else Untouched
    }

    static lemma ResentAnswerable(cfg: Config, st: State, now: int, written: bool)
      requires Answerable(st.outbox)
      ensures Answerable(FirstResent(cfg, st, now, written).outbox)
    {
    }

    /** The periodic retransmission, the first write up to the moment middle. The item's tick stays as it is. */
    method Retransmit(now: int) returns (ghost written: bool, ghost pubrelWritten: bool, ghost middle: Moment)
      requires Valid() && Stocked(session.state.outbox) && Answerable(session.state.outbox)
      modifies conn, conn.buffer, transport, session`phase, session`state, session.outbox`contents,
          session.outbox.buffers
      ensures Valid() && Drew(false, 0)
      ensures session.state == Retransmitted(session.cfg, old(session.state), now, written, pubrelWritten)
      ensures Retransmits(old(session.state), now, old(Frag()), old(transport.Now()), written, pubrelWritten, middle)
    {
      var ok := RetransmitFirst(now);
      written, middle := ok, transport.Now();
      ResentAnswerable(session.cfg, old(session.state), now, ok);
      ok := RetransmitPubrel(now);
      pubrelWritten := ok;
    }

    /** What the retransmission put on the wire, from the state s, and left of the fragment fields f. */
    ghost predicate Retransmits(s: State, now: int, f: Fields, before: Moment, written: bool, pubrelWritten: bool,
                                middle: Moment)
      reads transport`asked, transport`wire, conn`fragTotal, conn`fragOffset
      requires f.total == 0 || f.total >= GAP
    {
      var t := FirstResent(session.cfg, s, now, written);
      && Answerable(t.outbox) && Becomes(f, PubrelCall(t, now), Frag())
      && Attempt(FirstDue(session.cfg, s, Transmitted, now), transport.network, before, middle,
                 FirstBytes(s, Transmitted), written)
      && Attempt(FirstDue(session.cfg, t, Acknowledged, now), transport.network, middle, transport.Now(),
                 PubrelBytes(session.cfg.v5, t, f.total), pubrelWritten)
    }

    static lemma PassIsStep(cfg: Config, st: State, now: int, due: bool, written: bool, pubrelWritten: bool)
      requires st.phase == Connected
      ensures var k := Choose(cfg, st);
              Step(cfg, st, Input.SendPass(now, due, written, pubrelWritten))
              == if k < |st.outbox| then Sent(cfg, st, k, now, written)
                 else if due then Retransmitted(cfg, st, now, written, pubrelWritten) else st
    {
    }

    /**
     * What a pass put on the wire, from the state s in which it chose the k-th item: that item; or, if none was chosen
     * and it is due, what the retransmission writes; or nothing. A write counts as done if the network took it all.
     */
    ghost predicate PassWrites(s: State, k: nat, now: int, due: bool, f: Fields, before: Moment, written: bool,
                               pubrelWritten: bool, middle: Moment)
      reads transport`asked, transport`wire, conn`fragTotal, conn`fragOffset
      requires f.total == 0 || f.total >= GAP
    {
      if k < |s.outbox| then
        && Attempt(true, transport.network, before, transport.Now(), SentBytes(s.outbox[k]), written)
        && pubrelWritten && middle == transport.Now() && Frag() == f
      else if due then Retransmits(s, now, f, before, written, pubrelWritten, middle)
      else written && pubrelWritten && before == middle == transport.Now() && Frag() == f
    }

    /** Sends the chosen item, the k-th, or retransmits when that is due. */
    method SendOrRetransmit(item: O.Item?, ghost k: nat, now: int, due: bool)
      returns (ghost written: bool, ghost pubrelWritten: bool, ghost middle: Moment)
      requires Valid() && Stocked(session.state.outbox) && Answerable(session.state.outbox)
      requires item == O.At(session.outbox.spine, k)
      modifies conn, conn.buffer, transport, session, session.outbox, session.outbox.items, session.outbox.buffers
      ensures Valid() && session.outbox.items == old(session.outbox.items)
              && session.outbox.buffers == old(session.outbox.buffers) && Drew(false, 0)
      ensures var s := old(session.state);
              session.state == if k < |s.outbox| then Sent(session.cfg, s, k, now, written)
                               else if due then Retransmitted(session.cfg, s, now, written, pubrelWritten) else s
      ensures PassWrites(old(session.state), k, now, due, old(Frag()), old(transport.Now()), written, pubrelWritten,
                         middle)
    {
      if item != null {
        assert session.state.outbox[k] == item.View();
        var ok := SendChosen(item, k, now);
        written, pubrelWritten, middle := ok, true, transport.Now();
      } else {
        written, pubrelWritten, middle := RetransmitIf(k, now, due);
      }
    }

    method RetransmitIf(ghost k: nat, now: int, due: bool)
      returns (ghost written: bool, ghost pubrelWritten: bool, ghost middle: Moment)
      requires Valid() && Stocked(session.state.outbox) && Answerable(session.state.outbox)
      requires k >= |session.state.outbox|
      modifies conn, conn.buffer, transport, session`phase, session`state, session.outbox`contents,
          session.outbox.buffers
      ensures Valid() && Drew(false, 0)
      ensures session.state == if due then Retransmitted(session.cfg, old(session.state), now, written, pubrelWritten)
                               else old(session.state)
      ensures PassWrites(old(session.state), k, now, due, old(Frag()), old(transport.Now()), written, pubrelWritten,
                         middle)
    {
      written, pubrelWritten, middle := true, true, transport.Now();
      if due {
        written, pubrelWritten, middle := Retransmit(now);
      }
    }

    /** One pass of the task in the connected state, after the receive step. */
    method SendPass(now: int) returns (ghost step: Input, ghost middle: Moment)
      requires Valid() && session.phase == Connected && Stocked(session.state.outbox)
              && Answerable(session.state.outbox)
      modifies this`lastRetransmit, conn, conn.buffer, transport
      modifies session, session.outbox, session.outbox.items, session.outbox.buffers
      ensures Valid() && session.outbox.items == old(session.outbox.items)
              && session.outbox.buffers == old(session.outbox.buffers) && Drew(false, 0)
      ensures step.SendPass? && step.now == now && session.state == Step(session.cfg, old(session.state), step)
      ensures var s := old(session.state); var last := if old(lastRetransmit) == 0 then now else old(lastRetransmit);
              && (step.due <==> now - last >= session.cfg.retransmit)
              && lastRetransmit == if Choose(session.cfg, s) == |s.outbox| && step.due then now else last
      ensures var s := old(session.state);
              PassWrites(s, Choose(session.cfg, s), now, step.due, old(Frag()), old(transport.Now()), step.written,
                         step.pubrelWritten, middle)
    {
      lastRetransmit := if lastRetransmit == 0 then now else lastRetransmit;
      var due := now - lastRetransmit >= session.cfg.retransmit;
      var idle;
      idle, step, middle := SendNext(now, due);
      lastRetransmit := if idle && due then now else lastRetransmit;
    }

    /** The first queued item that may go is chosen, and sent. */
    method SendNext(now: int, due: bool) returns (idle: bool, ghost step: Input, ghost middle: Moment)
      requires Valid() && session.phase == Connected && Stocked(session.state.outbox)
              && Answerable(session.state.outbox)
      modifies conn, conn.buffer, transport, session, session.outbox, session.outbox.items, session.outbox.buffers
      ensures Valid() && session.outbox.items == old(session.outbox.items)
              && session.outbox.buffers == old(session.outbox.buffers) && Drew(false, 0)
      ensures step.SendPass? && step.now == now && step.due == due
      ensures session.state == Step(session.cfg, old(session.state), step)
      ensures var s := old(session.state);
              && idle == (Choose(session.cfg, s) == |s.outbox|)
              && PassWrites(s, Choose(session.cfg, s), now, due, old(Frag()), old(transport.Now()), step.written,
                            step.pubrelWritten, middle)
    {
      ghost var k := Choose(session.cfg, session.state);
      var item := session.ChooseQueued();
      idle := item == null;
      ghost var written, pubrelWritten;
      written, pubrelWritten, middle := SendOrRetransmit(item, k, now, due);
      PassIsStep(session.cfg, old(session.state), now, due, written, pubrelWritten);
      step := Input.SendPass(now, due, written, pubrelWritten);
    }

    // ---------- connecting, keeping alive, stopping

    /**
     * esp_mqtt_connect: the pending message is reset; CONNECT is built, which leaves so many bytes of the gap unused
     * and takes them off the offset; and its answer comes.
     */
    method Connacked(accepted: bool, announced: nat, unused: nat)
      requires Valid() && session.phase == Init && Stocked(session.state.outbox) && FirstOfItsId(session.state.outbox)
      modifies conn`fragTotal, conn`fragOffset, session, session.outbox`contents, session.outbox.items,
          session.outbox.buffers
      ensures Valid() && Becomes(old(Frag()), Fresh(unused), Frag()) && Drew(false, 0)
      ensures session.state == Step(session.cfg, old(session.state),
                                    if accepted then ConnackAccepted(announced) else ConnackRefused(announced))
    {
      ResetPending();
      conn.fragOffset := conn.fragOffset - unused;
      if accepted {
        session.ConnackAccepted(announced);
      } else {
        session.ConnackRefused(announced);
      }
    }

    /** esp_mqtt_client_ping: PINGREQ, or an abort if it cannot be written. */
    method Ping() returns (ok: bool)
      requires Valid()
      modifies conn, conn.buffer, transport, session`phase, session`state
      ensures Valid() && Becomes(old(Frag()), Control(0), Frag()) && Drew(false, 0)
      ensures session.state == if ok then old(session.state) else Aborted(old(session.state))
      ensures Attempt(true, transport.network, old(transport.Now()), transport.Now(),
                      Headed(MSG_PINGREQ, 0, 0, Claimed(old(conn.fragTotal), 0), []), ok)
    {
      MsgEmpty(conn, MSG_PINGREQ);
      ok := Write();
      if !ok {
        session.AbortConnection();
      }
    }

    /** esp_mqtt_client_stop and the end of the task. */
    method Stop() returns (ghost written: bool)
      requires Valid()
      modifies conn, conn.buffer, transport, session`phase, session`state, session.outbox, session.outbox.items
      ensures Valid() && Drew(false, 0)
      ensures session.state == Step(session.cfg, old(session.state), Input.Stop)
      ensures Goodbye(old(session.state).phase == Connected, old(Frag()), old(transport.Now()), written)
    {
      StopIsStep(session.cfg, session.state);
      var done := SendDisconnect();
      written := done;
      session.Clear();
    }

    /** What DISCONNECT put on the wire and left of the fragment fields f; only a connected client says goodbye. */
    ghost predicate Goodbye(connected: bool, f: Fields, before: Moment, written: bool)
      reads transport`asked, transport`wire, conn`fragTotal, conn`fragOffset
      requires f.total == 0 || f.total >= GAP
    {
      var body := if session.cfg.v5 then [0, 0] else [];
      && Attempt(connected, transport.network, before, transport.Now(),
                 Headed(MSG_DISCONNECT, 0, 0, Claimed(f.total, |body|), body), written)
      && Becomes(f, if connected then Control(|body|) else Untouched, Frag())
    }

    method SendDisconnect() returns (written: bool)
      requires Valid()
      modifies conn, conn.buffer, transport
      ensures Valid() && Drew(false, 0)
      ensures Goodbye(session.phase == Connected, old(Frag()), old(transport.Now()), written)
    {
      if session.phase != Connected { return true; }
      if session.cfg.v5 {
        MsgDisconnect5(conn);
      } else {
        MsgEmpty(conn, MSG_DISCONNECT);
      }
      written := Write();
    }
  }

  /** From now on every write takes something. */
  ghost predicate AllTaken(net: Answers, from: nat) {
    forall j :: j >= from ==> net(j) > 0
  }

  lemma AttemptTaken(net: Answers, a: Moment, b: Moment, packet: seq<byte>, done: bool)
    requires Attempt(true, net, a, b, packet, done) && AllTaken(net, a.asked)
    ensures done && b.wire == a.wire + packet
  {
  }

  lemma OutcomeTaken(net: Answers, a: Moment, b: Moment, m: Message, ret: int, written: bool, extra: seq<byte>,
                     excess: nat)
    requires Outcome(true, m.id, m.qos, ret, written, a.wire, b.wire, m.packet, extra, excess)
    requires Told(net, a.asked, b.asked, written) && AllTaken(net, a.asked)
    ensures written && b.wire == a.wire + m.packet + extra && |extra| == excess
  {
  }

  /** An enqueue call whose message does not fit the buffer, with MQTT 3.1.1 and no limit. */
  method EnqueueLarge(c: Client, topic: seq<byte>, large: seq<byte>, qos: nat, now: int) returns (ret: int)
    requires c.Valid() && !c.session.cfg.v5 && c.session.cfg.limit == 0 && c.property == None && qos <= 1
    requires 0 < |topic| < 0x1_0000 && |large| < 0x100_0000
    requires var header := 2 + |topic| + if qos > 0 then 2 else 0;
             GAP + header <= c.conn.buffer.Length < GAP + header + |large|
    modifies c`property, c.conn, c.conn.buffer, c.session`state, c.session.outbox, c.session.outbox.items
    ensures c.Valid() && c.session.Fresh() && c.property == None
    ensures var header := 2 + |topic| + if qos > 0 then 2 else 0;
            c.Frag() == Fields(if qos > 0 then 0 else GAP + header + |large|, GAP + header - Unused(header + |large|))
  {
    ghost var id, m;
    ret, id, m := c.Enqueue(topic, Payload(large), qos, 0, qos > 0, now);
  }

  /**
   * The offset of a stored publish that did not fit the buffer is not reset. If the next publish fits and its topic is
   * shorter, its write loop goes on after the packet: the wire carries bytes that are in no packet.
   */
  method StaleOffset(c: Client, long: seq<byte>, large: seq<byte>, short: seq<byte>, small: seq<byte>, now: int)
    returns (ret: int, ghost packet: seq<byte>, ghost extra: seq<byte>)
    requires c.Valid() && !c.session.cfg.v5 && c.session.cfg.limit == 0 && c.session.phase == Connected
    requires 0 < |short| + 1 < |long| < 0x1_0000 && short != [] && |large| < 0x100_0000 && |small| < 0x100_0000
    requires c.property == None
    requires GAP + 4 + |long| <= c.conn.buffer.Length < GAP + 4 + |long| + |large|
    requires GAP + 2 + |short| + |small| <= c.conn.buffer.Length
    requires AllTaken(c.transport.network, c.transport.asked)
    modifies c`property, c.conn, c.conn.buffer, c.transport, c.session, c.session.outbox, c.session.outbox.items
    ensures packet == Packet(MSG_PUBLISH, 0, 0, Header3(short, 0, 0) + small)
    ensures c.transport.wire == old(c.transport.wire) + packet + extra && extra != []
  {
    ret := EnqueueLarge(c, long, large, 1, now);
    ret, packet, extra := PublishBeyond(c, short, small, now);
  }

  /** A small publish over an offset that lies beyond its header. */
  method PublishBeyond(c: Client, short: seq<byte>, small: seq<byte>, now: int)
    returns (ret: int, ghost packet: seq<byte>, ghost extra: seq<byte>)
    requires c.Valid() && !c.session.cfg.v5 && c.session.phase == Connected && c.property == None
    requires 0 < |short| < 0x1_0000 && |small| < 0x100_0000 && c.conn.fragOffset > GAP + 2 + |short|
    requires GAP + 2 + |short| + |small| <= c.conn.buffer.Length
    requires AllTaken(c.transport.network, c.transport.asked)
    modifies c`property, c.conn, c.conn.buffer, c.transport, c.session, c.session.outbox, c.session.outbox.items
    ensures packet == Packet(MSG_PUBLISH, 0, 0, Header3(short, 0, 0) + small)
    ensures c.transport.wire == old(c.transport.wire) + packet + extra && extra != []
  {
    ghost var a := c.Here();
    ghost var id, m, written, begun;
    ret, id, m, written, begun, extra := c.Publish(short, Payload(small), 0, 0, now, now);
    packet := m.packet;
    OutcomeTaken(c.transport.network, a.at, c.transport.Now(), m, ret, written, extra,
                 ExcessOf(m, c.session.cfg.bufferLength, a.fields.offset));
  }

  /**
   * The fragment length of a large QoS 0 message that was neither stored nor written is not reset. The next PINGREQ
   * announces that many bytes, and is two bytes long.
   */
  method StaleLength(c: Client, topic: seq<byte>, large: seq<byte>, now: int) returns (ok: bool, ghost ping: seq<byte>)
    requires c.Valid() && !c.session.cfg.v5 && c.session.cfg.limit == 0 && c.property == None && c.conn.fragTotal == 0
    requires 0 < |topic| < 0x1_0000 && |large| < 0x100_0000
    requires GAP + 2 + |topic| <= c.conn.buffer.Length < GAP + 2 + |topic| + |large|
    requires AllTaken(c.transport.network, c.transport.asked)
    modifies c`property, c.conn, c.conn.buffer, c.transport, c.session, c.session.outbox, c.session.outbox.items
    ensures ok && c.transport.wire == old(c.transport.wire) + ping
    ensures ping != [] && ping[0] == FirstByte(MSG_PINGREQ, 0, 0, 0)
    ensures P3.TotalLength(ping) > |ping|
  {
    var ret := EnqueueLarge(c, topic, large, 0, now);
    ghost var stale, before := c.conn.fragTotal, c.transport.Now();
    ok := c.Ping();
    ping := Headed(MSG_PINGREQ, 0, 0, Claimed(stale, 0), []);
    AttemptTaken(c.transport.network, before, c.transport.Now(), ping, ok);
    PingClaims(stale);
  }

  lemma PingClaims(stale: nat)
    requires GAP < stale < V.LIMIT
    ensures var p := Headed(MSG_PINGREQ, 0, 0, Claimed(stale, 0), []);
            p != [] && p[0] == FirstByte(MSG_PINGREQ, 0, 0, 0) && P3.TotalLength(p) > |p|
  {
    P3.HeaderReads(MSG_PINGREQ, 0, 0, Claimed(stale, 0), []);
  }
}
