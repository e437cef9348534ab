/** The bytes themselves, and what the contracts of the client say of the wire, written out. */
module Wire {
  import opened Bytes
  import opened Packets
  import opened OutboxModel
  import opened Protocol
  import opened Invariants
  import opened Effects
  import opened Network
  import C = Client
  import F = Fragments
  import V = VarInt

  // ---------- numbers and packets, byte by byte

  /** Section 1.5.2 of MQTT 5.0: the most significant byte first. */
  lemma Integers(a: byte, b: byte)
    ensures U16(0x100 * a + b) == [a, b] && Join16(a, b) == 0x100 * a + b
  {
  }

  /** Section 1.5.5: groups of seven bits, the least significant first, the top bit set if another one follows. */
  lemma Group(a: nat, m: nat)
    requires a < 128
    ensures V.Encode(a + 128 * m) == if m == 0 then [a] else [128 + a] + V.Encode(m)
  {
    assert (a + 128 * m) / 128 == m && (a + 128 * m) % 128 == a;
  }

  /** Section 3.3: flags in the first byte; topic, id if the QoS is above 0, payload. */
  lemma PublishIs(qos: nat, retain: nat, topic: seq<byte>, id: nat, rest: seq<byte>)
    requires qos <= 2 && retain <= 1 && |topic| < 0x1_0000 && id < 0x1_0000
    ensures var body := [|topic| / 0x100, |topic| % 0x100] + topic + (if qos > 0 then [id / 0x100, id % 0x100] else [])
                        + rest;
            Packet(MSG_PUBLISH, qos, retain, Header3(topic, qos, id) + rest)
            == [0x30 + 2 * qos + retain] + V.Encode(|body|) + body
  {
    FirstByteIs(MSG_PUBLISH, 0, qos, retain);
  }

  /** With MQTT 5.0 length and bytes of the property block follow the id. */
  lemma Header5Is(qos: nat, topic: seq<byte>, id: nat, block: seq<byte>)
    requires |topic| < 0x1_0000 && id < 0x1_0000
    ensures Header5(topic, qos, id, block) == Header3(topic, qos, id) + V.Encode(|block|) + block
  {
  }

  /** Sections 3.8 and 3.10: the ids and filters of SUBSCRIBE and UNSUBSCRIBE, an empty property block with MQTT 5.0. */
  lemma RequestIs(v5: bool, id: nat, body: seq<byte>)
    requires id < 0x1_0000
    ensures var rest := (if v5 then [id / 0x100, id % 0x100, 0] else [id / 0x100, id % 0x100]) + body;
            && C.RequestPacket(v5, MSG_SUBSCRIBE, id, body) == [0x82] + V.Encode(|rest|) + rest
            && C.RequestPacket(v5, MSG_UNSUBSCRIBE, id, body) == [0xA2] + V.Encode(|rest|) + rest
  {
    assert FirstByte(MSG_SUBSCRIBE, 0, 1, 0) == 0x82 && FirstByte(MSG_UNSUBSCRIBE, 0, 1, 0) == 0xA2;
    assert U16(id) + [0] == [id / 0x100, id % 0x100, 0] && U16(id) + [] == U16(id);
  }

  /** Each filter with its length, and its QoS. */
  lemma TopicsAre(a: seq<byte>, b: seq<byte>, p: nat, q: nat)
    requires |a| < 0x1_0000 && |b| < 0x1_0000 && p <= 2 && q <= 2
    ensures TopicBytes([Topic(a, p), Topic(b, q)])
            == ([|a| / 0x100, |a| % 0x100] + a + [p]) + ([|b| / 0x100, |b| % 0x100] + b + [q])
  {
    assert [Topic(a, p), Topic(b, q)][..1] == [Topic(a, p)] && [Topic(a, p)][..0] == [];
    assert TopicBytes([Topic(a, p)]) == Str(a) + [p];
  }

  lemma ControlIs(kind: nat, body: seq<byte>)
    requires kind < 16 && |body| < 128
    ensures Headed(kind, 0, 0, |body|, body) == [16 * kind, |body|] + body
  {
    FirstByteIs(kind, 0, 0, 0);
    Group(|body|, 0);
  }

  /** Sections 3.12 and 3.14. */
  lemma EmptiesAre()
    ensures Headed(MSG_PINGREQ, 0, 0, 0, []) == [0xC0, 0] && Headed(MSG_DISCONNECT, 0, 0, 0, []) == [0xE0, 0]
    ensures Headed(MSG_DISCONNECT, 0, 0, 2, [0, 0]) == [0xE0, 2, 0, 0]
  {
    ControlIs(MSG_PINGREQ, []);
    ControlIs(MSG_DISCONNECT, []);
    ControlIs(MSG_DISCONNECT, [0, 0]);
  }

  /** Sections 2.2.2.2 and 3.3.2.3: each property under its identifier. */
  lemma PropertiesAre(p: Properties)
    requires Sized(p) && InfoFits(p, [])
    ensures FormatBytes(p) == if p.payloadFormat then [0x01, 1] else []
    ensures p.expiry != 0 ==> ExpiryBytes(p)[0] == 0x02 && |ExpiryBytes(p)| == 5
    ensures p.contentType.Some? ==>
              var s := p.contentType.value; ContentTypeBytes(p) == [0x03, |s| / 0x100, |s| % 0x100] + s
    ensures p.correlation != [] ==>
              var s := p.correlation; CorrelationBytes(p) == [0x09, |s| / 0x100, |s| % 0x100] + s
    ensures p.topicAlias != 0 ==> AliasBytes(p) == [0x23, p.topicAlias / 0x100, p.topicAlias % 0x100]
    ensures p.responseTopic.Some? ==>
              var s := p.responseTopic.value; ResponseBytes(p, []) == [0x08, |s| / 0x100, |s| % 0x100] + s
  {
  }

  lemma UserPropertyIs(key: seq<byte>, value: seq<byte>)
    requires |key| < 0x1_0000 && |value| < 0x1_0000
    ensures UserBytes([(key, value)])
            == [0x26, |key| / 0x100, |key| % 0x100] + key + ([|value| / 0x100, |value| % 0x100] + value)
  {
    assert [(key, value)][..0] == [];
  }

  /** The first bytes of section 2.1.3, and no others, are legal: PUBLISH has no QoS 3, and no DUP with QoS 0. */
  lemma HeadersAre(b: byte)
    ensures ValidHeader(b)
            <==> b in {0x10, 0x20, 0x30, 0x31, 0x32, 0x33, 0x34, 0x35, 0x3A, 0x3B, 0x3C, 0x3D, 0x40, 0x50, 0x62, 0x70,
                       0x82, 0x90, 0xA2, 0xB0, 0xC0, 0xD0, 0xE0}
  {
  }

  // ---------- what an attempt is

  /**
   * Exactly if every write took something, the packet is on the wire, and nothing else; if one took nothing, a proper
   * part of it is.
   */
  lemma AttemptExactly(net: Answers, a: C.Moment, b: C.Moment, packet: seq<byte>, done: bool)
    requires C.Attempt(true, net, a, b, packet, done)
    ensures done <==> forall j :: a.asked <= j < b.asked ==> net(j) > 0
    ensures if done then b.wire == a.wire + packet else a.wire <= b.wire < a.wire + packet
  {
  }

  /** At the end of the task a connected client writes DISCONNECT, reason code 0 with MQTT 5.0; any other, nothing. */
  lemma GoodbyeIs(c: C.Client, f: F.Fields, before: C.Moment, connected: bool, written: bool)
    requires F.Sound(f) && f.total == 0 && c.Goodbye(connected, f, before, written)
    ensures if connected then
              C.Attempt(true, c.transport.network, before, c.transport.Now(),
                        if c.session.cfg.v5 then [0xE0, 2, 0, 0] else [0xE0, 0], written)
            else c.transport.Now() == before
  {
    EmptiesAre();
  }

  // ---------- what a pass of the task puts on the wire

  /** The next item goes out as it is stored. */
  lemma SendOnTheWire(c: C.Client, s: State, k: nat, now: int, due: bool, f: F.Fields, before: C.Moment, written: bool,
                      pubrelWritten: bool, middle: C.Moment)
    requires Inv(c.session.cfg, s) && F.Sound(f) && NextToSend(c.session.cfg, s, k)
    requires c.PassWrites(s, Choose(c.session.cfg, s), now, due, f, before, written, pubrelWritten, middle)
    ensures C.Attempt(true, c.transport.network, before, c.transport.Now(), s.outbox[k].data, written)
  {
    ChosenExactly(c.session.cfg, s, k);
  }

  /**
   * With nothing to send and retransmission due: the first transmitted item, a publish with DUP, if it is older than
   * the time-out; then a PUBREL with the id of the first acknowledged one, if that is; and nothing else.
   */
  lemma AgainOnTheWire(c: C.Client, s: State, now: int, f: F.Fields, before: C.Moment, written: bool,
                       pubrelWritten: bool, middle: C.Moment)
    requires Inv(c.session.cfg, s) && F.Sound(f) && Idle(c.session.cfg, s) && C.Answerable(s.outbox)
    requires c.PassWrites(s, Choose(c.session.cfg, s), now, true, f, before, written, pubrelWritten, middle)
    ensures if TimedOut(c.session.cfg, s.outbox, Transmitted, now) then
              forall k :: 0 <= k < |s.outbox| && FirstIn(s.outbox, Transmitted, k) ==>
                C.Attempt(true, c.transport.network, before, middle, WithDupOn(s.outbox[k]).data, written)
            else middle == before && written
    ensures if TimedOut(c.session.cfg, s.outbox, Acknowledged, now) then
              forall k :: 0 <= k < |s.outbox| && FirstIn(s.outbox, Acknowledged, k) ==>
                C.Attempt(true, c.transport.network, middle, c.transport.Now(),
                          C.AckBytes(c.session.cfg.v5, MSG_PUBREL, s.outbox[k].id, f.total), pubrelWritten)
            else c.transport.Now() == middle && pubrelWritten
  {
    var cfg := c.session.cfg;
    IdleExactly(cfg, s);
    TimedOutExactly(cfg, s, Transmitted, now);
    TimedOutExactly(cfg, s, Acknowledged, now);
    AckedAsBefore(cfg, s, now, written);
    forall k | 0 <= k < |s.outbox| && FirstIn(s.outbox, Transmitted, k)
      ensures C.FirstBytes(s, Transmitted) == WithDupOn(s.outbox[k]).data
    {
      FirstBytesAre(cfg, s, k);
    }
    forall k | 0 <= k < |s.outbox| && FirstIn(s.outbox, Acknowledged, k)
      ensures C.PubrelBytes(cfg.v5, FirstResent(cfg, s, now, written), f.total)
              == C.AckBytes(cfg.v5, MSG_PUBREL, s.outbox[k].id, f.total)
    {
      PubrelBytesAre(cfg, s, now, written, k, f.total);
    }
  }

  lemma FirstBytesAre(cfg: Config, s: State, k: nat)
    requires Inv(cfg, s) && FirstIn(s.outbox, Transmitted, k)
    ensures C.FirstBytes(s, Transmitted) == WithDupOn(s.outbox[k]).data
  {
    assert Wellformed(s.outbox[k]);
    FirstIs(s.outbox, ByPending(Transmitted), k);
  }

  lemma PubrelBytesAre(cfg: Config, s: State, now: int, written: bool, k: nat, stale: nat)
    requires FirstIn(s.outbox, Acknowledged, k) && C.Answerable(s.outbox) && (stale == 0 || stale >= GAP)
    ensures var t := FirstResent(cfg, s, now, written);
            C.Answerable(t.outbox)
            && C.PubrelBytes(cfg.v5, t, stale) == C.AckBytes(cfg.v5, MSG_PUBREL, s.outbox[k].id, stale)
  {
    C.Client.ResentAnswerable(cfg, s, now, written);
    FirstIs(s.outbox, ByPending(Acknowledged), k);
    AckedAsBefore(cfg, s, now, written);
  }

  lemma NothingOnTheWire(c: C.Client, s: State, now: int, f: F.Fields, before: C.Moment, written: bool,
                         pubrelWritten: bool, middle: C.Moment)
    requires Inv(c.session.cfg, s) && F.Sound(f) && Idle(c.session.cfg, s)
    requires c.PassWrites(s, Choose(c.session.cfg, s), now, false, f, before, written, pubrelWritten, middle)
    ensures c.transport.Now() == before && written && pubrelWritten
  {
    IdleExactly(c.session.cfg, s);
  }
}
