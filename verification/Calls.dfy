/** What a publish or enqueue call comes to, for whoever makes it: answer, stored copy, bytes on the wire. */
module Calls {
  import opened Bytes
  import opened Packets
  import opened OutboxModel
  import opened Protocol
  import opened Invariants
  import opened Effects
  import opened Network
  import C = Client
  import H = Handshake
  import O = Connection
  import V = VarInt

  /**
   * A call is turned down if and only if the server's Maximum QoS or Retain Available forbids it, the outbox is full,
   * no payload comes with a length, the topic is missing, or topic, id and properties do not fit the buffer.
   */
  lemma RefusedExactly(c: C.Client, topic: seq<byte>, data: O.Data, qos: nat, retain: int, limited: bool)
    requires c.property.Some? ==> Sized(c.property.value) && InfoFits(c.property.value, c.responseInfo)
    ensures var cfg := c.session.cfg; var id := if qos > 0 then 2 else 0;
            c.Refused(topic, data, qos, retain, limited)
            <==> || (cfg.v5 && (qos > c.maxQos || (retain != 0 && !c.retainAvailable)))
                 || (limited && !WithinLimit(cfg, c.session.state, O.Length(data)))
                 || (data.Null? && data.len > 0)
                 || if !cfg.v5 then topic == [] || GAP + 2 + |topic| + id > c.conn.buffer.Length
                    else
                      var block := if c.property.Some? then PropertyBytes(c.property.value, c.responseInfo) else [];
                      || (topic == [] && (c.property.None? || c.property.value.topicAlias == 0))
                      || GAP + 2 + |topic| + id + |V.Encode(|block|)| + |block| > c.conn.buffer.Length
  {
  }

  /** The message as the outbox keeps it. */
  function Kept(st: State, m: C.Message, tick: int, pending: Pending): Entry {
    Entry(st.next, m.id, MSG_PUBLISH, m.qos, tick, pending, m.packet)
  }

  /** An enqueue call that is accepted stores the message, whatever the phase, or says that it did not. */
  lemma EnqueueMeans(cfg: Config, a: C.World, b: C.World, m: C.Message, store: bool, now: int, ret: int)
    requires C.EnqueueDone(cfg, a, b, m, store, now, ret) && WithinLimit(cfg, a.state, m.len)
    ensures b.at == a.at
    ensures m.qos > 0 || store ==>
              ret == m.id && b.state.outbox == a.state.outbox + [Kept(a.state, m, now, Queued)]
    ensures m.qos == 0 && !store ==> ret == -1 && b.state == a.state
    ensures b.state.phase == a.state.phase && b.state.count == a.state.count
  {
    EnqueueStores(cfg, a.state, EnqueueCall(m.id, m.qos, m.packet, m.len, store, now));
  }

  /**
   * A publish call with QoS > 0 always stores the message. Without a connection, or without room in the quota, it waits
   * there. Otherwise it goes out: if the network takes all of it, it is transmitted; if not, the call fails, the
   * connection ends, and the message waits.
   */
  lemma PublishMeans(cfg: Config, net: Answers, a: C.World, b: C.World, m: C.Message, stored: int, sent: int, ret: int,
                     written: bool, begun: bool, extra: seq<byte>)
    requires C.PublishDone(cfg, net, a, b, m, stored, sent, ret, written, begun, extra)
    requires Inv(cfg, a.state) && m.qos > 0 && WithinLimit(cfg, a.state, m.len)
    requires Legal(cfg, a.state, PublishCall(m.id, m.qos, m.packet, m.len, stored, sent, written))
    ensures if a.state.phase == Connected && HasRoom(cfg, a.state) then
              && (written <==> Came(net, a.at.asked, b.at.asked))
              && (if written then
                    ret == m.id && a.at.wire + m.packet <= b.at.wire && b.state.phase == Connected
                    && b.state.outbox == a.state.outbox + [Kept(a.state, m, sent, Transmitted)]
                  else
                    ret == -1 && a.at.wire <= b.at.wire && b.state.phase == WaitReconnect
                    && b.state.outbox == a.state.outbox + [Kept(a.state, m, stored, Queued)])
            else
              ret == m.id && b.at == a.at && b.state.phase == a.state.phase
              && b.state.outbox == a.state.outbox + [Kept(a.state, m, stored, Queued)]
  {
    PublishStores(cfg, a.state, PublishCall(m.id, m.qos, m.packet, m.len, stored, sent, written));
  }

  /** A publish call with QoS 0 stores nothing: it goes out at once, or the call fails. */
  lemma PublishOnceMeans(cfg: Config, net: Answers, a: C.World, b: C.World, m: C.Message, stored: int, sent: int,
                         ret: int, written: bool, begun: bool, extra: seq<byte>)
    requires C.PublishDone(cfg, net, a, b, m, stored, sent, ret, written, begun, extra) && m.qos == 0
    ensures b.state.outbox == a.state.outbox && b.state.count == a.state.count
    ensures if a.state.phase == Connected then
              && (written <==> Came(net, a.at.asked, b.at.asked))
              && (if written then ret == m.id && a.at.wire + m.packet <= b.at.wire && b.state.phase == Connected
                  else ret == -1 && b.state.phase == WaitReconnect)
            else ret == -1 && b == a.(fields := b.fields)
  {
    PublishPasses(cfg, a.state, PublishCall(m.id, m.qos, m.packet, m.len, stored, sent, written));
  }

  /** The other end reads the message that the client builds as the PUBLISH it is, from any part with its header. */
  lemma MessageReads(c: C.Client, topic: seq<byte>, bytes: seq<byte>, qos: nat, retain: int, id: nat, n: nat)
    requires c.Publishable(topic, O.Payload(bytes), qos) && 0 < id < 0x1_0000 && 1 <= qos
    requires if c.session.cfg.v5 then c.property.Some? ==> |PropertyBytes(c.property.value, c.responseInfo)| < 0x1_0000
             else topic != []
    requires var p := c.MessageFor(topic, O.Payload(bytes), qos, retain, id).packet;
             |bytes| <= |p| && |p| - |bytes| <= n <= |p|
    ensures var m := c.MessageFor(topic, O.Payload(bytes), qos, retain, id);
            m.id == id && m.qos == qos && H.Reads(c.session.cfg.v5, m.packet[..n], qos, id)
  {
    if c.session.cfg.v5 {
      var props := if c.property.Some? then c.property.value else NONE_SET;
      assert c.property.None? ==> PropertyBytes(props, c.responseInfo) == [];
      H.BuiltReads5(topic, bytes, qos, retain, id, props, c.responseInfo, n);
    } else {
      H.BuiltReads(topic, bytes, qos, retain, id, n);
    }
  }

  const NONE_SET := Properties(false, 0, 0, None, [], [], None)
}
