/** mqtt_msg.c: the builders of MQTT 3.1.1 packets. */
module Mqtt3 {
  import opened Bytes
  import opened Packets
  import opened Connection
  import V = VarInt

  /** Where a message being built may stand: the stale fragment length is 0, or one a publish left behind. */
  ghost predicate Ready(c: Connection)
    reads c`fragTotal, c`lastMessageId
  {
    c.Valid() && (c.fragTotal == 0 || GAP <= c.fragTotal < V.LIMIT) && c.buffer.Length < V.LIMIT
  }

  /**
   * A packet of that payload stands in the buffer, as far as it fits: all of it, or up to the end of the buffer.
   * outStart is what the fixed header leaves unused of the gap; fragOffset is where the payload starts in what is
   * to be written if the packet does not fit, and else what it was before, less outStart.
   */
  ghost predicate Built(c: Connection, packet: seq<byte>, payload: seq<byte>, offsetBefore: int)
    reads c`out, c`outStart, c`length, c`fragOffset, c.out
  {
    && c.out == c.buffer && c.outStart + c.length <= c.buffer.Length
    && 0 < c.length <= |packet| && c.Outbound() == packet[..c.length]
    && |payload| < |packet| && packet[|packet| - |payload|..] == payload
    && if c.length < |packet|
       then c.fragOffset == |packet| - |payload| <= c.length && c.outStart + c.length == c.buffer.Length
       else c.fragOffset == offsetBefore - c.outStart
  }

  /** A publish of this header and payload stands in the buffer, as far as it fits, and the fragment fields say so. */
  ghost predicate Finished(c: Connection, header: seq<byte>, payload: seq<byte>, qos: nat, retain: int,
                           offsetBefore: int)
    reads c`out, c`outStart, c`length, c`fragTotal, c`fragOffset, c.out
  {
    var packet := Packet(MSG_PUBLISH, qos, retain, header + payload);
    && Built(c, packet, payload, offsetBefore) && GAP + |header| + |payload| < V.LIMIT
    && c.outStart + |packet| == GAP + |header| + |payload| && c.outStart == Unused(|header| + |payload|)
    && c.fragTotal == if c.length < |packet| then c.outStart + |packet| else 0
  }

  /** The last steps of a publish: payload, as much of it as fits, then the fixed header. */
  method FinishPublish(c: Connection, ghost header: seq<byte>, payload: seq<byte>, qos: nat, retain: int)
    requires Ready(c) && GAP <= c.length <= c.buffer.Length && c.Body() == header
    requires GAP + |header| + |payload| < V.LIMIT && qos < 4
    modifies c, c.buffer
    ensures Finished(c, header, payload, qos, retain, old(c.fragOffset))
    ensures Ready(c) && c.lastMessageId == old(c.lastMessageId)
  {
    ghost var offset := c.fragOffset;
    var taken := AppendPayload(c, payload);
    c.FiniMessage(MSG_PUBLISH, qos, retain);
    assert |header + payload| == |header| + |payload|;
    FinishedIs(c, header, payload, qos, retain, taken, offset);
  }

  lemma FinishedIs(c: Connection, header: seq<byte>, payload: seq<byte>, qos: nat, retain: int, taken: nat, offset: int)
    requires GAP + |header| + |payload| < V.LIMIT && taken <= |payload|
    requires c.out == c.buffer && c.outStart + c.length == GAP + |header| + taken <= c.buffer.Length
    requires c.Outbound() == Headed(MSG_PUBLISH, qos, retain, |header + payload|, header + payload[..taken])
    requires c.outStart == GAP - 1 - |V.Encode(|header + payload|)|
    requires if taken < |payload| then
               c.outStart + c.length == c.buffer.Length && c.fragTotal == GAP + |header| + |payload|
               && c.fragOffset == GAP + |header| - c.outStart
             else c.fragTotal == 0 && c.fragOffset == offset - c.outStart
    ensures Finished(c, header, payload, qos, retain, offset)
  {
    HeadedPrefix(MSG_PUBLISH, qos, retain, header, payload, taken);
    UnusedIs(|header + payload|);
  }

  /** Payload, as much of it as fits; the fragment fields say where a message that does not fit ends. */
  method AppendPayload(c: Connection, payload: seq<byte>) returns (taken: nat)
    requires GAP <= c.length <= c.buffer.Length
    modifies c`length, c`fragTotal, c`fragOffset, c.buffer
    ensures taken <= |payload| && c.length == old(c.length) + taken <= c.buffer.Length
    ensures c.Body() == old(c.Body()) + payload[..taken]
    ensures taken < |payload| ==>
              c.length == c.buffer.Length && c.fragOffset == old(c.length) && c.fragTotal == |payload| + old(c.length)
    ensures taken == |payload| ==> c.fragTotal == 0 && c.fragOffset == old(c.fragOffset)
  {
    taken := if c.length + |payload| > c.buffer.Length then c.buffer.Length - c.length else |payload|;
    if taken < |payload| {
      c.fragOffset := c.length;
      c.fragTotal := |payload| + c.length;
    } else {
      c.fragTotal := 0;
    }
    AppendBytes(c, payload[..taken]);
  }

  method AppendBytes(c: Connection, s: seq<byte>)
    requires GAP <= c.length && c.length + |s| <= c.buffer.Length
    modifies c`length, c.buffer
    ensures c.length == old(c.length) + |s| && c.Body() == old(c.Body()) + s
  {
    ghost var prefix := c.buffer[..c.length];
    assert c.Body() == prefix[GAP..];
    CopyInto(c.buffer, c.length, s);
    c.length := c.length + |s|;
    c.BodyGrew(prefix, s);
  }

  /** Cutting the payload of a packet cuts the packet. */
  lemma HeadedPrefix(kind: int, qos: int, retain: int, header: seq<byte>, payload: seq<byte>, n: nat)
    requires n <= |payload|
    ensures var full := Packet(kind, qos, retain, header + payload);
            var part := Headed(kind, qos, retain, |header + payload|, header + payload[..n]);
            && |full| == 1 + |V.Encode(|header + payload|)| + |header| + |payload|
            && |part| == |full| - |payload| + n && part == full[..|part|]
            && (n == |payload| ==> part == full) && full[|full| - |payload|..] == payload
  {
    Joined([FirstByte(kind, 0, qos, retain)], V.Encode(|header + payload|), header, payload, n);
  }

  lemma Joined(first: seq<byte>, lens: seq<byte>, header: seq<byte>, payload: seq<byte>, n: nat)
    requires n <= |payload|
    ensures var full, part := first + lens + (header + payload), first + lens + (header + payload[..n]);
            && |full| == |first| + |lens| + |header| + |payload| && |part| == |full| - |payload| + n
            && part == full[..|part|] && (n == |payload| ==> part == full) && full[|full| - |payload|..] == payload
  {
  }

  /** Whether the builder accepts: topic, payload pointer and the room for topic and id. */
  predicate Accepts(topic: seq<byte>, data: Data, qos: int, room: nat) {
    topic != [] && !(data.Null? && data.len > 0) && GAP + 2 + |topic| + (if qos > 0 then 2 else 0) <= room
  }

  method MsgPublish(c: Connection, topic: seq<byte>, data: Data, qos: nat, retain: int) returns (id: nat)
    requires Ready(c) && |topic| < 0x1_0000 && qos <= 2
    requires GAP + 4 + |topic| + Length(data) < V.LIMIT
    modifies c, c.buffer
    ensures Ready(c) && id < 0x1_0000 && (qos == 0 ==> id == 0)
    ensures (c.length > 0) == Accepts(topic, data, qos, c.buffer.Length)
    ensures c.length > 0 ==> (qos > 0 ==> id != 0)
    ensures c.length > 0 && (data.Payload? || old(c.fragTotal) == 0) ==>
              Finished(c, Header3(topic, qos, id), Content(data), qos, retain, old(c.fragOffset))
    ensures c.length > 0 && data.Null? && old(c.fragTotal) != 0 ==>
              c.fragTotal == old(c.fragTotal) && c.outStart + c.length <= c.out.Length
              && c.Outbound() == Headed(MSG_PUBLISH, qos, retain, c.fragTotal - GAP, Header3(topic, qos, id))
    ensures c.length == 0 ==> c.fragTotal == old(c.fragTotal) && c.fragOffset == old(c.fragOffset)
    ensures if qos == 0 then c.lastMessageId == old(c.lastMessageId)
            else if c.length > 0 then c.DrewNext(old(c.lastMessageId), id)
            else c.DrewAtMostOne(old(c.lastMessageId))
  {
    var ok;
    ok, id := AppendHeader3(c, topic, data, qos);
    if !ok {
      c.FailMessage();
      return;
    }
    if data.Payload? {
      FinishPublish(c, Header3(topic, qos, id), data.bytes, qos, retain);
    } else {
      FinishNull(c, Header3(topic, qos, id), qos, retain);
    }
  }

  /** Topic and id. */
  method AppendHeader3(c: Connection, topic: seq<byte>, data: Data, qos: nat) returns (ok: bool, id: nat)
    requires Ready(c) && |topic| < 0x1_0000 && qos <= 2
    modifies c`length, c`lastMessageId, c.buffer
    ensures Ready(c) && id < 0x1_0000 && (qos == 0 ==> id == 0)
    ensures ok == Accepts(topic, data, qos, c.buffer.Length)
    ensures ok ==> (qos > 0 ==> id != 0)
    ensures ok ==> GAP <= c.length <= c.buffer.Length && c.Body() == Header3(topic, qos, id)
    ensures if qos == 0 then c.lastMessageId == old(c.lastMessageId)
            else if ok then c.DrewNext(old(c.lastMessageId), id)
            else c.DrewAtMostOne(old(c.lastMessageId))
  {
    id := 0;
    c.InitMessage();
    if topic == [] { return false, 0; }
    var n := c.AppendString(topic);
    if n < 0 || (data.Null? && data.len > 0) { return false, 0; }
    if qos > 0 {
      id := c.AppendMessageId(0);
      if id == 0 { return false, 0; }
    }
    assert c.Body() == Header3(topic, qos, id);
    return true, id;
  }

  /** A null payload leaves the fragment length as it is, and the header claims it. */
  method FinishNull(c: Connection, ghost header: seq<byte>, qos: nat, retain: int)
    requires Ready(c) && GAP <= c.length <= c.buffer.Length && c.Body() == header && qos < 4
    modifies c`out, c`outStart, c`length, c`fragOffset, c.buffer
    ensures Ready(c) && c.length > 0
    ensures c.fragTotal == 0 ==>
              var packet := Packet(MSG_PUBLISH, qos, retain, header + []);
              && Built(c, packet, [], old(c.fragOffset))
              && c.outStart + |packet| == GAP + |header| && c.length == |packet|
              && c.outStart == Unused(|header|)
    ensures c.fragTotal != 0 ==>
              c.outStart + c.length <= c.out.Length
              && c.Outbound() == Headed(MSG_PUBLISH, qos, retain, c.fragTotal - GAP, header)
  {
    assert header + [] == header;
    UnusedIs(|header|);
    c.FiniMessage(MSG_PUBLISH, qos, retain);
  }

  /** The remaining length a header states: that of the message, or what a fragmented publish left behind. */
  function Claimed(stale: nat, body: nat): nat
    requires stale == 0 || stale >= GAP
  {
    if stale != 0 then stale - GAP else body
  }

  /** How much of the gap the fixed header leaves unused. */
  function Unused(claimed: nat): (n: nat)
    requires claimed < V.LIMIT
  {
    if claimed < 0x80 then 3 else if claimed < 0x4000 then 2 else if claimed < 0x20_0000 then 1 else 0
  }

  lemma UnusedIs(claimed: nat)
    requires claimed < V.LIMIT
    ensures Unused(claimed) == GAP - 1 - |V.Encode(claimed)|
  {
    V.SizeOf(claimed);
  }

  /** The offset after a packet: lower by what its header leaves unused of the gap; as it was, if none was built. */
  predicate Lowers(c: Connection, offset: int, body: nat)
    reads c`length, c`fragTotal, c`fragOffset
    requires (c.fragTotal == 0 || GAP <= c.fragTotal < V.LIMIT) && body < V.LIMIT
  {
    c.fragOffset == if c.length > 0 then offset - Unused(Claimed(c.fragTotal, body)) else offset
  }

  /** A control packet with this body is in the buffer, under the header that the stale fragment length makes. */
  ghost predicate Holds(c: Connection, kind: nat, qos: nat, stale: nat, body: seq<byte>)
    reads c, c.out
    requires stale == 0 || stale >= GAP
  {
    && c.out == c.buffer && c.outStart + c.length <= c.buffer.Length && c.length > 0
    && c.Outbound() == Headed(kind, qos, 0, Claimed(stale, |body|), body)
  }

  method Finish(c: Connection, kind: nat, qos: nat)
    requires Ready(c) && GAP <= c.length <= c.buffer.Length && kind < 16 && qos < 4
    modifies c`out, c`outStart, c`length, c`fragOffset, c.buffer
    ensures Ready(c) && Holds(c, kind, qos, c.fragTotal, old(c.Body()))
    ensures Lowers(c, old(c.fragOffset), |old(c.Body())|)
  {
    UnusedIs(Claimed(c.fragTotal, |c.Body()|));
    c.FiniMessage(kind, qos, 0);
  }

  /** PUBACK, PUBREC, PUBREL, PUBCOMP: the header and an id. Only PUBREL sets a flag bit. */
  method MsgAck(c: Connection, kind: nat, messageId: nat) returns (id: nat)
    requires Ready(c) && MSG_PUBACK <= kind <= MSG_PUBCOMP && messageId < 0x1_0000
    modifies c, c.buffer
    ensures Ready(c) && 1 <= id < 0x1_0000 && (messageId != 0 ==> id == messageId)
    ensures Holds(c, kind, if kind == MSG_PUBREL then 1 else 0, old(c.fragTotal), U16(id))
    ensures c.fragTotal == old(c.fragTotal) && Lowers(c, old(c.fragOffset), 2)
    ensures messageId != 0 ==> c.lastMessageId == old(c.lastMessageId)
  {
    c.InitMessage();
    id := c.AppendMessageId(messageId);
    Finish(c, kind, if kind == MSG_PUBREL then 1 else 0);
  }

  /** PINGREQ and DISCONNECT: the header alone. */
  method MsgEmpty(c: Connection, kind: nat)
    requires Ready(c) && kind in {MSG_PINGREQ, MSG_DISCONNECT}
    modifies c, c.buffer
    ensures Ready(c) && Holds(c, kind, 0, old(c.fragTotal), [])
    ensures c.fragTotal == old(c.fragTotal) && Lowers(c, old(c.fragOffset), 0)
    ensures c.lastMessageId == old(c.lastMessageId)
  {
    c.InitMessage();
    Finish(c, kind, 0);
  }

  method AppendTopic(c: Connection, topic: Topic) returns (ok: bool)
    requires GAP <= c.length <= c.buffer.Length && |topic.filter| < 0x1_0000 && topic.qos <= 2
    modifies c`length, c.buffer
    ensures ok <==> topic.filter != [] && old(c.length) + |topic.filter| + 3 <= c.buffer.Length
    ensures ok ==> GAP <= c.length <= c.buffer.Length && c.Body() == old(c.Body()) + (Str(topic.filter) + [topic.qos])
  {
    if topic.filter == [] { return false; }
    var n := c.AppendString(topic.filter);
    if n < 0 || c.length + 1 > c.buffer.Length { return false; }
    AppendBytes(c, [topic.qos]);
    return true;
  }

  method AppendTopics(c: Connection, list: seq<Topic>) returns (ok: bool)
    requires GAP <= c.length <= c.buffer.Length && GoodTopics(list)
    modifies c`length, c.buffer
    ensures ok <==> (forall k :: 0 <= k < |list| ==> list[k].filter != [])
                    && old(c.length) + |TopicBytes(list)| <= c.buffer.Length
    ensures ok ==> GAP <= c.length <= c.buffer.Length && c.Body() == old(c.Body()) + TopicBytes(list)
  {
    var k := 0;
    while k < |list|
      invariant 0 <= k <= |list| && GAP <= c.length <= c.buffer.Length
      invariant c.Body() == old(c.Body()) + TopicBytes(list[..k])
      invariant forall j :: 0 <= j < k ==> list[j].filter != []
    {
      assert list[..k + 1][..k] == list[..k];
      TopicBytesGrow(list, k + 1);
      ok := AppendTopic(c, list[k]);
      if !ok { return; }
      k := k + 1;
    }
    assert list[..k] == list;
    return true;
  }

  method MsgSubscribe(c: Connection, list: seq<Topic>) returns (id: nat)
    requires Ready(c) && GoodTopics(list)
    modifies c, c.buffer
    ensures Ready(c) && 1 <= id < 0x1_0000
    ensures c.length > 0 <==> (forall k :: 0 <= k < |list| ==> list[k].filter != [])
                              && GAP + 2 + |TopicBytes(list)| <= c.buffer.Length
    ensures c.length > 0 ==> Holds(c, MSG_SUBSCRIBE, 1, old(c.fragTotal), U16(id) + TopicBytes(list))
    ensures c.fragTotal == old(c.fragTotal) && c.DrewNext(old(c.lastMessageId), id)
    ensures if c.length > 0 then Lowers(c, old(c.fragOffset), 2 + |TopicBytes(list)|)
            else c.fragOffset == old(c.fragOffset)
  {
    c.InitMessage();
    id := c.AppendMessageId(0);
    var ok := AppendTopics(c, list);
    if !ok {
      c.FailMessage();
      return;
    }
    assert c.Body() == U16(id) + TopicBytes(list);
    Finish(c, MSG_SUBSCRIBE, 1);
  }

  method MsgUnsubscribe(c: Connection, topic: seq<byte>) returns (id: nat)
    requires Ready(c) && |topic| < 0x1_0000
    modifies c, c.buffer
    ensures Ready(c) && id < 0x1_0000
    ensures c.length > 0 <==> topic != [] && GAP + 4 + |topic| <= c.buffer.Length
    ensures c.length > 0 ==> id != 0 && Holds(c, MSG_UNSUBSCRIBE, 1, old(c.fragTotal), U16(id) + Str(topic))
    ensures c.fragTotal == old(c.fragTotal) && Lowers(c, old(c.fragOffset), 4 + |topic|)
    ensures if c.length > 0 then c.DrewNext(old(c.lastMessageId), id) else c.DrewAtMostOne(old(c.lastMessageId))
  {
    id := 0;
    c.InitMessage();
    if topic == [] {
      c.FailMessage();
      return;
    }
    id := c.AppendMessageId(0);
    var n := c.AppendString(topic);
    if n < 0 {
      c.FailMessage();
      return;
    }
    assert c.Body() == U16(id) + Str(topic);
    Finish(c, MSG_UNSUBSCRIBE, 1);
  }
}
