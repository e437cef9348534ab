/** mqtt_client.c: a received PUBLISH goes to the application in pieces, as the payload arrives. */
module Delivery {
  import opened Aliases
  import opened Bytes
  import opened Network
  import opened Packets
  import opened Parse3
  import opened Receiver
  import P5 = Parse5
  import V = VarInt

  /** One data event: the topic only with the first. */
  datatype Event = Event(topic: Option<seq<byte>>, data: seq<byte>, offset: nat, total: int)

  function Data(events: seq<Event>): seq<byte> {
    if events == [] then [] else Data(events[..|events| - 1]) + events[|events| - 1].data
  }

  /** Each event starts where the ones before it end. */
  predicate Consecutive(events: seq<Event>) {
    forall k :: 0 <= k < |events| ==> events[k].offset == |Data(events[..k])|
  }

  /** The events of one message: the first brings topic and first chunk, each announces the whole. */
  predicate OneMessage(events: seq<Event>, topic: seq<byte>, first: seq<byte>, total: int) {
    && events != [] && events[0] == Event(Some(topic), first, 0, total)
    && (forall k :: 0 <= k < |events| ==> events[k].total == total && (k > 0 ==> events[k].topic == None))
    && Consecutive(events)
  }

  lemma FirstEvent(e: Event)
    requires e.offset == 0
    ensures Consecutive([e]) && Data([e]) == e.data
  {
    assert [e][..0] == [];
  }

  lemma OneMore(events: seq<Event>, e: Event, topic: seq<byte>, first: seq<byte>, total: int)
    requires OneMessage(events, topic, first, total) && e == Event(None, e.data, |Data(events)|, total)
    ensures OneMessage(events + [e], topic, first, total) && Data(events + [e]) == Data(events) + e.data
  {
    var all := events + [e];
    assert all[..|all| - 1] == events;
    forall k | 0 <= k < |all| ensures all[k].offset == |Data(all[..k])| {
      assert all[..k] == if k < |events| then events[..k] else events;
    }
  }

  /** What of the payload is still to come, in the source, before the bytes that follow the packet. */
  ghost predicate ToCome(r: Receiver, payload: seq<byte>, done: seq<byte>, after: seq<byte>)
    reads r, r.source
  {
    done <= payload && r.source.incoming == payload[|done|..] + after
  }

  /** How much of so many missing bytes one read asks for. */
  function Wanted(missing: nat, size: nat): nat {
    if missing > size then size else missing
  }

  /** Reads the next chunk of the payload into the buffer. */
  method ReadChunk(r: Receiver, remaining: nat, ghost payload: seq<byte>, ghost done: seq<byte>, ghost after: seq<byte>)
    returns (ret: int, chunk: seq<byte>)
    requires r.buffer.Length > 0 && ToCome(r, payload, done, after) && 0 < remaining == |payload| - |done|
    modifies r.buffer, r.source
    ensures r.source.asked == old(r.source.asked) + 1 && |chunk| == (if ret > 0 then ret else 0)
    ensures ret == Given(r.source.network(old(r.source.asked)), Wanted(remaining, r.buffer.Length), remaining)
    ensures ToCome(r, payload, done + chunk, after)
  {
    ret := r.source.Read(r.buffer, 0, Wanted(remaining, r.buffer.Length));
    chunk := if ret > 0 then r.buffer[..ret] else [];
    NextPiece(payload, done, after, |chunk|);
    assert ret > 0 ==> r.buffer[..0 + ret] == [] + (payload[|done|..] + after)[..ret];
  }

  /** Every event but the first brings what one read gave. */
  predicate AsRead(net: Answers, from: nat, events: seq<Event>, length: nat, size: nat) {
    |events| > 1 ==>
      var k := |events| - 1;
      var missing := length - events[k].offset;
      && AsRead(net, from, events[..k], length, size)
      && missing >= 0 && |events[k].data| == Given(net(from + k - 1), Wanted(missing, size), missing)
  }

  lemma OneMoreRead(net: Answers, from: nat, events: seq<Event>, e: Event, length: nat, size: nat)
    requires events != [] && AsRead(net, from, events, length, size) && e.offset <= length
    requires var missing := length - e.offset;
             |e.data| == Given(net(from + |events| - 1), Wanted(missing, size), missing)
    ensures AsRead(net, from, events + [e], length, size)
  {
    assert (events + [e])[..|events|] == events;
  }

  /** If every read brings all that was asked for, every chunk but the first fills the buffer, or is the last. */
  lemma {:induction false} FullChunks(net: Answers, from: nat, events: seq<Event>, length: nat, size: nat, k: nat)
    requires AsRead(net, from, events, length, size) && (forall j :: j >= from ==> net(j) >= size) && 1 <= k < |events|
    ensures var missing := length - events[k].offset;
            |events[k].data| == if missing > size then size else missing
    decreases |events|
  {
    var n := |events| - 1;
    if k < n {
      FullChunks(net, from, events[..n], length, size, k);
    }
  }

  /**
   * What became of a payload, from the answers to the reads made: it is complete if and only if each brought something;
   * if not, the last one brought nothing, and that is no error if and only if it timed out.
   */
  predicate Ends(net: Answers, from: nat, to: nat, ok: bool, complete: bool, events: seq<Event>) {
    && (complete <==> Came(net, from, to)) && (complete ==> ok && |events| == 1 + to - from)
    && (!complete ==> to == from + |events| && Came(net, from, to - 1) && (ok <==> net(to - 1) == 0))
  }

  /** A payload handed on in pieces, from its first chunk on, by reads that began at from. */
  ghost predicate Streamed(r: Receiver, topic: seq<byte>, first: seq<byte>, total: int, payload: seq<byte>,
                           after: seq<byte>, from: nat, ok: bool, complete: bool, events: seq<Event>)
    reads r, r.source
  {
    && OneMessage(events, topic, first, total) && ToCome(r, payload, Data(events), after)
    && (complete <==> Data(events) == payload) && (complete ==> r.source.incoming == after)
    && Ends(r.source.network, from, r.source.asked, ok, complete, events)
    && AsRead(r.source.network, from, events, |payload|, r.buffer.Length)
  }

  /** One more event, if the read for it brings something. */
  method NextEvent(r: Receiver, events: seq<Event>, offset: nat, remaining: nat, total: int, ghost topic: seq<byte>,
                   ghost first: seq<byte>, ghost payload: seq<byte>, ghost after: seq<byte>, ghost from: nat)
    returns (ret: int, more: seq<Event>)
    requires r.buffer.Length > 0 && ToCome(r, payload, Data(events), after)
    requires OneMessage(events, topic, first, total) && offset == |Data(events)| && 0 < remaining == |payload| - offset
    requires r.source.asked == from + |events| - 1 && AsRead(r.source.network, from, events, |payload|, r.buffer.Length)
    modifies r.buffer, r.source
    ensures r.source.asked == old(r.source.asked) + 1 && ToCome(r, payload, Data(more), after)
    ensures OneMessage(more, topic, first, total) && AsRead(r.source.network, from, more, |payload|, r.buffer.Length)
    ensures |Data(more)| == offset + (if ret > 0 then ret else 0) && ret <= remaining
    ensures if ret > 0 then |more| == |events| + 1 else more == events
    ensures var answer := r.source.network(old(r.source.asked)); (ret > 0 <==> answer > 0) && (ret < 0 <==> answer < 0)
  {
    var chunk;
    ret, chunk := ReadChunk(r, remaining, payload, Data(events), after);
    more := events;
    if ret > 0 {
      var e := Event(None, chunk, offset, total);
      OneMore(events, e, topic, first, total);
      OneMoreRead(r.source.network, from, events, e, |payload|, r.buffer.Length);
      more := events + [e];
    } else {
      assert Data(events) + chunk == Data(events);
    }
  }

  /**
   * The loop of deliver_publish. A time-out in the middle ends it without an error; the rest of the payload is then
   * taken for a new message.
   */
  method Stream(r: Receiver, topic: seq<byte>, first: seq<byte>, total: int, ghost payload: seq<byte>,
                ghost after: seq<byte>)
    returns (ok: bool, ghost complete: bool, events: seq<Event>)
    requires r.buffer.Length > 0 && ToCome(r, payload, first, after)
    requires r.readLen <= r.messageLength && r.messageLength - r.readLen == |payload| - |first|
    modifies r.buffer, r.source
    ensures Streamed(r, topic, first, total, payload, after, old(r.source.asked), ok, complete, events)
  {
    events := [Event(Some(topic), first, 0, total)];
    FirstEvent(events[0]);
    ghost var from := r.source.asked;
    var readLen, offset, last := r.readLen, 0, |first|;
    while readLen < r.messageLength
      invariant OneMessage(events, topic, first, total) && ToCome(r, payload, Data(events), after)
      invariant offset + last == |Data(events)| && readLen <= r.messageLength
      invariant r.messageLength - readLen == |payload| - |Data(events)|
      invariant r.source.asked == from + |events| - 1 && Came(r.source.network, from, r.source.asked)
      invariant AsRead(r.source.network, from, events, |payload|, r.buffer.Length)
      decreases r.messageLength - readLen
    {
      offset := offset + last;
      var ret;
      ret, events := NextEvent(r, events, offset, r.messageLength - readLen, total, topic, first, payload, after,
                               from);
      if ret <= 0 {
        return ErrorCode(ret, false) == 0, false, events;
      }
      last := ret;
      readLen := readLen + ret;
    }
    ok, complete := true, true;
  }

  lemma NextPiece(payload: seq<byte>, done: seq<byte>, after: seq<byte>, n: nat)
    requires done <= payload && n <= |payload| - |done|
    ensures var come := payload[|done|..] + after;
            done + come[..n] <= payload && come[n..] == payload[|done| + n..] + after
  {
  }

  /**
   * After a time-out in the middle, the task goes on with the next message: whatever packet the missing part of the
   * payload spells is received as a packet of its own.
   */
  method PayloadTakenForPacket(r: Receiver, topic: seq<byte>, first: seq<byte>, total: int, ghost payload: seq<byte>,
                               ghost after: seq<byte>, ghost spelt: seq<byte>)
    returns (ok: bool, ghost complete: bool, events: seq<Event>, code: int, ghost asked: nat)
    requires r.buffer.Length >= 16 && ToCome(r, payload, first, after)
    requires r.readLen <= r.messageLength && r.messageLength - r.readLen == |payload| - |first|
    modifies r, r.buffer, r.source
    ensures Ends(r.source.network, old(r.source.asked), asked, ok, complete, events)
    ensures ok && !complete && Data(events) + spelt <= payload && Good(spelt) && |spelt| <= r.buffer.Length ==>
              && Exact(r.source.network, asked, spelt, 0, Outcome(code, r.readLen, r.source.asked))
              && (code == 1 ==> r.buffer[..r.readLen] == spelt)
  {
    ok, complete, events := Stream(r, topic, first, total, payload, after);
    asked, code := r.source.asked, 0;
    if ok {
      ghost var done := Data(events);
      r.Forget();
      if !complete && done + spelt <= payload && Good(spelt) && |spelt| <= r.buffer.Length {
        Continues(payload, done, spelt, after);
        PacketComesOut(r.source.network, asked, r.stream, spelt, 0, r.buffer.Length);
      }
      code := r.Receive();
      assert r.buffer[..r.readLen] == r.stream[..r.readLen];
    }
  }

  lemma Continues(payload: seq<byte>, done: seq<byte>, spelt: seq<byte>, after: seq<byte>)
    requires done <= payload && done + spelt <= payload
    ensures spelt <= payload[|done|..] + after
  {
    assert payload[|done|..][..|spelt|] == payload[..|done| + |spelt|][|done|..] == spelt;
  }

  // ---------- a PUBLISH of MQTT 3.1.1

  /** The length deliver_publish announces for the whole payload. */
  function Announces(read: seq<byte>, messageLength: nat): int {
    (if PublishData(read).Some? then |PublishData(read).value| else 0) + messageLength - |read|
  }

  /**
   * With n bytes of a packet in the buffer and its topic found, the length announced is that of the payload if and only
   * if topic and id are all among those bytes.
   */
  lemma AnnouncesExactly(topic: seq<byte>, payload: seq<byte>, qos: nat, retain: int, id: nat, n: nat)
    requires topic != [] && |topic| < 0x1_0000 && id < 0x1_0000 && qos <= 2
    requires 4 + |topic| + |payload| < V.LIMIT
    requires var p := Packet(MSG_PUBLISH, qos, retain, Header3(topic, qos, id) + payload);
             n <= |p| && FixedLength(p) + 2 < n
    ensures var p := Packet(MSG_PUBLISH, qos, retain, Header3(topic, qos, id) + payload);
            Announces(p[..n], |p|) == |payload| <==> |p| - |payload| <= n
  {
    var p := Packet(MSG_PUBLISH, qos, retain, Header3(topic, qos, id) + payload);
    if |p| - |payload| <= n {
      PublishReadsBack(topic, payload, qos, retain, id, p, n, n - (|p| - |payload|));
    } else {
      CutHeader(topic, payload, qos, retain, id, n, p);
    }
  }

  lemma CutHeader(topic: seq<byte>, payload: seq<byte>, qos: nat, retain: int, id: nat, n: nat, p: seq<byte>)
    requires topic != [] && |topic| < 0x1_0000 && id < 0x1_0000 && qos <= 2
    requires 4 + |topic| + |payload| < V.LIMIT
    requires p == Packet(MSG_PUBLISH, qos, retain, Header3(topic, qos, id) + payload)
    requires FixedLength(p) + 2 < n < |p| - |payload|
    ensures PublishData(p[..n]) == None
  {
    var header := Header3(topic, qos, id);
    var f := 1 + |V.Encode(|header + payload|)|;
    PublishFields(topic, payload, qos, retain, id, |header + payload|, p, f);
    HeaderFields(p, f, f + 2 + |topic|, topic, qos, id, payload);
    assert p[f - 1] == V.Encode(|header + payload|)[f - 2] < 128;
    assert p[..n][..f] == p[..f];
    SameHeader(p, p[..n]);
  }

  /** deliver_publish, MQTT 3.1.1, of a packet p with topic and id in the buffer. */
  method DeliverPublish(r: Receiver, ghost topic: seq<byte>, ghost payload: seq<byte>, ghost qos: nat,
                        ghost retain: int, ghost id: nat, ghost p: seq<byte>, ghost after: seq<byte>)
    returns (ok: bool, ghost complete: bool, events: seq<Event>)
    requires topic != [] && |topic| < 0x1_0000 && id < 0x1_0000 && qos <= 2 && 4 + |topic| + |payload| < V.LIMIT
    requires p == Packet(MSG_PUBLISH, qos, retain, Header3(topic, qos, id) + payload)
    requires 0 < r.readLen <= r.buffer.Length && |p| - |payload| <= r.readLen <= |p| == r.messageLength
    requires r.buffer[..r.readLen] == p[..r.readLen] && r.source.incoming == p[r.readLen..] + after
    modifies r.buffer, r.source
    ensures Streamed(r, topic, payload[..r.readLen - (|p| - |payload|)], |payload|, payload, after,
                     old(r.source.asked), ok, complete, events)
  {
    ghost var k := r.readLen - (|p| - |payload|);
    var t, first := Open(r.buffer[..r.readLen], topic, payload, qos, retain, id, p, r.readLen, k);
    if t.None? { return false, false, []; }
    ok, complete, events := Stream(r, t.value, first, |first| + r.messageLength - r.readLen, payload, after);
  }

  /** Topic and first chunk, as far as the bytes received hold them. */
  method Open(read: seq<byte>, ghost topic: seq<byte>, ghost payload: seq<byte>, ghost qos: nat, ghost retain: int,
              ghost id: nat, ghost p: seq<byte>, ghost n: nat, ghost k: nat)
    returns (t: Option<seq<byte>>, first: seq<byte>)
    requires topic != [] && |topic| < 0x1_0000 && id < 0x1_0000 && qos <= 2 && 4 + |topic| + |payload| < V.LIMIT
    requires p == Packet(MSG_PUBLISH, qos, retain, Header3(topic, qos, id) + payload)
    requires |p| - |payload| <= n <= |p| && k == n - (|p| - |payload|) && read == p[..n]
    ensures t == Some(topic) && first == payload[..k] && p[n..] == payload[k..]
  {
    PublishReadsBack(topic, payload, qos, retain, id, p, n, k);
    t := GetPublishTopic(read);
    var data := GetPublishData(read);
    first := if data.Some? then data.value else [];
  }

  // ---------- a PUBLISH of MQTT 5.0

  /**
   * deliver_publish, MQTT 5.0, of a packet p with topic, id and properties in the buffer: what a topic alias stands for
   * is delivered in place of an empty topic. Nothing is delivered if a checked string is too long, or the alias is
   * beyond the maximum or unknown.
   */
  method DeliverPublish5(r: Receiver, aliases: AliasList, maximum: nat, ghost topic: seq<byte>,
                         ghost payload: seq<byte>, ghost qos: nat, ghost retain: int, ghost id: nat,
                         ghost props: Properties, ghost info: seq<byte>, ghost p: seq<byte>, ghost after: seq<byte>)
    returns (ok: bool, ghost complete: bool, events: seq<Event>, seen: P5.Received)
    requires |topic| < 0x1_0000 && id < 0x1_0000 && qos <= 2 && Sized(props) && InfoFits(props, info)
    requires |PropertyBytes(props, info)| < 0x1_0000
    requires |Header5(topic, qos, id, PropertyBytes(props, info))| + |payload| < V.LIMIT
    requires p == Packet(MSG_PUBLISH, qos, retain, Header5(topic, qos, id, PropertyBytes(props, info)) + payload)
    requires 0 < r.readLen <= r.buffer.Length && |p| - |payload| <= r.readLen <= |p| == r.messageLength
    requires r.buffer[..r.readLen] == p[..r.readLen] && r.source.incoming == p[r.readLen..] + after
    modifies r.buffer, r.source, aliases
    ensures aliases.list == if P5.ShortStrings(props, info)
                            then Noticed(old(aliases.list), maximum, props.topicAlias, topic) else old(aliases.list)
    ensures var t := if P5.ShortStrings(props, info) then Resolved(old(aliases.list), maximum, props.topicAlias, topic)
                     else None;
            match t
            case None =>
              !ok && !complete && events == []
              && r.source.asked == old(r.source.asked) && r.source.incoming == old(r.source.incoming)
            case Some(name) =>
              && seen == P5.Seen(props, info)
              && Streamed(r, name, payload[..r.readLen - (|p| - |payload|)], |payload|, payload, after,
                          old(r.source.asked), ok, complete, events)
  {
    ghost var k := r.readLen - (|p| - |payload|);
    var t, first;
    t, first, seen := Open5(aliases, maximum, r.buffer[..r.readLen], topic, payload, qos, retain, id, props, info, p,
                            r.readLen, k);
    if t.None? { return false, false, [], seen; }
    ok, complete, events := Stream(r, t.value, first, |first| + r.messageLength - r.readLen, payload, after);
  }

  /** esp_mqtt5_get_publish_data. */
  method Open5(aliases: AliasList, maximum: nat, read: seq<byte>, ghost topic: seq<byte>, ghost payload: seq<byte>,
               ghost qos: nat, ghost retain: int, ghost id: nat, ghost props: Properties, ghost info: seq<byte>,
               ghost p: seq<byte>, ghost n: nat, ghost k: nat)
    returns (t: Option<seq<byte>>, first: seq<byte>, seen: P5.Received)
    requires |topic| < 0x1_0000 && id < 0x1_0000 && qos <= 2 && Sized(props) && InfoFits(props, info)
    requires |PropertyBytes(props, info)| < 0x1_0000
    requires |Header5(topic, qos, id, PropertyBytes(props, info))| + |payload| < V.LIMIT
    requires p == Packet(MSG_PUBLISH, qos, retain, Header5(topic, qos, id, PropertyBytes(props, info)) + payload)
    requires |payload| <= |p| && |p| - |payload| <= n <= |p| && k == n - (|p| - |payload|) && read == p[..n]
    modifies aliases
    ensures aliases.list == if P5.ShortStrings(props, info)
                            then Noticed(old(aliases.list), maximum, props.topicAlias, topic) else old(aliases.list)
    ensures t == if P5.ShortStrings(props, info) then Resolved(old(aliases.list), maximum, props.topicAlias, topic)
                 else None
    ensures t.Some? ==> first == payload[..k] && p[n..] == payload[k..] && seen == P5.Seen(props, info)
  {
    P5.PublishReadsBack5(topic, payload, qos, retain, id, props, info, p, n, k);
    var m := P5.PublishIn(read);
    if !m.Message? { return None, [], P5.NOTHING; }
    t := aliases.Resolve(maximum, m.properties.alias, m.topic);
    first, seen := m.payload, m.properties;
  }
}
