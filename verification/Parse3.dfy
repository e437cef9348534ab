/** mqtt_msg.c: the parsers of MQTT 3.1.1 packets, and the length of any packet. */
module Parse3 {
  import opened Bytes
  import opened Packets
  import opened Mqtt3
  import V = VarInt

  function Tail(p: seq<byte>): seq<byte> {
    if p == [] then [] else p[1..]
  }

  /** Type byte and length bytes; the remaining length may be spelt with at most four. */
  function FixedLength(p: seq<byte>): (n: nat) {
    1 + V.Span(Tail(p), 4)
  }

  function TotalLength(p: seq<byte>): (n: nat) {
    FixedLength(p) + V.Value(Tail(p), 4)
  }

  /** mqtt_get_total_length. */
  method GetTotalLength(p: seq<byte>) returns (total: nat, fixed: nat)
    ensures total == TotalLength(p) && fixed == FixedLength(p)
  {
    var i, scale := 1, 1;
    total := 0;
    ghost var rest := Tail(p);
    while i < |p| && i <= 4
      invariant 1 <= i <= 5 && scale > 0 && rest == (if i <= |p| then p[i..] else [])
      invariant total + Scaled(scale, V.Value(rest, 5 - i)) == V.Value(Tail(p), 4)
      invariant i - 1 + V.Span(rest, 5 - i) == V.Span(Tail(p), 4)
      decreases 5 - i
    {
      ValueStep(scale, rest, 5 - i);
      total := total + Scaled(scale, p[i] % 128);
      if p[i] < 128 {
        i := i + 1;
        break;
      }
      rest := rest[1..];
      scale := scale * 128;
      i := i + 1;
    }
    total := total + i;
    fixed := i;
  }

  /** A group of seven bits, shifted to its place. */
  function Scaled(scale: nat, v: nat): nat {
    scale * v
  }

  lemma ValueStep(scale: nat, s: seq<byte>, max: nat)
    requires s != [] && max > 0
    ensures s[0] < 128 ==> s[0] % 128 == s[0] && V.Value(s, max) == s[0]
    ensures s[0] >= 128 ==>
              Scaled(scale, V.Value(s, max))
              == Scaled(scale, s[0] % 128) + Scaled(scale * 128, V.Value(s[1..], max - 1))
  {
    if s[0] >= 128 {
      var a, v := s[0] % 128, V.Value(s[1..], max - 1);
      assert scale * (a + 128 * v) == scale * a + scale * 128 * v;
    }
  }

  // ---------- PUBLISH

  /** Where the topic length stands, as the topic and id parsers look for it: there is no limit of four bytes. */
  function AfterLength(p: seq<byte>): (n: nat) {
    1 + V.Span(Tail(p), |p|)
  }

  method SkipLength(p: seq<byte>) returns (i: nat)
    ensures i == AfterLength(p)
  {
    i := 1;
    while i < |p|
      invariant 1 <= i && (p == [] ==> i == 1) && (p != [] ==> i <= |p|)
      invariant i - 1 + V.Span(if p == [] then [] else p[i..], |p| + 1 - i) == V.Span(Tail(p), |p|)
    {
      assert p[i..][1..] == p[i + 1..];
      if p[i] < 128 {
        i := i + 1;
        break;
      }
      i := i + 1;
    }
  }

  /** mqtt_get_publish_topic. */
  method GetPublishTopic(p: seq<byte>) returns (topic: Option<seq<byte>>)
    ensures topic == PublishTopic(p)
  {
    var i := SkipLength(p);
    topic := None;
    if i + 2 < |p| {
      var n := Join16(p[i], p[i + 1]);
      if i + 2 + n <= |p| {
        topic := Some(p[i + 2..i + 2 + n]);
      }
    }
  }

  function PublishTopic(p: seq<byte>): Option<seq<byte>> {
    TopicAt(p, AfterLength(p))
  }

  function TopicAt(p: seq<byte>, i: nat): Option<seq<byte>> {
    if i + 2 >= |p| || i + 2 + Join16(p[i], p[i + 1]) > |p| then None
    else Some(p[i + 2..i + 2 + Join16(p[i], p[i + 1])])
  }

  /** mqtt_get_publish_data: None stands for the null pointer, whose length is 0. */
  method GetPublishData(p: seq<byte>) returns (data: Option<seq<byte>>)
    ensures data == PublishData(p)
  {
    var total, i := GetTotalLength(p);
    if i + 2 >= |p| { return None; }
    i := i + 2 + Join16(p[i], p[i + 1]);
    if i >= |p| { return None; }
    if Qos(p[0]) > 0 {
      i := i + 2;
      if i >= |p| { return None; }
    }
    if total < i { return None; }
    return Some(p[i..if total <= |p| then total else |p|]);
  }

  function DataStart(p: seq<byte>): (i: nat)
    requires FixedLength(p) + 2 < |p|
  {
    var i := FixedLength(p);
    i + 2 + Join16(p[i], p[i + 1]) + if Qos(p[0]) > 0 then 2 else 0
  }

  function PublishData(p: seq<byte>): Option<seq<byte>> {
    if FixedLength(p) + 2 >= |p| || DataStart(p) >= |p| || TotalLength(p) < DataStart(p) then None
    else Some(p[DataStart(p)..if TotalLength(p) <= |p| then TotalLength(p) else |p|])
  }

  /** mqtt_get_id; 0 when there is none. */
  method GetId(p: seq<byte>) returns (id: nat)
    ensures id == MessageId(p)
  {
    if p == [] { return 0; }
    var kind := Kind(p[0]);
    if kind == MSG_PUBLISH {
      var i := SkipLength(p);
      if i + 2 >= |p| { return 0; }
      i := i + 2 + Join16(p[i], p[i + 1]);
      if i > |p| || Qos(p[0]) == 0 || i + 2 > |p| { return 0; }
      return Join16(p[i], p[i + 1]);
    }
    if kind in ID_AT_TWO && |p| >= 4 && p[1] < 128 {
      return Join16(p[2], p[3]);
    }
    return 0;
  }

  const ID_AT_TWO := {MSG_PUBACK, MSG_PUBREC, MSG_PUBREL, MSG_PUBCOMP, MSG_SUBACK, MSG_UNSUBACK, MSG_SUBSCRIBE,
      MSG_UNSUBSCRIBE}

  function MessageId(p: seq<byte>): (id: nat) {
    if p == [] then 0
    else if Kind(p[0]) == MSG_PUBLISH then
      var i := AfterLength(p);
      if i + 2 >= |p| then 0
      else
        var j := i + 2 + Join16(p[i], p[i + 1]);
        if Qos(p[0]) == 0 || j + 2 > |p| then 0 else Join16(p[j], p[j + 1])
    else if Kind(p[0]) in ID_AT_TWO && |p| >= 4 && p[1] < 128 then Join16(p[2], p[3])
    else 0
  }

  // ---------- what was built reads back

  /** A header reads as what it claims, whatever follows. */
  lemma HeaderReads(kind: int, qos: int, retain: int, claimed: nat, body: seq<byte>)
    requires claimed < V.LIMIT
    ensures var p := Headed(kind, qos, retain, claimed, body);
            && FixedLength(p) == AfterLength(p) == 1 + |V.Encode(claimed)|
            && TotalLength(p) == 1 + |V.Encode(claimed)| + claimed
  {
    var p := Headed(kind, qos, retain, claimed, body);
    assert Tail(p) == V.Encode(claimed) + body;
    V.FourBytes(claimed);
    V.RoundTrip(claimed, body, 4);
    V.RoundTrip(claimed, body, |p|);
  }

  /**
   * A control packet states its own length if and only if no fragment length was left behind when it was begun,
   * or one that happens to fit.
   */
  lemma HonestExactly(kind: int, qos: int, stale: nat, body: seq<byte>)
    requires stale == 0 || GAP <= stale < V.LIMIT
    requires |body| < V.LIMIT
    ensures var p := Headed(kind, qos, 0, Claimed(stale, |body|), body);
            TotalLength(p) == |p| <==> stale == 0 || stale == GAP + |body|
  {
    HeaderReads(kind, qos, 0, Claimed(stale, |body|), body);
  }

  /** The flag bits of every packet type the client builds, and of a publish sent again, are the ones allowed. */
  lemma FlagsAreValid(kind: nat, qos: nat, retain: int)
    requires if kind == MSG_PUBLISH then qos <= 2
             else retain == 0
                  && qos == (if kind in {MSG_PUBREL, MSG_SUBSCRIBE, MSG_UNSUBSCRIBE} then 1 else 0) && 1 <= kind <= 14
    ensures var b := FirstByte(kind, 0, qos, retain);
            ValidHeader(b) && (kind == MSG_PUBLISH && qos > 0 ==> ValidHeader(WithDup(b)))
  {
    if kind == MSG_PUBLISH {
      FirstByteFields(kind, 0, qos, retain);
      WithDupFields(FirstByte(kind, 0, qos, retain));
    } else {
      ControlByte(kind, qos);
    }
  }

  lemma ControlByte(kind: nat, qos: nat)
    requires kind < 16 && qos < 4
    ensures var b := FirstByte(kind, 0, qos, 0); Kind(b) == kind && b % 16 == 2 * qos
  {
    PlainByte(kind, qos);
    Apart16(kind, qos * 2);
  }

  lemma PlainByte(kind: nat, qos: nat)
    requires kind < 16 && qos < 4
    ensures FirstByte(kind, 0, qos, 0) == kind * 16 + qos * 2
  {
  }

  /** A PUBLISH packet p of which the first n bytes were read, k of them payload: its parts read back. */
  lemma PublishReadsBack(topic: seq<byte>, payload: seq<byte>, qos: nat, retain: int, id: nat, p: seq<byte>,
                         n: nat, k: nat)
    requires topic != [] && |topic| < 0x1_0000 && id < 0x1_0000 && qos <= 2 && 4 + |topic| + |payload| < V.LIMIT
    requires p == Packet(MSG_PUBLISH, qos, retain, Header3(topic, qos, id) + payload)
    requires |payload| <= |p| && |p| - |payload| <= n <= |p| && k == n - (|p| - |payload|)
    ensures TotalLength(p[..n]) == |p| && p[|p| - |payload|..] == payload && p[n..] == payload[k..]
    ensures PublishTopic(p[..n]) == Some(topic)
    ensures PublishData(p[..n]) == if k == 0 then None else Some(payload[..k])
    ensures MessageId(p[..n]) == if qos > 0 then id else 0
  {
    var header := Header3(topic, qos, id);
    CutPacket(header, payload, qos, retain, n, p);
    PublishPartsRead(topic, payload[..k], qos, retain, id, |header + payload|, p[..n]);
  }

  /** A packet cut within its payload has the header of the whole. */
  lemma CutPacket(header: seq<byte>, payload: seq<byte>, qos: nat, retain: int, n: nat, p: seq<byte>)
    requires p == Packet(MSG_PUBLISH, qos, retain, header + payload)
    requires |payload| <= |p| && |p| - |payload| <= n <= |p|
    ensures var read := payload[..n - (|p| - |payload|)];
            p[..n] == Headed(MSG_PUBLISH, qos, retain, |header + payload|, header + read)
    ensures |payload| <= |p| && p[|p| - |payload|..] == payload
            && |p| == 1 + |V.Encode(|header + payload|)| + |header + payload|
    ensures p[n..] == payload[n - (|p| - |payload|)..]
  {
    HeadedPrefix(MSG_PUBLISH, qos, retain, header, payload, n - (|p| - |payload|));
    assert p[n..] == p[|p| - |payload|..][n - (|p| - |payload|)..];
  }

  lemma PublishPartsRead(topic: seq<byte>, read: seq<byte>, qos: nat, retain: int, id: nat, claimed: nat, q: seq<byte>)
    requires topic != [] && |topic| < 0x1_0000 && id < 0x1_0000 && qos <= 2
    requires |Header3(topic, qos, id)| + |read| <= claimed < V.LIMIT
    requires q == Headed(MSG_PUBLISH, qos, retain, claimed, Header3(topic, qos, id) + read)
    ensures TotalLength(q) == 1 + |V.Encode(claimed)| + claimed
    ensures PublishTopic(q) == Some(topic)
    ensures PublishData(q) == if read == [] then None else Some(read)
    ensures MessageId(q) == if qos > 0 then id else 0
  {
    var i := 1 + |V.Encode(claimed)|;
    PublishFields(topic, read, qos, retain, id, claimed, q, i);
    PartsAt(q, i, i + 2 + |topic|, topic, qos, id, read);
  }

  lemma PublishFields(topic: seq<byte>, read: seq<byte>, qos: nat, retain: int, id: nat, claimed: nat, q: seq<byte>,
                      i: nat)
    requires |topic| < 0x1_0000 && id < 0x1_0000 && qos <= 2
    requires |Header3(topic, qos, id)| + |read| <= claimed < V.LIMIT
    requires q == Headed(MSG_PUBLISH, qos, retain, claimed, Header3(topic, qos, id) + read)
    requires i == 1 + |V.Encode(claimed)|
    ensures q != [] && Kind(q[0]) == MSG_PUBLISH && Qos(q[0]) == qos
    ensures HeaderAt(q, i, topic, qos, id, read)
    ensures FixedLength(q) == AfterLength(q) == i && TotalLength(q) == i + claimed >= |q|
  {
    HeaderReads(MSG_PUBLISH, qos, retain, claimed, Header3(topic, qos, id) + read);
    FirstByteFields(MSG_PUBLISH, 0, qos, retain);
  }

  /** From i on, topic and id if any, and then the rest. */
  predicate HeaderAt(q: seq<byte>, i: nat, topic: seq<byte>, qos: nat, id: nat, read: seq<byte>)
    requires |topic| < 0x1_0000 && id < 0x1_0000
  {
    i <= |q| && q[i..] == Header3(topic, qos, id) + read
  }

  /** Topic length at i, id if any at j, and then the rest. */
  predicate FieldsAt(q: seq<byte>, i: nat, j: nat, topic: seq<byte>, qos: nat, id: nat, read: seq<byte>) {
    && j == i + 2 + |topic| <= |q| && Join16(q[i], q[i + 1]) == |topic| && q[i + 2..j] == topic
    && (qos > 0 ==> j + 2 <= |q| && Join16(q[j], q[j + 1]) == id && q[j + 2..] == read)
    && (qos == 0 ==> q[j..] == read)
  }

  /** Topic, id and what is after them, by position. */
  lemma HeaderFields(q: seq<byte>, i: nat, j: nat, topic: seq<byte>, qos: nat, id: nat, read: seq<byte>)
    requires |topic| < 0x1_0000 && id < 0x1_0000 && HeaderAt(q, i, topic, qos, id, read) && j == i + 2 + |topic|
    ensures FieldsAt(q, i, j, topic, qos, id, read)
  {
    assert q[i..] == U16(|topic|) + (topic + (IdBytes(qos, id) + read));
    NumberAt(q, i, |topic|, topic + (IdBytes(qos, id) + read));
    assert q[i + 2..][..|topic|] == topic && q[j..] == q[i + 2..][|topic|..] == IdBytes(qos, id) + read;
    if qos > 0 {
      NumberAt(q, j, id, read);
    }
  }

  lemma NumberAt(q: seq<byte>, i: nat, n: nat, rest: seq<byte>)
    requires n < 0x1_0000 && i <= |q| && q[i..] == U16(n) + rest
    ensures i + 2 <= |q| && Join16(q[i], q[i + 1]) == n && q[i + 2..] == rest
  {
    assert q[i] == q[i..][0] == n / 0x100 && q[i + 1] == q[i..][1] == n % 0x100;
    assert q[i + 2..] == q[i..][2..];
  }

  /** The parsers find what stands at those positions. */
  lemma PartsAt(q: seq<byte>, i: nat, j: nat, topic: seq<byte>, qos: nat, id: nat, read: seq<byte>)
    requires topic != [] && |topic| < 0x1_0000 && id < 0x1_0000 && q != [] && Kind(q[0]) == MSG_PUBLISH
            && Qos(q[0]) == qos
    requires HeaderAt(q, i, topic, qos, id, read) && j == i + 2 + |topic|
    requires FixedLength(q) == AfterLength(q) == i && TotalLength(q) >= |q|
    ensures PublishTopic(q) == Some(topic)
    ensures PublishData(q) == if read == [] then None else Some(read)
    ensures MessageId(q) == if qos > 0 then id else 0
  {
    HeaderFields(q, i, j, topic, qos, id, read);
    FieldsRead(q, i, j, topic, qos, id, read);
  }

  lemma FieldsRead(q: seq<byte>, i: nat, j: nat, topic: seq<byte>, qos: nat, id: nat, read: seq<byte>)
    requires topic != [] && |topic| < 0x1_0000 && q != [] && Kind(q[0]) == MSG_PUBLISH && Qos(q[0]) == qos
    requires FieldsAt(q, i, j, topic, qos, id, read)
    requires FixedLength(q) == AfterLength(q) == i && TotalLength(q) >= |q|
    ensures PublishTopic(q) == Some(topic)
    ensures PublishData(q) == if read == [] then None else Some(read)
    ensures MessageId(q) == if qos > 0 then id else 0
  {
    var start := j + if qos > 0 then 2 else 0;
    assert start <= |q| && q[start..] == read;
    assert FixedLength(q) + 2 < |q| && DataStart(q) == start;
    var end := if TotalLength(q) <= |q| then TotalLength(q) else |q|;
    assert end == |q| && q[start..end] == q[start..];
    assert |read| == |q| - start;
  }

  /**
   * mqtt_get_id finds the id of an ack or request if and only if its remaining length is spelt with one byte. For a
   * SUBACK that answers many topics it is not, and the SUBSCRIBE stays stored.
   */
  lemma IdReadsExactly(kind: nat, qos: nat, id: nat, rest: seq<byte>)
    requires kind in ID_AT_TWO && qos < 4 && 0 < id < 0x1_0000 && 2 + |rest| < V.LIMIT
    ensures var p := Packet(kind, qos, 0, U16(id) + rest);
            MessageId(p) == (if 2 + |rest| < 128 then id else 0)
  {
    var body := U16(id) + rest;
    var p := Packet(kind, qos, 0, body);
    FirstByteFields(kind, 0, qos, 0);
    V.EncodeStep(|body|);
    assert p[1] == V.Encode(|body|)[0];
    if |body| < 128 {
      assert p[2..] == body;
      assert p[2] == p[2..][0] && p[3] == p[2..][1];
    }
  }
}
