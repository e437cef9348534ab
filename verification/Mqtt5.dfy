/** mqtt5_msg.c: the builders of MQTT 5.0 packets. */
module Mqtt5 {
  import opened Bytes
  import opened Packets
  import opened Connection
  import opened Mqtt3
  import V = VarInt

  /**
   * The length of a property block goes into one reserved byte in front of it; when it needs more,
   * the block moves up, last byte first.
   */
  method UpdatePropertyLenValue(c: Connection, len: nat, offset: nat) returns (moved: int)
    requires c.buffer.Length < V.LIMIT
    requires GAP <= offset && offset + 1 + len == c.length <= c.buffer.Length + 1
    modifies c`length, c.buffer
    ensures moved == -1 <==> old(c.length) + |V.Encode(len)| - 1 > c.buffer.Length
    ensures moved == -1 ==> c.buffer[..] == old(c.buffer[..])
    ensures moved != -1 ==>
              && moved == |V.Encode(len)| - 1 && c.length == old(c.length) + moved <= c.buffer.Length
              && c.buffer[..c.length]
                 == old(c.buffer[..offset]) + V.Encode(len) + old(c.buffer[offset + 1..offset + 1 + len])
  {
    var encoded := new byte[4](_ => 0);
    var bytes := GenerateVariableLen(len, encoded);
    var shift := bytes - 1;
    c.length := c.length + shift;
    if c.length > c.buffer.Length { return -1; }
    InsertLen(c.buffer, offset, encoded[..bytes], len);
    return shift;
  }

  method InsertLen(buffer: array<byte>, offset: nat, lens: seq<byte>, len: nat)
    requires offset > 0 && |lens| > 0 && offset + |lens| + len <= buffer.Length
    modifies buffer
    ensures buffer[..offset + |lens| + len] == old(buffer[..offset]) + lens + old(buffer[offset + 1..offset + 1 + len])
  {
    ghost var head, block := buffer[..offset], buffer[offset + 1..offset + 1 + len];
    if |lens| > 1 {
      ShiftUp(buffer, offset + 1, len, |lens| - 1);
    }
    assert buffer[..offset] == head;
    PutLen(buffer, offset, lens, head, block);
  }

  method PutLen(buffer: array<byte>, offset: nat, lens: seq<byte>, ghost head: seq<byte>, ghost block: seq<byte>)
    requires offset + |lens| + |block| <= buffer.Length && buffer[..offset] == head
    requires buffer[offset + |lens|..offset + |lens| + |block|] == block
    modifies buffer
    ensures buffer[..offset + |lens| + |block|] == head + lens + block
  {
    ghost var tail := buffer[offset + |lens|..];
    assert tail[..|block|] == block;
    CopyInto(buffer, offset, lens);
    assert buffer[offset + |lens|..offset + |lens| + |block|] == tail[..|block|];
    ThreeParts(buffer[..], head, lens, block);
  }

  lemma ThreeParts(s: seq<byte>, a: seq<byte>, b: seq<byte>, c: seq<byte>)
    requires |a| + |b| + |c| <= |s|
    requires s[..|a|] == a && s[|a|..|a| + |b|] == b && s[|a| + |b|..|a| + |b| + |c|] == c
    ensures s[..|a| + |b| + |c|] == a + b + c
  {
    assert s[..|a| + |b| + |c|] == s[..|a|] + s[|a|..|a| + |b|] + s[|a| + |b|..|a| + |b| + |c|];
  }

  /** Moves len bytes up in place, the last one first. */
  method ShiftUp(buffer: array<byte>, start: nat, len: nat, shift: nat)
    requires 1 <= start && shift > 0 && start + len + shift <= buffer.Length
    modifies buffer
    ensures buffer[start + shift..start + len + shift] == old(buffer[start..start + len])
    ensures buffer[..start] == old(buffer[..start])
  {
    var from := start + len - 1;
    var i := 0;
    while i < len
      invariant 0 <= i <= len && from == start + len - 1 - i
      invariant forall k :: 0 <= k <= from ==> buffer[k] == old(buffer[k])
      invariant forall k :: from + shift < k < start + len + shift ==> buffer[k] == old(buffer[k - shift])
    {
      buffer[from + shift] := buffer[from];
      from := from - 1;
      i := i + 1;
    }
  }

  /** The bytes append_property adds: an identifier unless 0, a number of that width, the data if any. */
  function PropertyPart(id: byte, width: nat, data: Option<seq<byte>>, number: nat): (s: seq<byte>)
    ensures |s| == (if id != 0 then 1 else 0) + width + (if data.Some? then |data.value| else 0)
  {
    (if id != 0 then [id] else []) + BigEndian(number, width) + (if data.Some? then data.value else [])
  }

  method AppendProperty(c: Connection, id: byte, width: nat, data: Option<seq<byte>>, number: nat) returns (n: int)
    requires GAP <= c.length <= c.buffer.Length + 1 && width > 0 && (data.Some? ==> |data.value| == number)
    modifies c`length, c.buffer
    ensures n == -1 <==> old(c.length) + |PropertyPart(id, width, data, number)| > c.buffer.Length
    ensures n == -1 ==> c.length == old(c.length)
    ensures n != -1 ==> old(c.length) <= c.length == old(c.length) + n <= c.buffer.Length
                        && n == |PropertyPart(id, width, data, number)|
                        && c.Body() == old(c.Body()) + PropertyPart(id, width, data, number)
  {
    if c.length + width + (if data.Some? then |data.value| else 0) + (if id != 0 then 1 else 0) > c.buffer.Length {
      return -1;
    }
    var origin := c.length;
    if id != 0 {
      AppendBytes(c, [id]);
    }
    ghost var head := if id != 0 then [id] else [];
    assert c.Body() == old(c.Body()) + head;
    AppendNumber(c, number, width);
    assert c.Body() == old(c.Body()) + (head + BigEndian(number, width));
    if data.Some? {
      AppendBytes(c, data.value);
    }
    assert c.Body() == old(c.Body()) + PropertyPart(id, width, data, number);
    return c.length - origin;
  }

  method AppendNumber(c: Connection, number: nat, width: nat)
    requires GAP <= c.length && c.length + width <= c.buffer.Length
    modifies c`length, c.buffer
    ensures c.length == old(c.length) + width && c.Body() == old(c.Body()) + BigEndian(number, width)
  {
    ghost var all := BigEndian(number, width);
    var i := 1;
    while i <= width
      invariant 1 <= i <= width + 1 && c.length == old(c.length) + i - 1
      invariant c.Body() == old(c.Body()) + all[..i - 1]
    {
      assert all[..i] == all[..i - 1] + [all[i - 1]];
      AppendBytes(c, [number / Pow256(width - i) % 0x100]);
      i := i + 1;
    }
    assert all[..width] == all;
  }

  /** A length-prefixed string under a property identifier. */
  lemma StringPart(id: byte, s: seq<byte>)
    requires |s| < 0x1_0000
    ensures PropertyPart(id, 2, Some(s), |s|) == (if id != 0 then [id] else []) + Str(s)
  {
    BigEndian2(|s|);
  }

  /**
   * The message was base, of this length with the gap, and the block so far was added to it. A length one past the
   * end, which the unchecked reserved byte can leave, lets nothing be added.
   */
  ghost predicate Grown(c: Connection, start: nat, base: seq<byte>, block: seq<byte>)
    reads c, c.buffer
  {
    && GAP <= start <= c.buffer.Length + 1
    && if start <= c.buffer.Length
       then start + |block| == c.length <= c.buffer.Length && c.Body() == base + block
       else c.length == start
  }

  /** One property, when it is set. */
  method AddIf(c: Connection, given: bool, id: byte, width: nat, data: Option<seq<byte>>, number: nat, ghost start: nat,
               ghost base: seq<byte>, ghost block: seq<byte>, ghost part: seq<byte>) returns (ok: bool)
    requires Grown(c, start, base, block) && width > 0 && (data.Some? ==> |data.value| == number)
    requires part == if given then PropertyPart(id, width, data, number) else []
    modifies c`length, c.buffer
    ensures if ok then Grown(c, start, base, block + part) else start + |block + part| > c.buffer.Length
  {
    if !given {
      assert block + part == block;
      return true;
    }
    var n := AppendProperty(c, id, width, data, number);
    assert base + (block + part) == base + block + part;
    return n != -1;
  }

  /** The three properties that are numbers. */
  method AddNumbers(c: Connection, p: Properties, ghost start: nat, ghost base: seq<byte>) returns (ok: bool)
    requires Grown(c, start, base, []) && Sized(p)
    modifies c`length, c.buffer
    ensures var part := FormatBytes(p) + ExpiryBytes(p) + AliasBytes(p);
            if ok then Grown(c, start, base, part) else start + |part| > c.buffer.Length
  {
    ghost var part := FormatBytes(p);
    assert p.payloadFormat ==> PropertyPart(PAYLOAD_FORMAT, 1, None, 1) == part;
    assert [] + part == part;
    ok := AddIf(c, p.payloadFormat, PAYLOAD_FORMAT, 1, None, 1, start, base, [], part);
    if !ok { return; }
    assert p.expiry != 0 ==> PropertyPart(MESSAGE_EXPIRY, 4, None, p.expiry) == ExpiryBytes(p);
    ok := AddIf(c, p.expiry != 0, MESSAGE_EXPIRY, 4, None, p.expiry, start, base, part, ExpiryBytes(p));
    if !ok { return; }
    BigEndian2(p.topicAlias);
    assert p.topicAlias != 0 ==> PropertyPart(TOPIC_ALIAS, 2, None, p.topicAlias) == AliasBytes(p);
    ok := AddIf(c, p.topicAlias != 0, TOPIC_ALIAS, 2, None, p.topicAlias, start, base,
                part + ExpiryBytes(p), AliasBytes(p));
  }

  method AddResponseTopic(c: Connection, p: Properties, info: seq<byte>, ghost start: nat, ghost base: seq<byte>,
                          ghost block: seq<byte>) returns (ok: bool)
    requires Grown(c, start, base, block) && Sized(p) && InfoFits(p, info)
    modifies c`length, c.buffer
    ensures var part := ResponseBytes(p, info);
            if ok then Grown(c, start, base, block + part) else start + |block + part| > c.buffer.Length
  {
    if p.responseTopic.None? {
      assert block + ResponseBytes(p, info) == block;
      return true;
    }
    var text := if info == [] then p.responseTopic.value else JoinedTopic(p.responseTopic.value, info);
    StringPart(RESPONSE_TOPIC, text);
    ok := AddIf(c, true, RESPONSE_TOPIC, 2, Some(text), |text|, start, base, block, ResponseBytes(p, info));
  }

  method AddUserProperties(c: Connection, user: seq<(seq<byte>, seq<byte>)>, ghost start: nat, ghost base: seq<byte>,
                           ghost block: seq<byte>) returns (ok: bool)
    requires Grown(c, start, base, block)
    requires forall k :: 0 <= k < |user| ==> |user[k].0| < 0x1_0000 && |user[k].1| < 0x1_0000
    modifies c`length, c.buffer
    ensures if ok then Grown(c, start, base, block + UserBytes(user))
            else start + |block + UserBytes(user)| > c.buffer.Length
  {
    var k := 0;
    assert block + UserBytes(user[..0]) == block;
    while k < |user|
      invariant 0 <= k <= |user| && Grown(c, start, base, block + UserBytes(user[..k]))
    {
      UserBytesStep(user, k, block);
      ok := AddPair(c, user[k].0, user[k].1, start, base, block + UserBytes(user[..k]));
      if !ok { return; }
      k := k + 1;
    }
    assert user[..k] == user;
    return true;
  }

  lemma UserBytesStep(user: seq<(seq<byte>, seq<byte>)>, k: nat, block: seq<byte>)
    requires forall i :: 0 <= i < |user| ==> |user[i].0| < 0x1_0000 && |user[i].1| < 0x1_0000
    requires k < |user|
    ensures var part := [USER_PROPERTY] + Str(user[k].0) + Str(user[k].1);
            && block + UserBytes(user[..k + 1]) == block + UserBytes(user[..k]) + part
            && |block + UserBytes(user[..k]) + part| <= |block + UserBytes(user)|
  {
    assert user[..k + 1][..k] == user[..k];
    UserBytesGrow(user, k + 1);
  }

  method AddPair(c: Connection, key: seq<byte>, value: seq<byte>, ghost start: nat, ghost base: seq<byte>,
                 ghost block: seq<byte>) returns (ok: bool)
    requires Grown(c, start, base, block) && |key| < 0x1_0000 && |value| < 0x1_0000
    modifies c`length, c.buffer
    ensures var part := [USER_PROPERTY] + Str(key) + Str(value);
            if ok then Grown(c, start, base, block + part) else start + |block + part| > c.buffer.Length
  {
    StringPart(USER_PROPERTY, key);
    StringPart(0, value);
    ghost var part := [USER_PROPERTY] + Str(key);
    ok := AddIf(c, true, USER_PROPERTY, 2, Some(key), |key|, start, base, block, part);
    if !ok { return; }
    assert [] + Str(value) == Str(value);
    ok := AddIf(c, true, 0, 2, Some(value), |value|, start, base, block + part, Str(value));
    assert block + part + Str(value) == block + (part + Str(value));
  }

  lemma {:induction false} UserBytesGrow(user: seq<(seq<byte>, seq<byte>)>, k: nat)
    requires forall k :: 0 <= k < |user| ==> |user[k].0| < 0x1_0000 && |user[k].1| < 0x1_0000
    requires k <= |user|
    ensures |UserBytes(user[..k])| <= |UserBytes(user)|
    decreases |user| - k
  {
    if k < |user| {
      assert user[..k + 1][..k] == user[..k];
      UserBytesGrow(user, k + 1);
    } else {
      assert user[..k] == user;
    }
  }

  /** The whole property block, in the builder's order. */
  method AddProperties(c: Connection, p: Properties, info: seq<byte>, ghost start: nat, ghost base: seq<byte>)
    returns (ok: bool)
    requires Grown(c, start, base, []) && Sized(p) && InfoFits(p, info)
    modifies c`length, c.buffer
    ensures if ok then Grown(c, start, base, PropertyBytes(p, info))
            else start + |PropertyBytes(p, info)| > c.buffer.Length
  {
    ghost var block := FormatBytes(p) + ExpiryBytes(p) + AliasBytes(p);
    ok := AddNumbers(c, p, start, base);
    if !ok { return; }
    ok := AddResponseTopic(c, p, info, start, base, block);
    if !ok { return; }
    block := block + ResponseBytes(p, info);
    StringPart(CORRELATION, p.correlation);
    ok := AddIf(c, p.correlation != [], CORRELATION, 2, Some(p.correlation), |p.correlation|,
                start, base, block, CorrelationBytes(p));
    if !ok { return; }
    block := block + CorrelationBytes(p);
    ok := AddUserProperties(c, p.user, start, base, block);
    if !ok { return; }
    block := block + UserBytes(p.user);
    var text := if p.contentType.Some? then p.contentType.value else [];
    StringPart(CONTENT_TYPE, text);
    ok := AddIf(c, p.contentType.Some?, CONTENT_TYPE, 2, Some(text), |text|, start, base, block, ContentTypeBytes(p));
  }

  /** Reserves the length byte of a property block. Nothing checks that it fits. */
  method Reserve(c: Connection)
    requires GAP <= c.length <= c.buffer.Length
    modifies c`length
    ensures c.length == old(c.length) + 1
    ensures c.length <= c.buffer.Length ==> c.Body()[..c.length - GAP - 1] == old(c.Body())
    ensures Grown(c, c.length, if c.length <= c.buffer.Length then c.Body() else [], [])
  {
    c.length := c.length + 1;
  }

  /** Puts the length of the block in front of it. */
  method CloseBlock(c: Connection, offset: nat, ghost before: seq<byte>, ghost block: seq<byte>) returns (ok: bool)
    requires GAP <= offset == GAP + |before| <= c.buffer.Length < V.LIMIT
    requires offset < c.buffer.Length ==>
               c.length == offset + 1 + |block| <= c.buffer.Length
               && c.Body()[..|before|] == before && c.Body()[|before| + 1..] == block
    requires offset == c.buffer.Length ==> c.length == offset + 1
    modifies c`length, c.buffer
    ensures ok <==> offset + |V.Encode(|block|)| + |block| <= c.buffer.Length
    ensures ok ==> GAP <= c.length <= c.buffer.Length && c.Body() == before + V.Encode(|block|) + block
  {
    var len := c.length - offset - 1;
    var moved := UpdatePropertyLenValue(c, len, offset);
    if moved == -1 { return false; }
    assert |block| == len;
    var lens := V.Encode(len);
    assert c.Body() == c.buffer[..c.length][GAP..];
    return true;
  }

  function HeaderSize(topic: seq<byte>, qos: int, properties: seq<byte>): nat {
    2 + |topic| + (if qos > 0 then 2 else 0) + |V.Encode(|properties|)| + |properties|
  }

  function BlockOf(property: Option<Properties>, info: seq<byte>): seq<byte>
    requires property.Some? ==> Sized(property.value) && InfoFits(property.value, info)
  {
    if property.Some? then PropertyBytes(property.value, info) else []
  }

  predicate Accepts5(topic: seq<byte>, data: Data, qos: int, property: Option<Properties>, block: seq<byte>,
                     room: nat) {
    && (topic != [] || (property.Some? && property.value.topicAlias != 0))
    && !(data.Null? && data.len > 0)
    && GAP + HeaderSize(topic, qos, block) <= room
  }

  method MsgPublish5(c: Connection, topic: seq<byte>, data: Data, qos: nat, retain: int, property: Option<Properties>,
                     info: seq<byte>) returns (id: nat)
    requires Ready(c) && |topic| < 0x1_0000 && qos <= 2
    requires property.Some? ==> Sized(property.value) && InfoFits(property.value, info)
    requires GAP + HeaderSize(topic, qos, BlockOf(property, info)) + Length(data) < V.LIMIT
    modifies c, c.buffer
    ensures Ready(c) && id < 0x1_0000 && (qos == 0 ==> id == 0)
    ensures (c.length > 0) == Accepts5(topic, data, qos, property, BlockOf(property, info), c.buffer.Length)
    ensures c.length > 0 ==> (qos > 0 ==> id != 0)
    ensures c.length > 0 ==>
              Finished(c, Header5(topic, qos, id, BlockOf(property, info)), Content(data), qos, retain,
                       old(c.fragOffset))
    ensures c.length == 0 ==> c.fragTotal == old(c.fragTotal) && c.fragOffset == old(c.fragOffset)
    ensures if qos == 0 then c.lastMessageId == old(c.lastMessageId)
            else if c.length > 0 then c.DrewNext(old(c.lastMessageId), id)
            else c.DrewAtMostOne(old(c.lastMessageId))
  {
    var ok;
    ok, id := AppendHeader5(c, topic, data, qos, property, info);
    if !ok {
      c.FailMessage();
      return;
    }
    FinishPublish(c, Header5(topic, qos, id, BlockOf(property, info)), Content(data), qos, retain);
  }

  /** Topic, id and properties. */
  method AppendHeader5(c: Connection, topic: seq<byte>, data: Data, qos: nat, property: Option<Properties>,
                       info: seq<byte>)
    returns (ok: bool, id: nat)
    requires Ready(c) && |topic| < 0x1_0000 && qos <= 2
    requires property.Some? ==> Sized(property.value) && InfoFits(property.value, info)
    modifies c`length, c`lastMessageId, c.buffer
    ensures Ready(c) && id < 0x1_0000 && (qos == 0 ==> id == 0)
    ensures ok == Accepts5(topic, data, qos, property, BlockOf(property, info), c.buffer.Length)
    ensures ok ==> (qos > 0 ==> id != 0)
    ensures ok ==> GAP <= c.length <= c.buffer.Length && c.Body() == Header5(topic, qos, id, BlockOf(property, info))
    ensures if qos == 0 then c.lastMessageId == old(c.lastMessageId)
            else if ok then c.DrewNext(old(c.lastMessageId), id)
            else c.DrewAtMostOne(old(c.lastMessageId))
  {
    id := 0;
    c.InitMessage();
    if topic == [] && (property.None? || property.value.topicAlias == 0) { return false, 0; }
    ok, id := AppendTopicAndId(c, topic, data, qos);
    if ok {
      ok := AppendBlock(c, property, info, Str(topic) + IdBytes(qos, id));
    }
  }

  method AppendTopicAndId(c: Connection, topic: seq<byte>, data: Data, qos: nat) returns (ok: bool, id: nat)
    requires c.Valid() && |topic| < 0x1_0000 && qos <= 2 && c.length == GAP
    modifies c`length, c`lastMessageId, c.buffer
    ensures c.Valid() && id < 0x1_0000 && (qos == 0 ==> id == 0)
    ensures ok <==> !(data.Null? && data.len > 0)
                    && GAP + 2 + |topic| + (if qos > 0 then 2 else 0) <= c.buffer.Length
    ensures ok ==> (qos > 0 ==> id != 0)
    ensures ok ==> GAP <= c.length <= c.buffer.Length && c.Body() == Str(topic) + IdBytes(qos, id)
    ensures ok ==> c.length == GAP + 2 + |topic| + if qos > 0 then 2 else 0
    ensures if qos == 0 then c.lastMessageId == old(c.lastMessageId)
            else if ok then c.DrewNext(old(c.lastMessageId), id)
            else c.DrewAtMostOne(old(c.lastMessageId))
  {
    id := 0;
    StringPart(0, topic);
    var n := AppendProperty(c, 0, 2, Some(topic), |topic|);
    if n == -1 || (data.Null? && data.len > 0) { return false, 0; }
    if qos > 0 {
      id := c.AppendMessageId(0);
      if id == 0 { return false, 0; }
    }
    return true, id;
  }

  /** The property block with its length, reserved, filled and closed. */
  method AppendBlock(c: Connection, property: Option<Properties>, info: seq<byte>, ghost before: seq<byte>)
    returns (ok: bool)
    requires GAP <= c.length <= c.buffer.Length < V.LIMIT && c.Body() == before
    requires property.Some? ==> Sized(property.value) && InfoFits(property.value, info)
    modifies c`length, c.buffer
    ensures var block := BlockOf(property, info);
            && (ok <==> old(c.length) + |V.Encode(|block|)| + |block| <= c.buffer.Length)
            && (ok ==> GAP <= c.length <= c.buffer.Length && c.Body() == before + V.Encode(|block|) + block)
  {
    ghost var block := BlockOf(property, info);
    var offset := c.length;
    Reserve(c);
    ghost var base := if c.length <= c.buffer.Length then c.Body() else [];
    if property.Some? {
      ok := AddProperties(c, property.value, info, offset + 1, base);
      if !ok { return; }
    }
    ok := CloseBlock(c, offset, before, block);
  }

  /** PUBACK, PUBREC, PUBREL, PUBCOMP: id, reason code 0, no properties. */
  method MsgAck5(c: Connection, kind: nat, messageId: nat) returns (id: nat)
    requires Ready(c) && MSG_PUBACK <= kind <= MSG_PUBCOMP && messageId < 0x1_0000
    modifies c, c.buffer
    ensures Ready(c) && 1 <= id < 0x1_0000 && (messageId != 0 ==> id == messageId)
    ensures Holds(c, kind, if kind == MSG_PUBREL then 1 else 0, old(c.fragTotal), U16(id) + [0, 0])
    ensures c.fragTotal == old(c.fragTotal) && Lowers(c, old(c.fragOffset), 4)
    ensures messageId != 0 ==> c.lastMessageId == old(c.lastMessageId)
  {
    c.InitMessage();
    id := c.AppendMessageId(messageId);
    AppendBytes(c, [0]);
    var ok := AppendBlock(c, None, [], U16(id) + [0]);
    assert c.Body() == U16(id) + [0, 0];
    Finish(c, kind, if kind == MSG_PUBREL then 1 else 0);
  }

  method MsgDisconnect5(c: Connection)
    requires Ready(c)
    modifies c, c.buffer
    ensures Ready(c) && Holds(c, MSG_DISCONNECT, 0, old(c.fragTotal), [0, 0])
    ensures c.fragTotal == old(c.fragTotal) && Lowers(c, old(c.fragOffset), 2)
    ensures c.lastMessageId == old(c.lastMessageId)
  {
    c.InitMessage();
    AppendBytes(c, [0]);
    var ok := AppendBlock(c, None, [], [0]);
    assert c.Body() == [0, 0];
    Finish(c, MSG_DISCONNECT, 0);
  }

  method MsgSubscribe5(c: Connection, list: seq<Topic>) returns (id: nat)
    requires Ready(c) && GoodTopics(list)
    modifies c, c.buffer
    ensures Ready(c) && 1 <= id < 0x1_0000
    ensures c.length > 0 <==> (forall k :: 0 <= k < |list| ==> list[k].filter != [])
                              && GAP + 3 + |TopicBytes(list)| <= c.buffer.Length
    ensures c.length > 0 ==> Holds(c, MSG_SUBSCRIBE, 1, old(c.fragTotal), U16(id) + [0] + TopicBytes(list))
    ensures c.fragTotal == old(c.fragTotal) && c.DrewNext(old(c.lastMessageId), id)
    ensures if c.length > 0 then Lowers(c, old(c.fragOffset), 3 + |TopicBytes(list)|)
            else c.fragOffset == old(c.fragOffset)
  {
    c.InitMessage();
    id := c.AppendMessageId(0);
    var ok := AppendBlock(c, None, [], U16(id));
    assert c.Body() == U16(id) + [0];
    ok := AppendTopics(c, list);
    if !ok {
      c.FailMessage();
      return;
    }
    Finish(c, MSG_SUBSCRIBE, 1);
  }

  method MsgUnsubscribe5(c: Connection, topic: seq<byte>) returns (id: nat)
    requires Ready(c) && |topic| < 0x1_0000
    modifies c, c.buffer
    ensures Ready(c) && id < 0x1_0000
    ensures c.length > 0 <==> topic != [] && GAP + 5 + |topic| <= c.buffer.Length
    ensures c.length > 0 ==> id != 0 && Holds(c, MSG_UNSUBSCRIBE, 1, old(c.fragTotal), U16(id) + [0] + Str(topic))
    ensures c.fragTotal == old(c.fragTotal) && Lowers(c, old(c.fragOffset), 5 + |topic|)
    ensures if c.length > 0 then c.DrewNext(old(c.lastMessageId), id) else c.DrewAtMostOne(old(c.lastMessageId))
  {
    id := 0;
    c.InitMessage();
    if topic == [] {
      c.FailMessage();
      return;
    }
    id := c.AppendMessageId(0);
    var ok := AppendBlock(c, None, [], U16(id));
    StringPart(0, topic);
    var n := AppendProperty(c, 0, 2, Some(topic), |topic|);
    if n == -1 {
      c.FailMessage();
      return;
    }
    assert c.Body() == U16(id) + [0] + Str(topic);
    Finish(c, MSG_UNSUBSCRIBE, 1);
  }
}
