/** The byte layout of the packets the client builds: sections 2 and 3 of MQTT 5.0 and of MQTT 3.1.1. */
module Packets {
  import opened Bytes
  import V = VarInt

  datatype Option<+T> = None | Some(value: T)

  const GAP := 5

  /** A packet whose header claims a remaining length of its own. */
  function Headed(kind: int, qos: int, retain: int, remaining: nat, body: seq<byte>): (s: seq<byte>) {
    [FirstByte(kind, 0, qos, retain)] + V.Encode(remaining) + body
  }

  function Packet(kind: int, qos: int, retain: int, body: seq<byte>): seq<byte> {
    Headed(kind, qos, retain, |body|, body)
  }

  function IdBytes(qos: int, id: nat): seq<byte>
    requires id < 0x1_0000
  {
    if qos > 0 then U16(id) else []
  }

  /** Everything of a PUBLISH between the fixed header and the payload, MQTT 3.1.1. */
  function Header3(topic: seq<byte>, qos: int, id: nat): seq<byte>
    requires |topic| < 0x1_0000 && id < 0x1_0000
  {
    Str(topic) + IdBytes(qos, id)
  }

  // ---------- SUBSCRIBE

  datatype Topic = Topic(filter: seq<byte>, qos: nat)

  predicate GoodTopics(list: seq<Topic>) {
    forall k :: 0 <= k < |list| ==> |list[k].filter| < 0x1_0000 && list[k].qos <= 2
  }

  function TopicBytes(list: seq<Topic>): (s: seq<byte>)
    requires GoodTopics(list)
  {
    if list == [] then []
    else TopicBytes(list[..|list| - 1]) + (Str(list[|list| - 1].filter) + [list[|list| - 1].qos])
  }

  lemma {:induction false} TopicBytesGrow(list: seq<Topic>, k: nat)
    requires GoodTopics(list) && k <= |list|
    ensures |TopicBytes(list[..k])| <= |TopicBytes(list)|
    decreases |list| - k
  {
    if k < |list| {
      assert list[..k + 1][..k] == list[..k];
      TopicBytesGrow(list, k + 1);
    } else {
      assert list[..k] == list;
    }
  }

  // ---------- PUBLISH properties, section 3.3.2.3 of MQTT 5.0

  datatype Properties = Properties(
    payloadFormat: bool,
    expiry: nat,
    topicAlias: nat,
    responseTopic: Option<seq<byte>>,
    correlation: seq<byte>,
    user: seq<(seq<byte>, seq<byte>)>,
    contentType: Option<seq<byte>>)

  const PAYLOAD_FORMAT: byte := 0x01
  const MESSAGE_EXPIRY: byte := 0x02
  const CONTENT_TYPE: byte := 0x03
  const RESPONSE_TOPIC: byte := 0x08
  const CORRELATION: byte := 0x09
  const SUBSCRIPTION_ID: byte := 0x0B
  const REASON_STRING: byte := 0x1F
  const TOPIC_ALIAS: byte := 0x23
  const USER_PROPERTY: byte := 0x26

  /** The integer and string types of the C structure. */
  predicate Sized(p: Properties) {
    && p.expiry < 0x1_0000_0000 && p.topicAlias < 0x1_0000 && |p.correlation| < 0x1_0000
    && (p.responseTopic.Some? ==> |p.responseTopic.value| < 0x1_0000)
    && (p.contentType.Some? ==> |p.contentType.value| < 0x1_0000)
    && (forall k :: 0 <= k < |p.user| ==> |p.user[k].0| < 0x1_0000 && |p.user[k].1| < 0x1_0000)
  }

  function Pow256(k: nat): (p: nat)
    ensures p > 0
  {
    if k == 0 then 1 else 0x100 * Pow256(k - 1)
  }

  /** The low w bytes of n, most significant first. */
  function BigEndian(n: nat, w: nat): (s: seq<byte>)
    ensures |s| == w
  {
    seq(w, j requires 0 <= j < w => n / Pow256(w - 1 - j) % 0x100)
  }

  lemma BigEndian2(n: nat)
    requires n < 0x1_0000
    ensures BigEndian(n, 2) == U16(n)
  {
    assert Pow256(1) == 0x100 * Pow256(0);
  }

  function UserBytes(user: seq<(seq<byte>, seq<byte>)>): seq<byte>
    requires forall k :: 0 <= k < |user| ==> |user[k].0| < 0x1_0000 && |user[k].1| < 0x1_0000
  {
    if user == [] then []
    else UserBytes(user[..|user| - 1]) + ([USER_PROPERTY] + Str(user[|user| - 1].0) + Str(user[|user| - 1].1))
  }

  /** The text the program makes of a response topic and the server's response information. */
  function JoinedTopic(topic: seq<byte>, info: seq<byte>): (s: seq<byte>)
    ensures |s| == |topic| + |info| + 1
  {
    (topic + ['/' as int] + info)[..|topic| + |info|] + [0]
  }

  function ResponseTopicBytes(topic: seq<byte>, info: seq<byte>): seq<byte>
    requires |topic| + |info| + 1 < 0x1_0000
  {
    [RESPONSE_TOPIC] + Str(if info == [] then topic else JoinedTopic(topic, info))
  }

  /** The 16-bit size computed for the joined topic does not wrap. */
  predicate InfoFits(p: Properties, info: seq<byte>) {
    p.responseTopic.Some? ==> |p.responseTopic.value| + |info| + 1 < 0x1_0000
  }

  function FormatBytes(p: Properties): seq<byte> {
    if p.payloadFormat then [PAYLOAD_FORMAT, 1] else []
  }

  function ExpiryBytes(p: Properties): seq<byte> {
    if p.expiry != 0 then [MESSAGE_EXPIRY] + BigEndian(p.expiry, 4) else []
  }

  function AliasBytes(p: Properties): seq<byte>
    requires Sized(p)
  {
    if p.topicAlias != 0 then [TOPIC_ALIAS] + U16(p.topicAlias) else []
  }

  function ResponseBytes(p: Properties, info: seq<byte>): seq<byte>
    requires Sized(p) && InfoFits(p, info)
  {
    if p.responseTopic.Some? then ResponseTopicBytes(p.responseTopic.value, info) else []
  }

  function CorrelationBytes(p: Properties): seq<byte>
    requires Sized(p)
  {
    if p.correlation != [] then [CORRELATION] + Str(p.correlation) else []
  }

  function ContentTypeBytes(p: Properties): seq<byte>
    requires Sized(p)
  {
    if p.contentType.Some? then [CONTENT_TYPE] + Str(p.contentType.value) else []
  }

  /** The property block, in the order the builder writes it. */
  function PropertyBytes(p: Properties, info: seq<byte>): seq<byte>
    requires Sized(p) && InfoFits(p, info)
  {
    FormatBytes(p) + ExpiryBytes(p) + AliasBytes(p) + ResponseBytes(p, info) + CorrelationBytes(p)
    + UserBytes(p.user) + ContentTypeBytes(p)
  }

  function Header5(topic: seq<byte>, qos: int, id: nat, properties: seq<byte>): seq<byte>
    requires |topic| < 0x1_0000 && id < 0x1_0000
  {
    Str(topic) + IdBytes(qos, id) + V.Encode(|properties|) + properties
  }
}
