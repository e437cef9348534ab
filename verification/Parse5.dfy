/** mqtt5_msg.c: the parsers of MQTT 5.0 PUBLISH packets. */
module Parse5 {
  import opened Bytes
  import opened Packets
  import opened Parse3
  import V = VarInt

  const MAX_STRING := 16384

  // ---------- variable byte integers

  /** Four bytes and still no end. */
  predicate Endless(s: seq<byte>) {
    |s| >= 4 && s[0] >= 128 && s[1] >= 128 && s[2] >= 128 && s[3] >= 128
  }

  function LengthBytes(s: seq<byte>): (n: nat) {
    if Endless(s) then 0 else V.Span(s, 4)
  }

  function LengthValue(s: seq<byte>): (n: nat) {
    if Endless(s) then 0 else V.Value(s, 4)
  }

  /** get_variable_len: an integer without an end counts as 0, spelt with no bytes. */
  method GetVariableLen(buffer: seq<byte>, offset: nat, end: nat) returns (len: nat, bytes: nat)
    requires offset <= end <= |buffer|
    ensures len == LengthValue(buffer[offset..end]) && bytes == LengthBytes(buffer[offset..end])
  {
    ghost var s := buffer[offset..end];
    ghost var rest := s;
    var i, scale := offset, 1;
    len := 0;
    while i < end && i - offset < 4
      invariant offset <= i <= end && i - offset <= 4 && scale > 0 && rest == s[i - offset..]
      invariant forall k :: 0 <= k < i - offset ==> s[k] >= 128
      invariant len + Scaled(scale, V.Value(rest, 4 - (i - offset))) == V.Value(s, 4)
      invariant i - offset + V.Span(rest, 4 - (i - offset)) == V.Span(s, 4)
    {
      ValueStep(scale, rest, 4 - (i - offset));
      len := len + Scaled(scale, buffer[i] % 128);
      if buffer[i] < 128 {
        i := i + 1;
        break;
      }
      rest := rest[1..];
      scale := scale * 128;
      i := i + 1;
    }
    if i - offset == 4 && buffer[i - 1] >= 128 {
      assert buffer[i - 1] == s[3];
      return 0, 0;
    }
    bytes := i - offset;
    assert i - offset == 4 ==> buffer[i - 1] == s[3];
  }

  /** What was encoded is decoded, if it is below 2^28. */
  lemma LengthReads(n: nat, rest: seq<byte>)
    requires n < V.LIMIT
    ensures LengthValue(V.Encode(n) + rest) == n && LengthBytes(V.Encode(n) + rest) == |V.Encode(n)|
  {
    V.FourBytes(n);
    V.RoundTrip(n, rest, 4);
    var k := |V.Encode(n)| - 1;
    assert (V.Encode(n) + rest)[k] == V.Encode(n)[k] < 128;
  }

  // ---------- the property block

  datatype Received = Received(
    format: nat,
    expiry: nat,
    alias: nat,
    responseTopic: Option<seq<byte>>,
    correlation: Option<seq<byte>>,
    subscription: nat,
    contentType: Option<seq<byte>>,
    user: seq<(seq<byte>, seq<byte>)>)

  const NOTHING := Received(0, 0, 0, None, None, 0, None, [])

  /** Outside: the program would read beyond what it received; nothing is said about what it does then. */
  datatype Outcome = Rejected | Outside | Parsed(r: Received, at: nat)

  /** mqtt5_property_has_bytes. */
  predicate Has(o: nat, needed: nat, len: nat) {
    o <= len && needed <= len - o
  }

  datatype Text = TooLong | Missing | Text(bytes: seq<byte>)

  /** A string whose length is checked against the block and the maximum. */
  function TextAt(s: seq<byte>, len: nat, o: nat): (t: Text) {
    if !Has(o, 2, len) then TooLong
    else if o + 2 > |s| then Missing
    else
      var n := Join16(s[o], s[o + 1]);
      if n > MAX_STRING || !Has(o + 2, n, len) then TooLong
      else if o + 2 + n > |s| then Missing
      else Text(s[o + 2..o + 2 + n])
  }

  /** A string whose length is checked against nothing. */
  function FreeTextAt(s: seq<byte>, o: nat): (t: Text) {
    if o + 2 > |s| then Missing
    else
      var n := Join16(s[o], s[o + 1]);
      if o + 2 + n > |s| || o + 2 + n >= 0x1_0000 then Missing else Text(s[o + 2..o + 2 + n])
  }

  function Failure(t: Text): Outcome {
    if t.TooLong? then Rejected else Outside
  }

  function UserAt(s: seq<byte>, len: nat, o: nat, r: Received): Outcome {
    var key := TextAt(s, len, o);
    if !key.Text? then Failure(key)
    else
      var value := TextAt(s, len, o + 2 + |key.bytes|);
      if !value.Text? then Failure(value)
      else Parsed(r.(user := r.user + [(key.bytes, value.bytes)]), o + 4 + |key.bytes| + |value.bytes|)
  }

  /** The value of one property, after its identifier. */
  function ValueAt(s: seq<byte>, len: nat, id: byte, o: nat, r: Received): Outcome {
    if id == PAYLOAD_FORMAT then
      if !Has(o, 1, len) then Rejected else if o + 1 > |s| then Outside else Parsed(r.(format := s[o]), o + 1)
    else if id == MESSAGE_EXPIRY then
      if !Has(o, 4, len) then Rejected
      else if o + 4 > |s| then Outside
      else Parsed(r.(expiry := 0x1_0000 * Join16(s[o], s[o + 1]) + Join16(s[o + 2], s[o + 3])), o + 4)
    else if id == TOPIC_ALIAS then
      if !Has(o, 2, len) then Rejected
      else if o + 2 > |s| then Outside
      else Parsed(r.(alias := Join16(s[o], s[o + 1])), o + 2)
    else if id == RESPONSE_TOPIC then
      var t := TextAt(s, len, o);
      if !t.Text? then Failure(t) else Parsed(r.(responseTopic := Some(t.bytes)), o + 2 + |t.bytes|)
    else if id == CORRELATION then
      var t := FreeTextAt(s, o);
      if !t.Text? then Failure(t) else Parsed(r.(correlation := Some(t.bytes)), o + 2 + |t.bytes|)
    else if id == SUBSCRIPTION_ID then
      if len > |s| || o > len then Outside
      else Parsed(r.(subscription := LengthValue(s[o..len])), o + LengthBytes(s[o..len]))
    else if id == CONTENT_TYPE then
      var t := FreeTextAt(s, o);
      if !t.Text? then Failure(t) else Parsed(r.(contentType := Some(t.bytes)), o + 2 + |t.bytes|)
    else if id == USER_PROPERTY then UserAt(s, len, o, r)
    else if id == REASON_STRING then
      var t := TextAt(s, len, o);
      if !t.Text? then Failure(t) else Parsed(r, o + 2 + |t.bytes|)
    else Rejected
  }

  function OneProperty(s: seq<byte>, len: nat, o: nat, r: Received): Outcome {
    if o >= |s| then Outside else ValueAt(s, len, s[o], o + 1, r)
  }

  lemma ValueMovesOn(s: seq<byte>, len: nat, id: byte, o: nat, r: Received)
    ensures ValueAt(s, len, id, o, r).Parsed? ==> ValueAt(s, len, id, o, r).at >= o
  {
  }

  function PropertiesFrom(s: seq<byte>, len: nat, o: nat, r: Received): Outcome
    decreases len - o
  {
    if o >= len then Parsed(r, o)
    else
      var one := OneProperty(s, len, o, r);
      if !one.Parsed? then one
      else
        ValueMovesOn(s, len, s[o], o + 1, r);
        PropertiesFrom(s, len, one.at, one.r)
  }

  /** The loop of mqtt5_get_publish_property_payload. */
  method ParseProperties(s: seq<byte>, len: nat) returns (out: Outcome)
    ensures out == PropertiesFrom(s, len, 0, NOTHING)
  {
    var o, r := 0, NOTHING;
    while o < len
      invariant PropertiesFrom(s, len, o, r) == PropertiesFrom(s, len, 0, NOTHING)
      decreases len - o
    {
      var one := OneProperty(s, len, o, r);
      if !one.Parsed? { return one; }
      ValueMovesOn(s, len, s[o], o + 1, r);
      o, r := one.at, one.r;
    }
    return Parsed(r, o);
  }

  // ---------- PUBLISH

  /** Null: the parser gave up. Beyond: it would read outside what was received. */
  datatype Publish = Null | Beyond | Message(topic: seq<byte>, properties: Received, payload: seq<byte>)

  /** Where the topic length stands. */
  function TopicAt(p: seq<byte>): (n: nat)
    requires p != []
  {
    1 + LengthBytes(p[1..])
  }

  function TopicEnd(p: seq<byte>): (n: nat)
    requires p != [] && TopicAt(p) + 2 <= |p|
  {
    TopicAt(p) + 2 + Join16(p[TopicAt(p)], p[TopicAt(p) + 1])
  }

  /** Where the length of the property block stands. */
  function BlockAt(p: seq<byte>): (n: nat)
    requires p != [] && TopicAt(p) + 2 <= |p|
  {
    TopicEnd(p) + if Qos(p[0]) > 0 then 2 else 0
  }

  function PropertiesAt(p: seq<byte>): (n: nat)
    requires p != [] && TopicAt(p) + 2 <= |p| && BlockAt(p) <= |p|
    ensures n <= |p|
  {
    BlockAt(p) + LengthBytes(p[BlockAt(p)..])
  }

  /** The length of the block is kept in 16 bits. */
  function BlockLength(p: seq<byte>): (n: nat)
    requires p != [] && TopicAt(p) + 2 <= |p| && BlockAt(p) <= |p|
  {
    LengthValue(p[BlockAt(p)..]) % 0x1_0000
  }

  function Payload(p: seq<byte>, topic: seq<byte>, start: nat, out: Outcome, total: nat): Publish {
    if out.Rejected? then Null
    else if out.Outside? then Beyond
    else
      var end := if total <= |p| then total else |p|;
      if start + out.at > end then Beyond else Message(topic, out.r, p[start + out.at..end])
  }

  /** mqtt5_get_publish_property_payload on the bytes received. Its two loops are GetVariableLen and ParseProperties. */
  function PublishIn(p: seq<byte>): Publish
    requires p != []
  {
    if TopicAt(p) + 2 > |p| then Beyond
    else if BlockAt(p) >= |p| then Null
    else
      Payload(p, p[TopicAt(p) + 2..TopicEnd(p)], PropertiesAt(p),
              PropertiesFrom(p[PropertiesAt(p)..], BlockLength(p), 0, NOTHING), TopicAt(p) + LengthValue(p[1..]))
  }

  // ---------- what was built reads back

  /** What a receiver sees of the properties that were set. */
  function Seen(p: Properties, info: seq<byte>): Received {
    Received(if p.payloadFormat then 1 else 0, p.expiry, p.topicAlias,
             if p.responseTopic.None? then None
             else Some(if info == [] then p.responseTopic.value else JoinedTopic(p.responseTopic.value, info)),
             if p.correlation == [] then None else Some(p.correlation), 0, p.contentType, p.user)
  }

  /** What the receiver can tell of the properties that were set. */
  function AsSet(r: Received): Properties {
    Properties(r.format == 1, r.expiry, r.alias, r.responseTopic,
               if r.correlation.None? then [] else r.correlation.value, r.user, r.contentType)
  }

  /** The strings the parser checks are no longer than it accepts. */
  predicate ShortStrings(p: Properties, info: seq<byte>) {
    ShortResponse(p, info) && ShortPairs(p.user)
  }

  predicate ShortResponse(p: Properties, info: seq<byte>) {
    p.responseTopic.Some? ==> |p.responseTopic.value| + (if info == [] then 0 else |info| + 1) <= MAX_STRING
  }

  predicate ShortPairs(user: seq<(seq<byte>, seq<byte>)>) {
    forall k :: 0 <= k < |user| ==> |user[k].0| <= MAX_STRING && |user[k].1| <= MAX_STRING
  }

  /** part stands in the block at o. */
  predicate Stands(s: seq<byte>, len: nat, o: nat, part: seq<byte>) {
    o + |part| <= len <= |s| && len < 0x1_0000 && s[o..o + |part|] == part
  }

  lemma Byte(s: seq<byte>, len: nat, o: nat, part: seq<byte>, k: nat)
    requires Stands(s, len, o, part) && k < |part|
    ensures s[o + k] == part[k]
  {
    assert s[o..o + |part|][k] == s[o + k];
  }

  lemma TextReads(s: seq<byte>, len: nat, o: nat, t: seq<byte>)
    requires |t| < 0x1_0000 && Stands(s, len, o, Str(t))
    ensures TextAt(s, len, o) == if |t| <= MAX_STRING then Text(t) else TooLong
    ensures FreeTextAt(s, o) == Text(t)
  {
    Byte(s, len, o, Str(t), 0);
    Byte(s, len, o, Str(t), 1);
    assert s[o + 2..o + 2 + |t|] == s[o..o + |Str(t)|][2..];
  }

  lemma Behind(s: seq<byte>, len: nat, o: nat, a: seq<byte>, b: seq<byte>)
    requires Stands(s, len, o, a + b)
    ensures Stands(s, len, o, a) && Stands(s, len, o + |a|, b)
  {
    assert s[o..o + |a|] == s[o..o + |a + b|][..|a|];
    assert s[o + |a|..o + |a| + |b|] == s[o..o + |a + b|][|a|..];
  }

  /** Reading on from o with r is reading on from o2 with r2. */
  predicate LeadsTo(s: seq<byte>, len: nat, o: nat, r: Received, o2: nat, r2: Received) {
    PropertiesFrom(s, len, o, r) == PropertiesFrom(s, len, o2, r2)
  }

  lemma FormatReads(s: seq<byte>, len: nat, o: nat, r: Received, p: Properties, o2: nat, r2: Received)
    requires Stands(s, len, o, FormatBytes(p)) && r.format == 0
    requires o2 == o + |FormatBytes(p)| && r2 == r.(format := if p.payloadFormat then 1 else 0)
    ensures LeadsTo(s, len, o, r, o2, r2)
  {
    if p.payloadFormat {
      Byte(s, len, o, FormatBytes(p), 0);
      Byte(s, len, o, FormatBytes(p), 1);
    } else {
      assert r2 == r;
    }
  }

  lemma ExpiryReads(s: seq<byte>, len: nat, o: nat, r: Received, p: Properties, o2: nat, r2: Received)
    requires Stands(s, len, o, ExpiryBytes(p)) && r.expiry == 0 && p.expiry < 0x1_0000_0000
    requires o2 == o + |ExpiryBytes(p)| && r2 == r.(expiry := p.expiry)
    ensures LeadsTo(s, len, o, r, o2, r2)
  {
    if p.expiry != 0 {
      var part := ExpiryBytes(p);
      Byte(s, len, o, part, 0);
      Byte(s, len, o, part, 1);
      Byte(s, len, o, part, 2);
      Byte(s, len, o, part, 3);
      Byte(s, len, o, part, 4);
      FourBytesRead(p.expiry);
    } else {
      assert r2 == r;
    }
  }

  lemma FourBytesRead(n: nat)
    requires n < 0x1_0000_0000
    ensures var b := BigEndian(n, 4); 0x1_0000 * Join16(b[0], b[1]) + Join16(b[2], b[3]) == n
  {
    var b := BigEndian(n, 4);
    Powers();
    assert b[0] == n / 0x100_0000 % 0x100 && b[1] == n / 0x1_0000 % 0x100 && b[2] == n / 0x100 % 0x100;
    assert b[3] == n / 1 % 0x100 == n % 0x100;
    DigitsSum(n);
  }

  lemma DigitsSum(n: nat)
    requires n < 0x1_0000_0000
    ensures 0x100_0000 * (n / 0x100_0000 % 0x100) + 0x1_0000 * (n / 0x1_0000 % 0x100) + 0x100 * (n / 0x100 % 0x100)
            + n % 0x100 == n
  {
    var q1 := n / 0x100;
    var q2 := q1 / 0x100;
    var q3 := q2 / 0x100;
    DividedTwice(n);
    DividedTwice(q1);
    assert n / 0x1_0000 == q2 && n / 0x100_0000 == q3;
    assert n == 0x100 * q1 + n % 0x100;
    assert q1 == 0x100 * q2 + q1 % 0x100;
    assert q2 == 0x100 * q3 + q2 % 0x100;
    assert q3 < 0x100;
  }

  lemma Powers()
    ensures Pow256(0) == 1 && Pow256(1) == 0x100 && Pow256(2) == 0x1_0000 && Pow256(3) == 0x100_0000
  {
    assert Pow256(1) == 0x100 * Pow256(0);
    assert Pow256(2) == 0x100 * Pow256(1);
    assert Pow256(3) == 0x100 * Pow256(2);
  }

  lemma DividedTwice(n: nat)
    ensures n / 0x100 / 0x100 == n / 0x1_0000
    ensures n / 0x100 / 0x1_0000 == n / 0x100_0000
  {
  }

  lemma AliasReads(s: seq<byte>, len: nat, o: nat, r: Received, p: Properties, o2: nat, r2: Received)
    requires Sized(p) && Stands(s, len, o, AliasBytes(p)) && r.alias == 0
    requires o2 == o + |AliasBytes(p)| && r2 == r.(alias := p.topicAlias)
    ensures LeadsTo(s, len, o, r, o2, r2)
  {
    if p.topicAlias != 0 {
      Byte(s, len, o, AliasBytes(p), 0);
      Byte(s, len, o, AliasBytes(p), 1);
      Byte(s, len, o, AliasBytes(p), 2);
    } else {
      assert r2 == r;
    }
  }

  /** An identifier and a string. */
  lemma NamedTextReads(s: seq<byte>, len: nat, o: nat, id: byte, t: seq<byte>)
    requires |t| < 0x1_0000 && Stands(s, len, o, [id] + Str(t))
    ensures s[o] == id && FreeTextAt(s, o + 1) == Text(t)
    ensures TextAt(s, len, o + 1) == if |t| <= MAX_STRING then Text(t) else TooLong
  {
    Behind(s, len, o, [id], Str(t));
    Byte(s, len, o, [id], 0);
    TextReads(s, len, o + 1, t);
  }

  lemma ResponseReads(s: seq<byte>, len: nat, o: nat, r: Received, p: Properties, info: seq<byte>, o2: nat,
                      r2: Received)
    requires Sized(p) && InfoFits(p, info) && ShortResponse(p, info)
    requires Stands(s, len, o, ResponseBytes(p, info)) && r.responseTopic == None
    requires o2 == o + |ResponseBytes(p, info)| && r2 == r.(responseTopic := Seen(p, info).responseTopic)
    ensures LeadsTo(s, len, o, r, o2, r2)
  {
    if p.responseTopic.Some? {
      var t := Seen(p, info).responseTopic.value;
      NamedTextReads(s, len, o, RESPONSE_TOPIC, t);
      assert OneProperty(s, len, o, r) == Parsed(r.(responseTopic := Some(t)), o + 3 + |t|);
      OneMore(s, len, o, r, o2, r2);
    } else {
      assert r2 == r;
    }
  }

  lemma CorrelationReads(s: seq<byte>, len: nat, o: nat, r: Received, p: Properties, o2: nat, r2: Received)
    requires Sized(p) && Stands(s, len, o, CorrelationBytes(p)) && r.correlation == None
    requires o2 == o + |CorrelationBytes(p)|
            && r2 == r.(correlation := if p.correlation == [] then None else Some(p.correlation))
    ensures LeadsTo(s, len, o, r, o2, r2)
  {
    if p.correlation != [] {
      NamedTextReads(s, len, o, CORRELATION, p.correlation);
      OneMore(s, len, o, r, o2, r2);
    } else {
      assert r2 == r;
    }
  }

  lemma ContentTypeReads(s: seq<byte>, len: nat, o: nat, r: Received, p: Properties, o2: nat, r2: Received)
    requires Sized(p) && Stands(s, len, o, ContentTypeBytes(p)) && r.contentType == None
    requires o2 == o + |ContentTypeBytes(p)| && r2 == r.(contentType := p.contentType)
    ensures LeadsTo(s, len, o, r, o2, r2)
  {
    if p.contentType.Some? {
      NamedTextReads(s, len, o, CONTENT_TYPE, p.contentType.value);
      OneMore(s, len, o, r, o2, r2);
    } else {
      assert r2 == r;
    }
  }

  lemma PairReads(s: seq<byte>, len: nat, o: nat, r: Received, key: seq<byte>, value: seq<byte>)
    requires |key| <= MAX_STRING && |value| <= MAX_STRING
    requires Stands(s, len, o, [USER_PROPERTY] + Str(key) + Str(value))
    ensures OneProperty(s, len, o, r) == Parsed(r.(user := r.user + [(key, value)]),
            o + |[USER_PROPERTY] + Str(key) + Str(value)|)
  {
    Behind(s, len, o, [USER_PROPERTY] + Str(key), Str(value));
    NamedTextReads(s, len, o, USER_PROPERTY, key);
    TextReads(s, len, o + 3 + |key|, value);
  }

  lemma OneMore(s: seq<byte>, len: nat, o: nat, r: Received, o2: nat, r2: Received)
    requires o < len && OneProperty(s, len, o, r) == Parsed(r2, o2)
    ensures LeadsTo(s, len, o, r, o2, r2)
  {
    ValueMovesOn(s, len, s[o], o + 1, r);
  }

  /** The list of user properties, in order. */
  lemma {:induction false} UserReads(s: seq<byte>, len: nat, o: nat, r: Received, user: seq<(seq<byte>, seq<byte>)>,
                                     o2: nat, r2: Received)
    requires ShortPairs(user) && Stands(s, len, o, UserBytes(user))
    requires o2 == o + |UserBytes(user)| && r2 == r.(user := r.user + user)
    ensures LeadsTo(s, len, o, r, o2, r2)
    decreases |user|
  {
    if user == [] {
      assert r2.user == r.user;
    } else {
      var first, last := user[..|user| - 1], user[|user| - 1];
      var pair := [USER_PROPERTY] + Str(last.0) + Str(last.1);
      Behind(s, len, o, UserBytes(first), pair);
      var o1, r1 := o + |UserBytes(first)|, r.(user := r.user + first);
      UserReads(s, len, o, r, first, o1, r1);
      assert r1.user + [last] == r2.user;
      PairLeads(s, len, o1, r1, last, o2, r2);
    }
  }

  lemma PairLeads(s: seq<byte>, len: nat, o: nat, r: Received, pair: (seq<byte>, seq<byte>), o2: nat, r2: Received)
    requires |pair.0| <= MAX_STRING && |pair.1| <= MAX_STRING
    requires Stands(s, len, o, [USER_PROPERTY] + Str(pair.0) + Str(pair.1))
    requires o2 == o + |[USER_PROPERTY] + Str(pair.0) + Str(pair.1)| && r2 == r.(user := r.user + [pair])
    ensures LeadsTo(s, len, o, r, o2, r2)
  {
    PairReads(s, len, o, r, pair.0, pair.1);
    OneMore(s, len, o, r, o2, r2);
  }

  /** The ends of the parts of a block. */
  datatype Marks = Marks(o1: nat, o2: nat, o3: nat, o4: nat, o5: nat, o6: nat)

  function MarksOf(p: Properties, info: seq<byte>): Marks
    requires Sized(p) && InfoFits(p, info)
  {
    var o1 := |FormatBytes(p)|;
    var o2 := o1 + |ExpiryBytes(p)|;
    var o3 := o2 + |AliasBytes(p)|;
    var o4 := o3 + |ResponseBytes(p, info)|;
    var o5 := o4 + |CorrelationBytes(p)|;
    Marks(o1, o2, o3, o4, o5, o5 + |UserBytes(p.user)|)
  }

  /** Where the seven parts of the block stand. */
  lemma Parts(s: seq<byte>, len: nat, a: seq<byte>, b: seq<byte>, c: seq<byte>, d: seq<byte>, e: seq<byte>,
              f: seq<byte>, g: seq<byte>, m: Marks)
    requires Stands(s, len, 0, a + b + c + d + e + f + g)
    requires m.o1 == |a| && m.o2 == m.o1 + |b| && m.o3 == m.o2 + |c| && m.o4 == m.o3 + |d|
    requires m.o5 == m.o4 + |e| && m.o6 == m.o5 + |f|
    ensures Stands(s, len, 0, a) && Stands(s, len, m.o1, b) && Stands(s, len, m.o2, c) && Stands(s, len, m.o3, d)
    ensures Stands(s, len, m.o4, e) && Stands(s, len, m.o5, f) && Stands(s, len, m.o6, g)
  {
    Behind(s, len, 0, a + b + c + d + e + f, g);
    Behind(s, len, 0, a + b + c + d + e, f);
    Behind(s, len, 0, a + b + c + d, e);
    Behind(s, len, 0, a + b + c, d);
    Behind(s, len, 0, a + b, c);
    Behind(s, len, 0, a, b);
  }

  lemma FrontReads(s: seq<byte>, len: nat, p: Properties, info: seq<byte>, m: Marks, r3: Received)
    requires Sized(p) && InfoFits(p, info) && m == MarksOf(p, info)
    requires Stands(s, len, 0, FormatBytes(p)) && Stands(s, len, m.o1, ExpiryBytes(p))
    requires Stands(s, len, m.o2, AliasBytes(p))
    requires r3 == Seen(p, info).(responseTopic := None, correlation := None, contentType := None, user := [])
    ensures LeadsTo(s, len, 0, NOTHING, m.o3, r3)
  {
    var r1 := NOTHING.(format := if p.payloadFormat then 1 else 0);
    var r2 := r1.(expiry := p.expiry);
    FormatReads(s, len, 0, NOTHING, p, m.o1, r1);
    ExpiryReads(s, len, m.o1, r1, p, m.o2, r2);
    Trans(s, len, 0, NOTHING, m.o1, r1, m.o2, r2);
    AliasReads(s, len, m.o2, r2, p, m.o3, r3);
    Trans(s, len, 0, NOTHING, m.o2, r2, m.o3, r3);
  }

  lemma Trans(s: seq<byte>, len: nat, o0: nat, r0: Received, o1: nat, r1: Received, o2: nat, r2: Received)
    requires LeadsTo(s, len, o0, r0, o1, r1) && LeadsTo(s, len, o1, r1, o2, r2)
    ensures LeadsTo(s, len, o0, r0, o2, r2)
  {
  }

  lemma BackReads(s: seq<byte>, len: nat, p: Properties, info: seq<byte>, m: Marks, r4: Received)
    requires Sized(p) && InfoFits(p, info) && ShortPairs(p.user) && m == MarksOf(p, info)
    requires Stands(s, len, m.o4, CorrelationBytes(p)) && Stands(s, len, m.o5, UserBytes(p.user))
    requires Stands(s, len, m.o6, ContentTypeBytes(p)) && len == m.o6 + |ContentTypeBytes(p)|
    requires r4 == Seen(p, info).(correlation := None, contentType := None, user := [])
    ensures LeadsTo(s, len, m.o4, r4, len, Seen(p, info))
  {
    var r5 := r4.(correlation := if p.correlation == [] then None else Some(p.correlation));
    var r6 := r5.(user := [] + p.user);
    CorrelationReads(s, len, m.o4, r4, p, m.o5, r5);
    UserReads(s, len, m.o5, r5, p.user, m.o6, r6);
    Trans(s, len, m.o4, r4, m.o5, r5, m.o6, r6);
    ContentTypeReads(s, len, m.o6, r6, p, len, Seen(p, info));
    Trans(s, len, m.o4, r4, m.o6, r6, len, Seen(p, info));
  }

  lemma BackRejected(s: seq<byte>, len: nat, p: Properties, info: seq<byte>, m: Marks, r4: Received)
    requires Sized(p) && InfoFits(p, info) && !ShortPairs(p.user) && m == MarksOf(p, info)
    requires Stands(s, len, m.o4, CorrelationBytes(p)) && Stands(s, len, m.o5, UserBytes(p.user))
    requires r4.correlation == None
    ensures PropertiesFrom(s, len, m.o4, r4) == Rejected
  {
    var r5 := r4.(correlation := if p.correlation == [] then None else Some(p.correlation));
    CorrelationReads(s, len, m.o4, r4, p, m.o5, r5);
    LongPairRejected(s, len, m.o5, r5, p.user);
  }

  lemma PairRejected(s: seq<byte>, len: nat, o: nat, r: Received, key: seq<byte>, value: seq<byte>)
    requires |key| < 0x1_0000 && |value| < 0x1_0000 && (|key| > MAX_STRING || |value| > MAX_STRING)
    requires Stands(s, len, o, [USER_PROPERTY] + Str(key) + Str(value))
    ensures PropertiesFrom(s, len, o, r) == Rejected
  {
    Behind(s, len, o, [USER_PROPERTY] + Str(key), Str(value));
    NamedTextReads(s, len, o, USER_PROPERTY, key);
    TextReads(s, len, o + 3 + |key|, value);
    assert OneProperty(s, len, o, r) == Rejected;
  }

  /** A key or value that is too long: the parser gives up there. */
  lemma {:induction false} LongPairRejected(s: seq<byte>, len: nat, o: nat, r: Received,
                                            user: seq<(seq<byte>, seq<byte>)>)
    requires !ShortPairs(user) && forall k :: 0 <= k < |user| ==> |user[k].0| < 0x1_0000 && |user[k].1| < 0x1_0000
    requires Stands(s, len, o, UserBytes(user))
    ensures PropertiesFrom(s, len, o, r) == Rejected
    decreases |user|
  {
    var first, last := user[..|user| - 1], user[|user| - 1];
    var pair := [USER_PROPERTY] + Str(last.0) + Str(last.1);
    Behind(s, len, o, UserBytes(first), pair);
    if ShortPairs(first) {
      LastPairRejected(s, len, o, r, first, last);
    } else {
      LongPairRejected(s, len, o, r, first);
    }
  }

  lemma LastPairRejected(s: seq<byte>, len: nat, o: nat, r: Received, first: seq<(seq<byte>, seq<byte>)>,
                         last: (seq<byte>, seq<byte>))
    requires ShortPairs(first)
    requires |last.0| < 0x1_0000 && |last.1| < 0x1_0000 && (|last.0| > MAX_STRING || |last.1| > MAX_STRING)
    requires Stands(s, len, o, UserBytes(first))
    requires Stands(s, len, o + |UserBytes(first)|, [USER_PROPERTY] + Str(last.0) + Str(last.1))
    ensures PropertiesFrom(s, len, o, r) == Rejected
  {
    var o1, r1 := o + |UserBytes(first)|, r.(user := r.user + first);
    UserReads(s, len, o, r, first, o1, r1);
    PairRejected(s, len, o1, r1, last.0, last.1);
  }

  lemma LongResponseRejected(s: seq<byte>, len: nat, o: nat, r: Received, p: Properties, info: seq<byte>)
    requires Sized(p) && InfoFits(p, info) && !ShortResponse(p, info)
    requires Stands(s, len, o, ResponseBytes(p, info))
    ensures PropertiesFrom(s, len, o, r) == Rejected
  {
    NamedTextReads(s, len, o, RESPONSE_TOPIC, Seen(p, info).responseTopic.value);
  }

  /** The whole block: the properties that were set, or a refusal if and only if a checked string is too long. */
  lemma BlockReads(s: seq<byte>, p: Properties, info: seq<byte>)
    requires Sized(p) && InfoFits(p, info)
    requires Stands(s, |PropertyBytes(p, info)|, 0, PropertyBytes(p, info))
    ensures PropertiesFrom(s, |PropertyBytes(p, info)|, 0, NOTHING)
            == if ShortStrings(p, info) then Parsed(Seen(p, info), |PropertyBytes(p, info)|) else Rejected
  {
    var len, m := |PropertyBytes(p, info)|, MarksOf(p, info);
    Parts(s, len, FormatBytes(p), ExpiryBytes(p), AliasBytes(p), ResponseBytes(p, info), CorrelationBytes(p),
          UserBytes(p.user), ContentTypeBytes(p), m);
    var r4 := Seen(p, info).(correlation := None, contentType := None, user := []);
    var r3 := r4.(responseTopic := None);
    FrontReads(s, len, p, info, m, r3);
    if ShortResponse(p, info) {
      ResponseReads(s, len, m.o3, r3, p, info, m.o4, r4);
      if ShortPairs(p.user) {
        BackReads(s, len, p, info, m, r4);
      } else {
        BackRejected(s, len, p, info, m, r4);
      }
    } else {
      LongResponseRejected(s, len, m.o3, r3, p, info);
    }
  }

  /** mqtt5_get_id; 0 when there is none. */
  function MessageId5(p: seq<byte>): (id: nat)
    requires p != []
  {
    var offset := 1 + LengthBytes(p[1..]);
    if offset + 2 > |p| then 0
    else if Kind(p[0]) == MSG_PUBLISH then
      var at := offset + 2 + Join16(p[offset], p[offset + 1]);
      if at + 2 > |p| || Qos(p[0]) == 0 then 0 else Join16(p[at], p[at + 1])
    else if Kind(p[0]) in ID_AT_TWO then Join16(p[offset], p[offset + 1])
    else 0
  }

  /**
   * A PUBLISH packet q of which the first n bytes were received, k of them payload: topic, id, properties, the user
   * properties in order, and the payload bytes received read back, unless a checked string is too long.
   */
  lemma PublishReadsBack5(topic: seq<byte>, payload: seq<byte>, qos: nat, retain: int, id: nat, p: Properties,
                          info: seq<byte>, q: seq<byte>, n: nat, k: nat)
    requires |topic| < 0x1_0000 && id < 0x1_0000 && qos <= 2
    requires Sized(p) && InfoFits(p, info) && |PropertyBytes(p, info)| < 0x1_0000
    requires |Header5(topic, qos, id, PropertyBytes(p, info))| + |payload| < V.LIMIT
    requires q == Packet(MSG_PUBLISH, qos, retain, Header5(topic, qos, id, PropertyBytes(p, info)) + payload)
    requires |payload| <= |q| && |q| - |payload| <= n <= |q| && k == n - (|q| - |payload|)
    ensures TotalLength(q[..n]) == |q| && q[|q| - |payload|..] == payload && q[n..] == payload[k..]
    ensures q[..n] != []
            && PublishIn(q[..n]) == if ShortStrings(p, info) then Message(topic, Seen(p, info), payload[..k]) else Null
    ensures MessageId5(q[..n]) == if qos > 0 then id else 0
  {
    var header := Header5(topic, qos, id, PropertyBytes(p, info));
    CutPacket(header, payload, qos, retain, n, q);
    PartsRead5(topic, payload[..k], qos, retain, id, p, info, |header + payload|, q[..n]);
  }

  lemma PartsRead5(topic: seq<byte>, read: seq<byte>, qos: nat, retain: int, id: nat, p: Properties, info: seq<byte>,
                   claimed: nat, q: seq<byte>)
    requires |topic| < 0x1_0000 && id < 0x1_0000 && qos <= 2
    requires Sized(p) && InfoFits(p, info) && |PropertyBytes(p, info)| < 0x1_0000
    requires |Header5(topic, qos, id, PropertyBytes(p, info)) + read| <= claimed < V.LIMIT
    requires q == Headed(MSG_PUBLISH, qos, retain, claimed, Header5(topic, qos, id, PropertyBytes(p, info)) + read)
    ensures TotalLength(q) == 1 + |V.Encode(claimed)| + claimed
    ensures PublishIn(q) == if ShortStrings(p, info) then Message(topic, Seen(p, info), read) else Null
    ensures MessageId5(q) == if qos > 0 then id else 0
  {
    var b := PropertyBytes(p, info);
    Placed(topic, read, qos, retain, id, b, claimed, q);
    BlockReads(q[PropertiesAt(q)..], p, info);
    if ShortStrings(p, info) {
      Taken(q, topic, read, b, Seen(p, info), TopicAt(q) + claimed);
    }
  }

  /** Where the parser finds the parts of a packet with property block b. */
  lemma Regroup(h: seq<byte>, e: seq<byte>, b: seq<byte>, r: seq<byte>)
    ensures h + e + b + r == h + (e + (b + r))
  {
  }

  lemma Placed(topic: seq<byte>, read: seq<byte>, qos: nat, retain: int, id: nat, b: seq<byte>, claimed: nat,
               q: seq<byte>)
    requires |topic| < 0x1_0000 && id < 0x1_0000 && qos <= 2 && |b| < 0x1_0000
    requires |Header5(topic, qos, id, b) + read| <= claimed < V.LIMIT
    requires q == Headed(MSG_PUBLISH, qos, retain, claimed, Header5(topic, qos, id, b) + read)
    ensures TotalLength(q) == TopicAt(q) + claimed == 1 + |V.Encode(claimed)| + claimed
            && LengthValue(q[1..]) == claimed
    ensures TopicAt(q) + 2 <= |q| && BlockAt(q) < |q| && q[TopicAt(q) + 2..TopicEnd(q)] == topic
    ensures BlockLength(q) == |b| && q[PropertiesAt(q)..] == b + read
    ensures MessageId5(q) == if qos > 0 then id else 0
  {
    var rest := V.Encode(|b|) + (b + read);
    var lens := V.Encode(claimed);
    Regroup(Header3(topic, qos, id), V.Encode(|b|), b, read);
    HeaderReads(MSG_PUBLISH, qos, retain, claimed, Header5(topic, qos, id, b) + read);
    FirstByteFields(MSG_PUBLISH, 0, qos, retain);
    PlacedFront(topic, qos, id, rest, claimed, q);
    PlacedBlock(b, read, q);
  }

  lemma PlacedFront(topic: seq<byte>, qos: nat, id: nat, rest: seq<byte>, claimed: nat, q: seq<byte>)
    requires |topic| < 0x1_0000 && id < 0x1_0000 && claimed < V.LIMIT && rest != []
    requires q != [] && Kind(q[0]) == MSG_PUBLISH && Qos(q[0]) == qos
    requires q == [q[0]] + V.Encode(claimed) + (Header3(topic, qos, id) + rest)
    ensures TopicAt(q) == 1 + |V.Encode(claimed)| && LengthValue(q[1..]) == claimed
    ensures TopicAt(q) + 2 <= |q| && BlockAt(q) < |q| && q[TopicAt(q) + 2..TopicEnd(q)] == topic
            && q[BlockAt(q)..] == rest
    ensures MessageId5(q) == if qos > 0 then id else 0
  {
    assert q[1..] == V.Encode(claimed) + (Header3(topic, qos, id) + rest);
    LengthReads(claimed, Header3(topic, qos, id) + rest);
    var i := 1 + |V.Encode(claimed)|;
    assert q[i..] == Header3(topic, qos, id) + rest;
    HeaderFields(q, i, i + 2 + |topic|, topic, qos, id, rest);
  }

  lemma PlacedBlock(b: seq<byte>, read: seq<byte>, q: seq<byte>)
    requires q != [] && TopicAt(q) + 2 <= |q| && BlockAt(q) <= |q| && |b| < 0x1_0000
    requires q[BlockAt(q)..] == V.Encode(|b|) + (b + read)
    ensures BlockLength(q) == |b| && q[PropertiesAt(q)..] == b + read
  {
    BlockStands(q, BlockAt(q), b, read);
  }

  lemma BlockStands(q: seq<byte>, at: nat, b: seq<byte>, read: seq<byte>)
    requires at <= |q| && |b| < 0x1_0000 && q[at..] == V.Encode(|b|) + (b + read)
    ensures LengthValue(q[at..]) % 0x1_0000 == |b| && at + LengthBytes(q[at..]) <= |q|
    ensures q[at + LengthBytes(q[at..])..] == b + read
  {
    LengthReads(|b|, b + read);
    Within16(|b|);
    RestBehind(q, at, V.Encode(|b|), b + read);
  }

  lemma Within16(n: nat)
    requires n < 0x1_0000
    ensures n % 0x1_0000 == n
  {
  }

  lemma RestBehind(q: seq<byte>, at: nat, front: seq<byte>, back: seq<byte>)
    requires at <= |q| && q[at..] == front + back
    ensures at + |front| <= |q| && q[at + |front|..] == back
  {
    assert q[at + |front|..] == q[at..][|front|..];
  }

  lemma Taken(q: seq<byte>, topic: seq<byte>, read: seq<byte>, b: seq<byte>, r: Received, total: nat)
    requires q != [] && TopicAt(q) + 2 <= |q| && BlockAt(q) < |q| && q[TopicAt(q) + 2..TopicEnd(q)] == topic
    requires BlockLength(q) == |b| && q[PropertiesAt(q)..] == b + read
    requires TopicAt(q) + LengthValue(q[1..]) == total >= |q|
    requires PropertiesFrom(q[PropertiesAt(q)..], |b|, 0, NOTHING) == Parsed(r, |b|)
    ensures PublishIn(q) == Message(topic, r, read)
  {
    assert q[PropertiesAt(q) + |b|..|q|] == q[PropertiesAt(q)..][|b|..] == read;
  }

  lemma WholeReadsBack5(topic: seq<byte>, payload: seq<byte>, qos: nat, retain: int, id: nat, p: Properties,
                        info: seq<byte>, q: seq<byte>)
    requires |topic| < 0x1_0000 && id < 0x1_0000 && qos <= 2
    requires Sized(p) && InfoFits(p, info) && |PropertyBytes(p, info)| < 0x1_0000
    requires |Header5(topic, qos, id, PropertyBytes(p, info))| + |payload| < V.LIMIT
    requires q == Packet(MSG_PUBLISH, qos, retain, Header5(topic, qos, id, PropertyBytes(p, info)) + payload)
    ensures q != []
            && PublishIn(q) == if ShortStrings(p, info) then Message(topic, Seen(p, info), payload) else Null
  {
    var header := Header5(topic, qos, id, PropertyBytes(p, info));
    CutPacket(header, payload, qos, retain, |q|, q);
    assert q[..|q|] == q && payload[..|payload|] == payload;
    PublishReadsBack5(topic, payload, qos, retain, id, p, info, q, |q|, |payload|);
  }

  /**
   * A PUBLISH reads back with the properties that were set if and only if the strings the parser checks are short
   * enough and no response information of the server was joined to a response topic.
   */
  lemma PropertiesReadBackExactly(topic: seq<byte>, payload: seq<byte>, qos: nat, retain: int, id: nat, p: Properties,
                                  info: seq<byte>, q: seq<byte>)
    requires |topic| < 0x1_0000 && id < 0x1_0000 && qos <= 2
    requires Sized(p) && InfoFits(p, info) && |PropertyBytes(p, info)| < 0x1_0000
    requires |Header5(topic, qos, id, PropertyBytes(p, info))| + |payload| < V.LIMIT
    requires q == Packet(MSG_PUBLISH, qos, retain, Header5(topic, qos, id, PropertyBytes(p, info)) + payload)
    ensures PublishIn(q).Message? && PublishIn(q).topic == topic && PublishIn(q).payload == payload
            && AsSet(PublishIn(q).properties) == p
            <==> ShortStrings(p, info) && (info == [] || p.responseTopic == None)
  {
    WholeReadsBack5(topic, payload, qos, retain, id, p, info, q);
    SeenTells(p, info);
  }

  lemma SeenTells(p: Properties, info: seq<byte>)
    ensures AsSet(Seen(p, info)) == p <==> info == [] || p.responseTopic == None
  {
    if p.responseTopic.Some? && info != [] {
      var t, seen := p.responseTopic.value, Seen(p, info).responseTopic.value;
      assert |seen| > |t|;
    }
  }

  /**
   * With response information, what the receiver finds instead is topic, slash and information with the last byte
   * replaced by 0.
   */
  lemma ResponseTopicSeen(topic: seq<byte>, payload: seq<byte>, qos: nat, retain: int, id: nat, p: Properties,
                          info: seq<byte>, q: seq<byte>)
    requires |topic| < 0x1_0000 && id < 0x1_0000 && qos <= 2 && p.responseTopic.Some?
    requires Sized(p) && InfoFits(p, info) && ShortStrings(p, info) && |PropertyBytes(p, info)| < 0x1_0000
    requires |Header5(topic, qos, id, PropertyBytes(p, info))| + |payload| < V.LIMIT
    requires q == Packet(MSG_PUBLISH, qos, retain, Header5(topic, qos, id, PropertyBytes(p, info)) + payload)
    ensures PublishIn(q).Message? && PublishIn(q).properties.responseTopic.Some?
    ensures var seen := PublishIn(q).properties.responseTopic.value;
            if info == [] then seen == p.responseTopic.value
            else
              var joined := p.responseTopic.value + ['/' as int] + info;
              |seen| == |joined| && seen[..|seen| - 1] == joined[..|seen| - 1] && seen[|seen| - 1] == 0
  {
    WholeReadsBack5(topic, payload, qos, retain, id, p, info, q);
  }

  /** mqtt5_get_id finds the id of an ack or request whatever its length. */
  lemma IdReads5(first: byte, id: nat, rest: seq<byte>)
    requires Kind(first) in ID_AT_TWO && id < 0x1_0000 && 2 + |rest| < V.LIMIT
    ensures MessageId5([first] + V.Encode(2 + |rest|) + (U16(id) + rest)) == id
  {
    var body := U16(id) + rest;
    BodyFound(first, body);
    IdFound([first] + V.Encode(|body|) + body, 1 + |V.Encode(|body|)|, id, rest);
  }

  lemma BodyFound(first: byte, body: seq<byte>)
    requires |body| < V.LIMIT
    ensures var p := [first] + V.Encode(|body|) + body; var i := 1 + |V.Encode(|body|)|;
            p[i..] == body && 1 + LengthBytes(p[1..]) == i
  {
    var p := [first] + V.Encode(|body|) + body;
    assert p[1..] == V.Encode(|body|) + body;
    LengthReads(|body|, body);
  }

  lemma IdFound(p: seq<byte>, i: nat, id: nat, rest: seq<byte>)
    requires p != [] && Kind(p[0]) in ID_AT_TWO && id < 0x1_0000
    requires i <= |p| && p[i..] == U16(id) + rest && 1 + LengthBytes(p[1..]) == i
    ensures MessageId5(p) == id
  {
    assert p[i] == p[i..][0] == id / 0x100 && p[i + 1] == p[i..][1] == id % 0x100;
  }

  // ---------- properties that only a server sends

  /** A subscription identifier, section 3.3.2.3.8 of MQTT 5.0. */
  lemma SubscriptionReads(n: nat)
    requires n < V.LIMIT
    ensures var s := [0x0B] + V.Encode(n);
            PropertiesFrom(s, |s|, 0, NOTHING) == Parsed(NOTHING.(subscription := n), |s|)
  {
    var s := [0x0B] + V.Encode(n);
    assert s[1..|s|] == V.Encode(n) + [];
    LengthReads(n, []);
    assert ValueAt(s, |s|, 0x0B, 1, NOTHING) == Parsed(NOTHING.(subscription := n), |s|);
  }

  /** An identifier that section 3.3.2.3 does not give to PUBLISH makes the parser give up; 0x1F is passed over. */
  lemma UnknownRejected(s: seq<byte>, len: nat)
    requires s != [] && len > 0 && s[0] !in {0x01, 0x02, 0x03, 0x08, 0x09, 0x0B, 0x1F, 0x23, 0x26}
    ensures PropertiesFrom(s, len, 0, NOTHING) == Rejected
  {
    assert OneProperty(s, len, 0, NOTHING) == Rejected;
  }
}
