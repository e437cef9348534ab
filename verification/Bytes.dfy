/** Bytes, two-byte integers and the bit fields of the first byte of an MQTT packet. */
module Bytes {

  type byte = x: int | 0 <= x < 0x100

  const MSG_CONNECT := 1
  const MSG_CONNACK := 2
  const MSG_PUBLISH := 3
  const MSG_PUBACK := 4
  const MSG_PUBREC := 5
  const MSG_PUBREL := 6
  const MSG_PUBCOMP := 7
  const MSG_SUBSCRIBE := 8
  const MSG_SUBACK := 9
  const MSG_UNSUBSCRIBE := 10
  const MSG_UNSUBACK := 11
  const MSG_PINGREQ := 12
  const MSG_PINGRESP := 13
  const MSG_DISCONNECT := 14

  /** A two-byte big-endian integer. */
  function U16(n: nat): (s: seq<byte>)
    requires n < 0x1_0000
  {
    [n / 0x100, n % 0x100]
  }

  /** A string preceded by its two-byte length. */
  function Str(s: seq<byte>): seq<byte>
    requires |s| < 0x1_0000
  {
    U16(|s|) + s
  }

  function Join16(hi: byte, lo: byte): nat {
    0x100 * hi + lo
  }

  // The first byte: type (4 bits), DUP, QoS (2 bits), RETAIN.

  function FirstByte(kind: int, dup: int, qos: int, retain: int): byte {
    (kind % 16) * 16 + (dup % 2) * 8 + (qos % 4) * 2 + retain % 2
  }

  function Kind(b: byte): nat { b / 16 }

  function Dup(b: byte): nat { b / 8 % 2 }

  function Qos(b: byte): nat { b / 2 % 4 }

  function Retain(b: byte): nat { b % 2 }

  function WithDup(b: byte): byte {
    if Dup(b) == 1 then b else b + 8
  }

  /** Sections 2.1.3 and 3.3.1 of MQTT 5.0: which flag bits a packet type may carry. */
  predicate ValidHeader(b: byte) {
    var k := Kind(b);
    if k == MSG_PUBLISH then Qos(b) < 3 && (Qos(b) > 0 || Dup(b) == 0)
    else if k in {MSG_PUBREL, MSG_SUBSCRIBE, MSG_UNSUBSCRIBE} then b % 16 == 2
    else 1 <= k <= 14 && b % 16 == 0
  }

  /** What one sets in the first byte is what the getters read. */
  lemma FirstByteFields(kind: int, dup: int, qos: int, retain: int)
    requires 0 <= kind < 16 && 0 <= dup < 2 && 0 <= qos < 4
    ensures var b := FirstByte(kind, dup, qos, retain);
            Kind(b) == kind && Dup(b) == dup && Qos(b) == qos && Retain(b) == retain % 2
  {
    FirstByteIs(kind, dup, qos, retain);
    FieldsApart(kind, dup, qos, retain % 2);
  }

  lemma FirstByteIs(kind: int, dup: int, qos: int, retain: int)
    requires 0 <= kind < 16 && 0 <= dup < 2 && 0 <= qos < 4
    ensures FirstByte(kind, dup, qos, retain) == kind * 16 + dup * 8 + qos * 2 + retain % 2
  {
  }

  lemma FieldsApart(k: int, d: int, q: int, r: int)
    requires 0 <= k < 16 && 0 <= d < 2 && 0 <= q < 4 && 0 <= r < 2
    ensures var b := k * 16 + d * 8 + q * 2 + r;
            b / 16 == k && b / 8 % 2 == d && b / 2 % 4 == q && b % 2 == r
  {
    Apart16(k, d * 8 + q * 2 + r);
    Apart8(k * 2 + d, q * 2 + r);
    Apart2(k, d);
    Apart2(k * 8 + d * 4 + q, r);
    Apart4(k * 2 + d, q);
  }

  lemma Apart16(q: int, r: int)
    requires 0 <= r < 16
    ensures (q * 16 + r) / 16 == q && (q * 16 + r) % 16 == r
  {
  }

  lemma Apart8(q: int, r: int)
    requires 0 <= r < 8
    ensures (q * 8 + r) / 8 == q
  {
  }

  lemma Apart4(q: int, r: int)
    requires 0 <= r < 4
    ensures (q * 4 + r) % 4 == r
  {
  }

  lemma Apart2(q: int, r: int)
    requires 0 <= r < 2
    ensures (q * 2 + r) / 2 == q && (q * 2 + r) % 2 == r
  {
  }

  /** Setting DUP changes that one bit: a second time changes nothing. */
  lemma WithDupFields(b: byte)
    ensures var d := WithDup(b);
            Dup(d) == 1 && Kind(d) == Kind(b) && Qos(d) == Qos(b) && Retain(d) == Retain(b) && WithDup(d) == d
  {
    var c, low := b / 8, b % 8;
    if c % 2 == 0 {
      var k, q, r := c / 2, low / 2, low % 2;
      assert b == k * 16 + 0 * 8 + q * 2 + r;
      FieldsApart(k, 0, q, r);
      FieldsApart(k, 1, q, r);
    }
  }

  /** The masks and shifts of the C getters are the divisions used here. */
  lemma MasksAreDivisions(b: bv8)
    ensures (b & 0xf0) >> 4 == b / 16
    ensures (b & 0x08) >> 3 == (b / 8) % 2
    ensures (b & 0x06) >> 1 == (b / 2) % 4
    ensures b & 0x01 == b % 2
    ensures b | 0x08 == if (b / 8) % 2 == 1 then b else b + 8
    ensures b & 0x7f == b % 128 && ((b & 0x80 == 0) <==> b < 128)
  {
  }
}
