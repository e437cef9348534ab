/** mqtt_connection_t: the output buffer and the message being built in it. */
module Connection {
  import opened Bytes
  import opened Packets
  import V = VarInt

  /** What a publish call hands over: a null pointer with a length, or that many bytes. */
  datatype Data = Null(len: nat) | Payload(bytes: seq<byte>)

  function Length(d: Data): nat {
    match d
    case Null(len) => len
    case Payload(bytes) => |bytes|
  }

  function Content(d: Data): seq<byte> {
    match d
    case Null(_) => []
    case Payload(bytes) => bytes
  }

  method CopyInto(dst: array<byte>, at: nat, src: seq<byte>)
    requires at + |src| <= dst.Length
    modifies dst
    ensures dst[..at] == old(dst[..at]) && dst[at..at + |src|] == src && dst[at + |src|..] == old(dst[at + |src|..])
  {
    forall k | 0 <= k < |src| {
      dst[at + k] := src[k];
    }
  }

  /** The groups of seven bits, least significant first, written into a four-byte buffer. */
  method GenerateVariableLen(len: nat, encoded: array<byte>) returns (bytes: nat)
    requires len < V.LIMIT && encoded.Length == 4
    modifies encoded
    ensures bytes <= 4 && encoded[..bytes] == V.Encode(len)
  {
    V.FourBytes(len);
    bytes := 0;
    var rest := len;
    while true
      invariant bytes + |V.Encode(rest)| <= 4
      invariant encoded[..bytes] + V.Encode(rest) == V.Encode(len)
      decreases rest
    {
      V.EncodeStep(rest);
      Regroup(encoded[..bytes], V.LowGroup(rest), V.Encode(rest / 128));
      PutByte(encoded, bytes, V.LowGroup(rest));
      bytes := bytes + 1;
      rest := rest / 128;
      if rest == 0 { return; }
    }
  }

  lemma Regroup(a: seq<byte>, x: byte, b: seq<byte>)
    ensures a + ([x] + b) == a + [x] + b
  {
  }

  method PutByte(dst: array<byte>, at: nat, b: byte)
    requires at < dst.Length
    modifies dst
    ensures dst[..at + 1] == old(dst[..at]) + [b] && dst[at + 1..] == old(dst[at + 1..])
  {
    dst[at] := b;
  }

  method PutId(dst: array<byte>, at: nat, id: nat)
    requires at + 2 <= dst.Length && id < 0x1_0000
    modifies dst
    ensures dst[..at] == old(dst[..at]) && dst[at..at + 2] == U16(id)
  {
    dst[at] := id / 0x100;
    dst[at + 1] := id % 0x100;
  }

  method PutString(dst: array<byte>, at: nat, s: seq<byte>)
    requires at + 2 + |s| <= dst.Length && |s| < 0x1_0000
    modifies dst
    ensures dst[..at] == old(dst[..at]) && dst[at..at + 2 + |s|] == Str(s)
  {
    PutId(dst, at, |s|);
    CopyInto(dst, at + 2, s);
    assert dst[..at + 2][..at] == dst[..at] && dst[..at + 2][at..] == dst[at..at + 2];
    assert dst[at..at + 2 + |s|] == dst[at..at + 2] + dst[at + 2..at + 2 + |s|];
  }

  class Connection {
    const buffer: array<byte>
    const incremental: bool
    var out: array<byte>
    var outStart: nat
    var length: nat
    var fragTotal: nat
    var fragOffset: int
    var lastMessageId: nat

    ghost predicate Valid()
      reads this`lastMessageId
    {
      buffer.Length >= 16 && lastMessageId < 0x1_0000
    }

    constructor (size: nat, incremental: bool)
      requires size >= 16
      ensures Valid() && buffer.Length == size && fresh(buffer) && this.incremental == incremental
      ensures length == 0 && fragTotal == 0 && fragOffset == 0 && out == buffer && outStart == 0
    {
      var b := new byte[size](_ => 0);
      buffer, out, this.incremental := b, b, incremental;
      outStart, length, fragTotal, fragOffset, lastMessageId := 0, 0, 0, 0, 0;
    }

    /** The bytes that a write would hand to the transport. */
    ghost function Outbound(): seq<byte>
      reads this`out, this`outStart, this`length, out
      requires outStart + length <= out.Length
    {
      out[outStart..outStart + length]
    }

    /** The message so far, after the gap. */
    ghost function Body(): seq<byte>
      reads this, buffer
      requires GAP <= length <= buffer.Length
    {
      buffer[GAP..length]
    }

    method FailMessage()
      modifies this`out, this`outStart, this`length
      ensures length == 0 && out == buffer && outStart == 0
    {
      out, outStart, length := buffer, 0, 0;
    }

    method InitMessage()
      modifies this`length
      ensures length == GAP
    {
      length := GAP;
    }

    method AppendString(s: seq<byte>) returns (n: int)
      requires GAP <= length <= buffer.Length && |s| < 0x1_0000
      modifies this`length, buffer
      ensures n == -1 <==> old(length) + |s| + 2 > buffer.Length
      ensures n == -1 ==> length == old(length)
      ensures n != -1 ==> n == |s| + 2 && length == old(length) + n <= buffer.Length && Body() == old(Body()) + Str(s)
    {
      if length + |s| + 2 > buffer.Length { return -1; }
      ghost var prefix := buffer[..length];
      assert Body() == prefix[GAP..];
      PutString(buffer, length, s);
      length := length + 2 + |s|;
      BodyGrew(prefix, Str(s));
      return |s| + 2;
    }

    lemma BodyGrew(prefix: seq<byte>, added: seq<byte>)
      requires GAP <= |prefix| && length == |prefix| + |added| <= buffer.Length
      requires buffer[..|prefix|] == prefix && buffer[|prefix|..length] == added
      ensures Body() == prefix[GAP..] + added
    {
      assert buffer[GAP..length] == buffer[..|prefix|][GAP..] + buffer[|prefix|..length];
    }

    /** Packet ids: the one given, or the next that is not 0; a drawn one in random mode. */
    method AllocateId(messageId: nat) returns (id: nat)
      requires Valid() && messageId < 0x1_0000
      modifies this`lastMessageId
      ensures Valid() && 1 <= id < 0x1_0000
      ensures messageId != 0 ==> id == messageId && lastMessageId == old(lastMessageId)
      ensures messageId == 0 && incremental ==> id == lastMessageId == NextId(old(lastMessageId))
      ensures !incremental ==> lastMessageId == old(lastMessageId)
    {
      id := messageId;
      if !incremental {
        if id == 0 {
          id :| 1 <= id < 0xFFFF;
        }
        return;
      }
      while id == 0
        invariant Valid() && 0 <= id < 0x1_0000
        invariant messageId != 0 ==> id == messageId && lastMessageId == old(lastMessageId)
        invariant messageId == 0 && id != 0 ==> id == lastMessageId == NextId(old(lastMessageId))
        invariant messageId == 0 && id == 0 ==> NextId(lastMessageId) == NextId(old(lastMessageId))
        decreases if id != 0 then 0 else if lastMessageId == 0xFFFF then 2 else 1
      {
        lastMessageId := (lastMessageId + 1) % 0x1_0000;
        id := lastMessageId;
      }
    }

    /** At most one id was drawn since the last one was this. */
    predicate DrewAtMostOne(before: nat)
      reads this`lastMessageId
    {
      lastMessageId == before || (incremental && lastMessageId == NextId(before))
    }

    /** This id is the one drawn since the last one was that. */
    predicate DrewNext(before: nat, id: nat)
      reads this`lastMessageId
    {
      if incremental then id == lastMessageId == NextId(before) else lastMessageId == before
    }

    /** Returns 0 when the id does not fit; the id is used up even then. */
    method AppendMessageId(messageId: nat) returns (id: nat)
      requires Valid() && GAP <= length <= buffer.Length && messageId < 0x1_0000
      modifies this`length, this`lastMessageId, buffer
      ensures Valid() && id < 0x1_0000
      ensures id == 0 <==> old(length) + 2 > buffer.Length
      ensures id == 0 ==> length == old(length)
      ensures id != 0 ==> length == old(length) + 2 <= buffer.Length && Body() == old(Body()) + U16(id)
      ensures messageId != 0 ==> (id != 0 ==> id == messageId) && lastMessageId == old(lastMessageId)
      ensures messageId == 0 ==> DrewNext(old(lastMessageId), if id != 0 then id else lastMessageId)
    {
      var given := AllocateId(messageId);
      if length + 2 > buffer.Length { return 0; }
      ghost var prefix := buffer[..length];
      assert Body() == prefix[GAP..];
      PutId(buffer, length, given);
      length := length + 2;
      BodyGrew(prefix, U16(given));
      return given;
    }

    /** The fixed header goes, back to front, into the gap before the message. */
    method FiniMessage(kind: nat, qos: nat, retain: int)
      requires GAP <= length <= buffer.Length && (fragTotal == 0 || fragTotal >= GAP)
      requires kind < 16 && qos < 4
      requires (if fragTotal != 0 then fragTotal else length) < V.LIMIT
      modifies this`out, this`outStart, this`length, this`fragOffset, buffer
      ensures out == buffer && outStart + length == old(length) && length > 0
      ensures var claimed := if fragTotal != 0 then fragTotal - GAP else old(length) - GAP;
              && Outbound() == Headed(kind, qos, retain, claimed, old(Body()))
              && outStart == GAP - 1 - |V.Encode(claimed)|
      ensures fragOffset == old(fragOffset) - outStart
    {
      var messageLength := length - GAP;
      var total := if fragTotal != 0 then fragTotal - GAP else messageLength;
      var encoded := new byte[4](_ => 0);
      var bytes := GenerateVariableLen(total, encoded);
      length := messageLength + bytes + 1;
      var offs := GAP - 1 - bytes;
      out, outStart := buffer, offs;
      fragOffset := fragOffset - offs;
      WriteHeader(FirstByte(kind, 0, qos, retain), encoded[..bytes]);
    }

    method WriteHeader(first: byte, lens: seq<byte>)
      requires out == buffer && outStart + 1 + |lens| == GAP <= outStart + length <= buffer.Length
      modifies buffer
      ensures Outbound() == [first] + lens + old(buffer[GAP..outStart + length])
    {
      PutHeader(buffer, outStart, first, lens, outStart + length);
    }
  }

  /** The type byte and the length bytes, ending where the gap ends. */
  method PutHeader(buffer: array<byte>, offs: nat, first: byte, lens: seq<byte>, end: nat)
    requires offs + 1 + |lens| == GAP <= end <= buffer.Length
    modifies buffer
    ensures buffer[offs..end] == [first] + lens + old(buffer[GAP..end])
  {
    buffer[offs] := first;
    CopyInto(buffer, offs + 1, lens);
    assert buffer[GAP..end] == old(buffer[GAP..end]) by {
      assert buffer[GAP..end] == buffer[GAP..][..end - GAP];
      assert old(buffer[GAP..end]) == old(buffer[GAP..])[..end - GAP];
    }
    assert buffer[offs + 1..GAP] == lens;
    Pieces(buffer[..], offs, GAP, end);
  }

  lemma Pieces(s: seq<byte>, i: nat, k: nat, l: nat)
    requires i < k <= l <= |s|
    ensures s[i..l] == [s[i]] + s[i + 1..k] + s[k..l]
  {
  }

  function NextId(last: nat): nat {
    if last == 0xFFFF then 1 else last + 1
  }
}
