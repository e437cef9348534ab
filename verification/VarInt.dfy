/** Variable byte integers: section 1.5.5 of MQTT 5.0, section 2.2.3 of MQTT 3.1.1. */
module VarInt {
  import opened Bytes

  const LIMIT := 0x1000_0000

  function Encode(n: nat): (s: seq<byte>)
    ensures |s| >= 1 && s[|s| - 1] < 128
    ensures forall k :: 0 <= k < |s| - 1 ==> s[k] >= 128
    decreases n
  {
    if n < 128 then [n] else [128 + n % 128] + Encode(n / 128)
  }

  /** One round of the encoding loop: a byte with the low group, its top bit set if more follow. */
  function LowGroup(n: nat): byte {
    if n / 128 > 0 then n % 128 + 0x80 else n % 128
  }

  lemma EncodeStep(n: nat)
    ensures Encode(n) == if n / 128 == 0 then [LowGroup(n)] else [LowGroup(n)] + Encode(n / 128)
  {
  }

  /** How many bytes of s a reader that stops after max bytes consumes. */
  function Span(s: seq<byte>, max: nat): (k: nat)
    ensures k <= |s| && k <= max
  {
    if s == [] || max == 0 then 0
    else if s[0] < 128 then 1
    else 1 + Span(s[1..], max - 1)
  }

  /** The number those bytes spell, least significant group first. */
  function Value(s: seq<byte>, max: nat): (v: nat) {
    if s == [] || max == 0 then 0
    else if s[0] < 128 then s[0]
    else s[0] % 128 + 128 * Value(s[1..], max - 1)
  }

  function Pow128(k: nat): (p: nat)
    ensures p > 0
  {
    if k == 0 then 1 else 128 * Pow128(k - 1)
  }

  /** Reading back what was written, whatever follows it. */
  lemma {:induction false} RoundTrip(n: nat, rest: seq<byte>, max: nat)
    requires |Encode(n)| <= max
    ensures Span(Encode(n) + rest, max) == |Encode(n)|
    ensures Value(Encode(n) + rest, max) == n
    decreases n
  {
    if n >= 128 {
      assert (Encode(n) + rest)[1..] == Encode(n / 128) + rest;
      RoundTrip(n / 128, rest, max - 1);
    }
  }

  /** k bytes hold exactly the numbers below 128^k. */
  lemma {:induction false} EncodeLength(n: nat, k: nat)
    requires k >= 1
    ensures |Encode(n)| <= k <==> n < Pow128(k)
    decreases k
  {
    if n >= 128 && k > 1 {
      EncodeLength(n / 128, k - 1);
    }
  }

  /** Below 2^28 four bytes are enough, and only below. */
  lemma FourBytes(n: nat)
    ensures |Encode(n)| <= 4 <==> n < LIMIT
  {
    EncodeLength(n, 4);
    assert Pow128(4) == 128 * Pow128(3) == 128 * (128 * Pow128(2)) == LIMIT by {
      assert Pow128(1) == 128 * Pow128(0);
    }
  }

  /** How many bytes a number takes. */
  lemma SizeOf(n: nat)
    requires n < LIMIT
    ensures |Encode(n)| == if n < 0x80 then 1 else if n < 0x4000 then 2 else if n < 0x20_0000 then 3 else 4
  {
    assert Pow128(1) == 128 * Pow128(0) && Pow128(2) == 128 * Pow128(1) && Pow128(3) == 128 * Pow128(2);
    EncodeLength(n, 1);
    EncodeLength(n, 2);
    EncodeLength(n, 3);
    FourBytes(n);
  }

  /** Encode gives the shortest spelling: any spelling of n read back within max bytes is at least as long. */
  lemma {:induction false} Minimal(s: seq<byte>, max: nat)
    requires Span(s, max) > 0 && s[Span(s, max) - 1] < 128
    ensures |Encode(Value(s, max))| <= Span(s, max)
  {
    if s[0] >= 128 {
      Minimal(s[1..], max - 1);
      var v := Value(s[1..], max - 1);
      assert Value(s, max) / 128 == v;
    }
  }
}
