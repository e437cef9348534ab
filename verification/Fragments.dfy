/**
 * The two fields of the connection that a message larger than the output buffer uses, over whole runs: the length it
 * claims and the offset of its payload. Each method of the client is proved to change them as one of the calls here.
 */
module Fragments {
  import opened Bytes
  import opened Packets
  import opened Mqtt3
  import opened Parse3
  import V = VarInt

  datatype Fields = Fields(total: nat, offset: int)

  /**
   * A call by what it does to the fields; sizes count the gap. Untouched: nothing was built, or only stored bytes were
   * written. Control: an ack, PUBREL, PINGREQ or DISCONNECT with a body of that length. Fresh: CONNECT, or a subscribe
   * or unsubscribe call of a connected client; what is built leaves so much of the gap unused. Whole and Large: a
   * publish or enqueue call, its message within the buffer or larger; begun says that all the buffer held was written;
   * dropped are the messages of QoS 0 that an enqueue call neither stores nor writes.
   */
  datatype Call =
    | Untouched
    | Control(body: nat)
    | Fresh(unused: nat)
    | Whole(size: nat, begun: bool)
    | Large(header: nat, size: nat, begun: bool, dropped: bool)

  /** A publish or enqueue call with a header that ends here and a payload of that length. */
  function Building(header: nat, payload: nat, room: nat, begun: bool, dropped: bool): Call {
    if header + payload <= room then Whole(header + payload, begun)
    else Large(header, header + payload, begun, dropped)
  }

  predicate Sound(f: Fields) {
    f.total == 0 || GAP <= f.total < V.LIMIT
  }

  predicate Proper(c: Call) {
    match c
    case Untouched => true
    case Control(body) => body < V.LIMIT
    case Fresh(_) => true
    case Whole(size, _) => GAP <= size < V.LIMIT
    case Large(_, size, _, _) => GAP <= size < V.LIMIT
  }

  /** The fields after a call. */
  function After(a: Fields, c: Call): (b: Fields)
    requires Sound(a) && Proper(c)
    ensures Sound(b)
  {
    match c
    case Untouched => a
    case Control(body) => Fields(a.total, a.offset - Unused(Claimed(a.total, body)))
    case Fresh(unused) => Fields(0, 0 - unused)
    case Whole(size, begun) => Fields(0, if begun then 0 else a.offset - Unused(size - GAP))
    case Large(header, size, begun, dropped) =>
      Fields(if dropped then size else 0, if begun then 0 else header - Unused(size - GAP))
  }

  /** The call c turns the fields a into b. */
  predicate Becomes(a: Fields, c: Call, b: Fields) {
    Sound(a) && Proper(c) && b == After(a, c)
  }

  predicate AllProper(calls: seq<Call>, room: nat) {
    forall k :: 0 <= k < |calls| ==> Proper(calls[k]) && (calls[k].Large? ==> calls[k].size > room)
  }

  /** The fields after these calls, from a connection as it is made. */
  function FieldsOf(calls: seq<Call>): (f: Fields)
    requires forall k :: 0 <= k < |calls| ==> Proper(calls[k])
    ensures Sound(f)
  {
    if calls == [] then Fields(0, 0) else After(FieldsOf(calls[..|calls| - 1]), calls[|calls| - 1])
  }

  // ---------- the length left behind

  /** A message that was dropped, and since then nothing but control packets. */
  predicate DroppedAt(calls: seq<Call>, k: nat) {
    k < |calls| && calls[k].Large? && calls[k].dropped
    && forall j :: k < j < |calls| ==> calls[j].Untouched? || calls[j].Control?
  }

  /**
   * What an application can check: in every run a length is left behind if and only if a message was dropped since
   * which nothing but control packets was built. No packet within the buffer has that length.
   */
  lemma {:induction false} LengthLeftExactly(calls: seq<Call>, room: nat)
    requires AllProper(calls, room)
    ensures FieldsOf(calls).total != 0 <==> exists k: nat :: DroppedAt(calls, k)
    ensures FieldsOf(calls).total == 0 || FieldsOf(calls).total > room
    decreases |calls|
  {
    if calls != [] {
      var k := |calls| - 1;
      LengthLeftExactly(calls[..k], room);
      if calls[k].Untouched? || calls[k].Control? {
        forall j: nat ensures DroppedAt(calls, j) <==> DroppedAt(calls[..k], j) {
          SameDropped(calls, k, j);
        }
      } else if calls[k].Large? && calls[k].dropped {
        assert DroppedAt(calls, k);
      }
    }
  }

  lemma SameDropped(calls: seq<Call>, k: nat, j: nat)
    requires k == |calls| - 1 && (calls[k].Untouched? || calls[k].Control?)
    ensures DroppedAt(calls, j) <==> DroppedAt(calls[..k], j)
  {
    assert forall i :: 0 <= i < k ==> calls[..k][i] == calls[i];
  }

  /** In every run a control packet within the buffer states its true length if and only if nothing was left behind. */
  lemma ControlPacketsExactly(calls: seq<Call>, room: nat, kind: int, qos: int, body: seq<byte>)
    requires AllProper(calls, room) && GAP + |body| <= room < V.LIMIT
    ensures var p := Headed(kind, qos, 0, Claimed(FieldsOf(calls).total, |body|), body);
            TotalLength(p) == |p| <==> !exists k: nat :: DroppedAt(calls, k)
  {
    LengthLeftExactly(calls, room);
    HonestExactly(kind, qos, FieldsOf(calls).total, body);
  }

  // ---------- the offset left behind

  /** These calls leave the offset as it is, or lower it. */
  predicate OnlyLowers(c: Call) {
    c.Untouched? || c.Control? || (c.Whole? && !c.begun)
  }

  /** A large message whose buffer was not written; since then no request, no connection and no publish sent. */
  predicate UnwrittenAt(calls: seq<Call>, k: nat) {
    k < |calls| && calls[k].Large? && !calls[k].begun && forall j :: k < j < |calls| ==> OnlyLowers(calls[j])
  }

  /** What the packets built after the k-th call took off the offset. */
  function Lowered(calls: seq<Call>, k: nat): nat
    requires k < |calls| && forall j :: 0 <= j < |calls| ==> Proper(calls[j])
    decreases |calls|
  {
    var n := |calls| - 1;
    assert Proper(calls[n]);
    if k == n then 0
    else
      Lowered(calls[..n], k)
      + match calls[n]
        case Control(body) => Unused(Claimed(FieldsOf(calls[..n]).total, body))
        case Whole(size, _) => Unused(size - GAP)
        case _ => 0
  }

  /** Where the payload of the k-th call's message stands in what its buffer was to write. */
  function PayloadAt(c: Call): int
    requires Proper(c) && c.Large?
  {
    c.header - Unused(c.size - GAP)
  }

  lemma {:induction false} OffsetLeft(calls: seq<Call>, k: nat)
    requires (forall j :: 0 <= j < |calls| ==> Proper(calls[j])) && UnwrittenAt(calls, k)
    ensures FieldsOf(calls).offset == PayloadAt(calls[k]) - Lowered(calls, k)
    decreases |calls|
  {
    var n := |calls| - 1;
    if k < n {
      assert forall j :: 0 <= j < n ==> calls[..n][j] == calls[j];
      OffsetLeft(calls[..n], k);
    }
  }

  lemma {:induction false} NoOffsetLeft(calls: seq<Call>)
    requires (forall j :: 0 <= j < |calls| ==> Proper(calls[j])) && forall k: nat :: !UnwrittenAt(calls, k)
    ensures FieldsOf(calls).offset <= 0
    decreases |calls|
  {
    if calls != [] {
      var n := |calls| - 1;
      if OnlyLowers(calls[n]) {
        forall k: nat ensures !UnwrittenAt(calls[..n], k) {
          assert !UnwrittenAt(calls, k);
          assert forall i :: 0 <= i < n ==> calls[..n][i] == calls[i];
        }
        NoOffsetLeft(calls[..n]);
      } else {
        assert !UnwrittenAt(calls, n);
      }
    }
  }

  /** What is left of the offset of an unwritten large message lies beyond this. */
  predicate LeftBeyond(calls: seq<Call>, k: nat, header: nat)
    requires forall j :: 0 <= j < |calls| ==> Proper(calls[j])
  {
    UnwrittenAt(calls, k) && PayloadAt(calls[k]) - Lowered(calls, k) > header
  }

  /**
   * In every run a publish that fits the buffer would write bytes beyond its packet if and only if a large message was
   * left unwritten, nothing since has reset the offset, and what later packets took off it leaves it beyond the end of
   * the publish's own header.
   */
  lemma ExcessExactly(calls: seq<Call>, header: nat)
    requires forall j :: 0 <= j < |calls| ==> Proper(calls[j])
    ensures FieldsOf(calls).offset > header <==> exists k: nat :: LeftBeyond(calls, k, header)
  {
    if k: nat :| LeftBeyond(calls, k, header) {
      OffsetLeft(calls, k);
    } else if k: nat :| UnwrittenAt(calls, k) {
      OffsetLeft(calls, k);
      assert !LeftBeyond(calls, k, header);
    } else {
      NoOffsetLeft(calls);
    }
  }
}
