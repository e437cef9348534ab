/** mqtt_client.c: packets out of a byte stream that arrives in pieces. */
module Receiver {
  import opened Bytes
  import opened Network
  import opened Parse3
  import V = VarInt

  /** The transport, seen from the reading side. */
  class Source {
    const network: Answers
    var incoming: seq<byte>
    /** Reads so far. */
    var asked: nat

    constructor (incoming: seq<byte>, network: Answers)
      ensures this.incoming == incoming && this.network == network && asked == 0
    {
      this.incoming, this.network, asked := incoming, network, 0;
    }

    method Read(dst: array<byte>, at: nat, n: nat) returns (ret: int)
      requires n > 0 && at + n <= dst.Length
      modifies this, dst
      ensures asked == old(asked) + 1 && ret == Given(network(old(asked)), n, |old(incoming)|)
      ensures var got := if ret > 0 then ret else 0;
              && incoming == old(incoming)[got..]
              && dst[..at + got] == old(dst[..at]) + old(incoming)[..got]
    {
      ret := Given(network(asked), n, |incoming|);
      asked := asked + 1;
      if ret > 0 {
        ghost var before := dst[..at];
        forall k | 0 <= k < ret {
          dst[at + k] := incoming[k];
        }
        assert dst[..at + ret] == before + incoming[..ret];
        incoming := incoming[ret..];
      } else {
        assert dst[..at + 0] == dst[..at] + incoming[..0];
      }
    }
  }

  /** A complete packet: legal flags, a length spelt with at most four bytes, and as many bytes as it says. */
  predicate Good(p: seq<byte>) {
    && p != [] && ValidHeader(p[0])
    && FixedLength(p) <= |p| && p[FixedLength(p) - 1] < 128 && FixedLength(p) > 1
    && TotalLength(p) == |p|
  }

  /**
   * Resumed with n bytes read, which hold the whole header, the reading of length bytes goes on through the body and
   * beyond the packet.
   */
  predicate Misled(p: seq<byte>, n: nat) {
    FixedLength(p) <= n < |p| <= 5 && forall j :: n - 1 <= j < |p| ==> p[j] >= 128
  }

  /** The test that resumes the reading of length bytes cannot be misled by the body of this packet. */
  predicate Safe(p: seq<byte>) {
    |p| >= 6 || |p| < 4 || p[|p| - 2] < 128 || p[|p| - 1] < 128
  }

  lemma SafeExactly(p: seq<byte>)
    requires Good(p)
    ensures Safe(p) <==> forall n: nat :: !Misled(p, n)
  {
    if !Safe(p) {
      assert FixedLength(p) != |p|;
      assert Misled(p, |p| - 1);
    }
  }

  /** Among the packets that are nothing but an id, those are not safe whose id has the top bit set in both bytes. */
  lemma AckSafety(first: byte, hi: byte, lo: byte)
    requires ValidHeader(first)
    ensures var p := [first, 2, hi, lo]; Good(p) && (Safe(p) <==> hi < 128 || lo < 128)
  {
    OneByteLength([first, 2, hi, lo]);
  }

  lemma OneByteLength(p: seq<byte>)
    requires |p| >= 2 && p[1] < 128
    ensures FixedLength(p) == 2 && TotalLength(p) == 2 + p[1]
  {
    assert Tail(p)[0] == p[1];
  }

  // ---------- lengths depend on the header alone

  lemma {:induction false} SpanPrefix(s: seq<byte>, t: seq<byte>, max: nat)
    requires var k := V.Span(s, max); 0 < k <= |t| && s[k - 1] < 128 && t[..k] == s[..k]
    ensures V.Span(t, max) == V.Span(s, max) && V.Value(t, max) == V.Value(s, max)
  {
    assert t[0] == t[..V.Span(s, max)][0];
    if s[0] >= 128 {
      var k := V.Span(s, max);
      assert t[1..][..k - 1] == t[..k][1..] == s[..k][1..] == s[1..][..k - 1];
      SpanPrefix(s[1..], t[1..], max - 1);
    }
  }

  lemma SameHeader(p: seq<byte>, a: seq<byte>)
    requires p != [] && 1 < FixedLength(p) <= |p| && p[FixedLength(p) - 1] < 128
    requires FixedLength(p) <= |a| && a[..FixedLength(p)] == p[..FixedLength(p)]
    ensures FixedLength(a) == FixedLength(p) && TotalLength(a) == TotalLength(p)
  {
    var f := FixedLength(p);
    assert Tail(a)[..f - 1] == a[..f][1..] == p[..f][1..] == Tail(p)[..f - 1];
    assert Tail(p)[f - 2] == p[f - 1];
    SpanPrefix(Tail(p), Tail(a), 4);
  }

  /** Whoever has read the header of a good packet knows its length. */
  lemma LengthKnown(p: seq<byte>, a: seq<byte>)
    requires Good(p) && FixedLength(p) <= |a| && a[..FixedLength(p)] == p[..FixedLength(p)]
    ensures FixedLength(a) == FixedLength(p) && TotalLength(a) == |p|
  {
    SameHeader(p, a);
  }

  /** All length bytes but the last have the top bit set. */
  lemma {:induction false} SpanBits(s: seq<byte>, max: nat, k: nat)
    requires k + 1 < V.Span(s, max)
    ensures s[k] >= 128
  {
    if k > 0 {
      SpanBits(s[1..], max - 1, k - 1);
    }
  }

  // ---------- the test that resumes the length

  /** The length bytes are read on from start as the loop does, and n bytes are there now. */
  predicate ReadOn(q: seq<byte>, start: nat, n: nat) {
    && 1 <= start <= n <= |q|
    && (n > start ==> n <= 6)
    && forall j :: 0 < j && start - 1 <= j < n - 1 ==> q[j] >= 128
  }

  /** The loop is done, or was not needed. */
  predicate Ended(q: seq<byte>, start: nat, n: nat) {
    ReadOn(q, start, n) && n > 1 && (n >= 6 || q[n - 1] < 128)
  }

  /** The loop stopped because nothing came. */
  predicate Halted(q: seq<byte>, start: nat, n: nat) {
    ReadOn(q, start, n) && n < 6 && (n == 1 || q[n - 1] >= 128)
  }

  /** Resumed within a good packet, the loop ends behind the header, and beyond the packet only if it is misled. */
  lemma HeaderDone(p: seq<byte>, q: seq<byte>, start: nat, n: nat)
    requires Good(p) && p <= q && start < |p| && Ended(q, start, n)
    ensures FixedLength(p) <= n && (n > |p| <==> Misled(p, start))
  {
    HeaderBits(p);
    assert forall k :: 0 <= k < |p| ==> q[k] == p[k];
    if n > |p| {
      Beyond(p, q, start, n);
    }
  }

  /** If the loop stops for lack of bytes, the packet is not complete, unless the loop was misled. */
  lemma NotYet(p: seq<byte>, q: seq<byte>, start: nat, n: nat)
    requires Good(p) && p <= q && start < |p| && Halted(q, start, n)
    ensures n < |p| || Misled(p, start)
  {
    assert forall k :: 0 <= k < |p| ==> q[k] == p[k];
    if n > |p| {
      Beyond(p, q, start, n);
    } else if n == |p| {
      assert q[FixedLength(p) - 1] == p[FixedLength(p) - 1];
      assert forall j :: 0 < j && start - 1 <= j < |p| ==> p[j] >= 128;
    }
  }

  lemma HeaderBits(p: seq<byte>)
    requires Good(p)
    ensures forall k :: 1 <= k < FixedLength(p) - 1 ==> p[k] >= 128
  {
    forall k | 1 <= k < FixedLength(p) - 1 ensures p[k] >= 128 {
      SpanBits(Tail(p), 4, k - 1);
    }
  }

  /** Bytes beyond the packet are read only if the body misled the loop. */
  lemma Beyond(p: seq<byte>, q: seq<byte>, start: nat, n: nat)
    requires Good(p) && p <= q && start < |p| && ReadOn(q, start, n) && n > |p|
    ensures Misled(p, start)
  {
    assert forall k :: 0 <= k < |p| ==> q[k] == p[k];
    assert q[FixedLength(p) - 1] == p[FixedLength(p) - 1];
    assert forall j :: 0 < j && start - 1 <= j < |p| ==> p[j] >= 128;
  }

  // ---------- mqtt_message_receive

  /** esp_mqtt_handle_transport_read_error: a time-out is no failure, but is told apart in the middle of a message. */
  function ErrorCode(ret: int, midMessage: bool): int {
    if ret == 0 then if midMessage then -1 else 0 else -2
  }

  /** What a call comes to: its return code, the bytes of the stream that are in the buffer, the reads made so far. */
  datatype Outcome = Outcome(code: int, at: nat, asked: nat)

  /** The message length a call sets; 0 if it did not get that far. */
  function LengthSet(net: Answers, asked: nat, q: seq<byte>, n: nat): nat
    requires n <= |q|
  {
    if n == 0 && (Given(net(asked), 1, |q|) <= 0 || !ValidHeader(q[0])) then 0
    else
      var l := if n == 0 then LengthOf(net, asked + 1, q, 1) else LengthOf(net, asked, q, n);
      if l.code == 1 then TotalLength(q[..l.at]) else 0
  }

  /** One read for all that is missing. */
  function RestOf(net: Answers, asked: nat, q: seq<byte>, at: nat, total: nat): (r: Outcome)
    requires at <= |q|
    ensures at <= r.at <= |q|
  {
    if at >= total then Outcome(1, at, asked)
    else
      var got := Given(net(asked), total - at, |q| - at);
      if got <= 0 then Outcome(ErrorCode(got, true), at, asked + 1)
      else Outcome(if at + got < total then 0 else 1, at + got, asked + 1)
  }

  /** Byte by byte, up to the end of the length bytes as the resuming test sees it. */
  function LengthOf(net: Answers, asked: nat, q: seq<byte>, at: nat): (r: Outcome)
    requires 1 <= at <= |q|
    ensures at <= r.at <= |q|
    decreases 6 - at
  {
    if at == 1 || (at < 6 && q[at - 1] >= 128) then
      var got := Given(net(asked), 1, |q| - at);
      if got <= 0 then Outcome(ErrorCode(got, true), at, asked + 1) else LengthOf(net, asked + 1, q, at + 1)
    else Outcome(1, at, asked)
  }

  /**
   * A publish larger than the buffer: the buffer is to be filled. The check for room adds up fixed header, topic and
   * id, but not the two bytes of the topic's length.
   */
  function FilledOf(net: Answers, asked: nat, q: seq<byte>, at: nat, fixed: nat, size: nat): (r: Outcome)
    requires 1 <= fixed <= at <= |q|
    ensures at <= r.at <= |q|
  {
    if at >= fixed + 2 then RoomOf(net, asked, q, at, fixed, size)
    else
      var got := Given(net(asked), at - fixed + 2, |q| - at);
      if got <= 0 then Outcome(ErrorCode(got, true), at, asked + 1)
      else if at + got < fixed + 2 then Outcome(0, at + got, asked + 1)
      else RoomOf(net, asked + 1, q, at + got, fixed, size)
  }

  function RoomOf(net: Answers, asked: nat, q: seq<byte>, at: nat, fixed: nat, size: nat): (r: Outcome)
    requires at <= |q|
    ensures at <= r.at <= |q|
  {
    if size < Announced(q, fixed) then Outcome(-2, at, asked) else RestOf(net, asked, q, at, size)
  }

  /** The length that the check for room adds up. */
  function Announced(q: seq<byte>, fixed: nat): nat {
    if fixed + 2 > |q| then 0
    else fixed + Join16(q[fixed], q[fixed + 1]) + if Qos(q[0]) > 0 then 2 else 0
  }

  /** With the length known: all of the packet, or as much of a large publish as the buffer holds. */
  function BodyOf(net: Answers, asked: nat, q: seq<byte>, at: nat, size: nat): (r: Outcome)
    requires 1 <= at <= |q|
    ensures at <= r.at <= |q|
  {
    var total, fixed := TotalLength(q[..at]), FixedLength(q[..at]);
    if total <= size then RestOf(net, asked, q, at, total)
    else if Kind(q[0]) != MSG_PUBLISH then Outcome(-2, at, asked)
    else FilledOf(net, asked, q, at, fixed, size)
  }

  function AfterFirst(net: Answers, asked: nat, q: seq<byte>, at: nat, size: nat): (r: Outcome)
    requires 1 <= at <= |q|
    ensures at <= r.at <= |q|
  {
    var l := LengthOf(net, asked, q, at);
    if l.code != 1 then l else BodyOf(net, l.asked, q, l.at, size)
  }

  /** A call with n bytes of the stream q in a buffer of this size. */
  function Receiving(net: Answers, asked: nat, q: seq<byte>, n: nat, size: nat): (r: Outcome)
    requires n <= |q|
    ensures n <= r.at <= |q|
  {
    if n > 0 then AfterFirst(net, asked, q, n, size)
    else
      var got := Given(net(asked), 1, |q|);
      if got <= 0 then Outcome(ErrorCode(got, false), 0, asked + 1)
      else if !ValidHeader(q[0]) then Outcome(-2, 1, asked + 1)
      else AfterFirst(net, asked + 1, q, 1, size)
  }

  function Concat(ps: seq<seq<byte>>): seq<byte> {
    if ps == [] then [] else ps[0] + Concat(ps[1..])
  }

  lemma FirstOf(ps: seq<seq<byte>>)
    requires ps != []
    ensures ps[0] <= Concat(ps) && Concat(ps)[|ps[0]|..] == Concat(ps[1..])
  {
  }

  // ---------- what a call does with a good packet, whatever the network answers

  /** The loop ended, each byte by a read of its own; or it stopped, and the last answer says why. */
  ghost predicate LengthDone(net: Answers, asked: nat, q: seq<byte>, at: nat, l: Outcome) {
    && at <= l.at <= |q|
    && if l.code == 1 then
         Ended(q, at, l.at) && l.asked == asked + l.at - at && Came(net, asked, l.asked)
       else
         Halted(q, at, l.at) && l.asked == asked + l.at - at + 1 && Came(net, asked, l.asked - 1)
         && var last := Given(net(l.asked - 1), 1, |q| - l.at); last <= 0 && l.code == ErrorCode(last, true)
  }

  lemma {:induction false} LengthFacts(net: Answers, asked: nat, q: seq<byte>, at: nat)
    requires 1 <= at <= |q|
    ensures LengthDone(net, asked, q, at, LengthOf(net, asked, q, at))
    decreases 6 - at
  {
    if at == 1 || (at < 6 && q[at - 1] >= 128) {
      if Given(net(asked), 1, |q| - at) > 0 {
        LengthFacts(net, asked + 1, q, at + 1);
        OneMoreByte(net, asked, q, at, LengthOf(net, asked + 1, q, at + 1));
      }
    }
  }

  lemma OneMoreByte(net: Answers, asked: nat, q: seq<byte>, at: nat, l: Outcome)
    requires 1 <= at < |q| && (at == 1 || (at < 6 && q[at - 1] >= 128)) && net(asked) > 0
    requires LengthDone(net, asked + 1, q, at + 1, l)
    ensures LengthDone(net, asked, q, at, l)
  {
  }

  /** The code that goes with the last answer when n bytes of a packet are there. */
  function CodeFor(last: int, n: nat, length: nat): int {
    if n == length then 1
    else if last < 0 then -2
    else if last == 0 then if n == 0 then 0 else -1
    else 0
  }

  /**
   * A good packet that fits the buffer comes out when its last byte has come. Until then the code tells what the last
   * read met: a failure, a time-out, or fewer bytes than were missing. Only a misled call takes bytes beyond it.
   */
  ghost predicate Exact(net: Answers, asked: nat, p: seq<byte>, n: nat, r: Outcome) {
    ExactIf(net, asked, Misled(p, n), n, |p|, r)
  }

  ghost predicate ExactIf(net: Answers, asked: nat, misled: bool, n: nat, length: nat, r: Outcome) {
    && r.asked > asked && Came(net, asked, r.asked - 1) && r.at >= n
    && (net(r.asked - 1) > 0 ==> r.at > n)
    && if misled then
         if r.code == 1 then r.at > length else r.code != 0
       else r.at <= length && r.code == CodeFor(net(r.asked - 1), r.at, length)
            && (r.code == 1 ==> net(r.asked - 1) > 0)
  }

  lemma PacketComesOut(net: Answers, asked: nat, q: seq<byte>, p: seq<byte>, n: nat, size: nat)
    requires Good(p) && p <= q && n < |p| <= size
    ensures Exact(net, asked, p, n, Receiving(net, asked, q, n, size))
    ensures Receiving(net, asked, q, n, size).code == 1 ==> LengthSet(net, asked, q, n) == |p|
  {
    if n > 0 {
      ReadOnFrom(net, asked, q, n, size);
      AfterFirstExact(net, asked, q, p, n, size);
    } else if net(asked) > 0 {
      FirstCame(net, asked, q, p, size);
      AfterFirstExact(net, asked + 1, q, p, 1, size);
      OneEarlier(net, asked, p, AfterFirst(net, asked + 1, q, 1, size));
    } else {
      NothingCame(net, asked, q, p, size);
    }
  }

  lemma ReadOnFrom(net: Answers, asked: nat, q: seq<byte>, n: nat, size: nat)
    requires 0 < n <= |q|
    ensures Receiving(net, asked, q, n, size) == AfterFirst(net, asked, q, n, size)
    ensures var l := LengthOf(net, asked, q, n);
            LengthSet(net, asked, q, n) == if l.code == 1 then TotalLength(q[..l.at]) else 0
    ensures AfterFirst(net, asked, q, n, size).code == 1 ==> LengthOf(net, asked, q, n).code == 1
  {
  }

  lemma FirstCame(net: Answers, asked: nat, q: seq<byte>, p: seq<byte>, size: nat)
    requires Good(p) && p <= q && net(asked) > 0
    ensures Receiving(net, asked, q, 0, size) == AfterFirst(net, asked + 1, q, 1, size)
    ensures var l := LengthOf(net, asked + 1, q, 1);
            LengthSet(net, asked, q, 0) == if l.code == 1 then TotalLength(q[..l.at]) else 0
    ensures AfterFirst(net, asked + 1, q, 1, size).code == 1 ==> LengthOf(net, asked + 1, q, 1).code == 1
  {
    assert q[0] == p[0];
  }

  lemma NothingCame(net: Answers, asked: nat, q: seq<byte>, p: seq<byte>, size: nat)
    requires Good(p) && p <= q && net(asked) <= 0
    ensures Exact(net, asked, p, 0, Receiving(net, asked, q, 0, size))
    ensures Receiving(net, asked, q, 0, size).code != 1
  {
  }

  lemma OneEarlier(net: Answers, asked: nat, p: seq<byte>, r: Outcome)
    requires |p| > 1 && net(asked) > 0 && Exact(net, asked + 1, p, 1, r)
    ensures Exact(net, asked, p, 0, r)
  {
  }

  /** When the receive step of the task gives the connection up. */
  predicate GivenUp(code: int, before: nat, at: nat) {
    code == -2 || (code == -1 && before == at)
  }

  /** The next of these packets, if any, has come; or it has not, and the last answer says why. */
  ghost predicate StepResult(net: Answers, asked: nat, rest: seq<seq<byte>>, n: nat, r: Outcome, length: nat) {
    && r.asked > asked && Came(net, asked, r.asked - 1)
    && (if r.code == 1 then rest != [] && length == r.at == |rest[0]|
        else r.at < if rest != [] then |rest[0]| else 1)
    && var last := net(r.asked - 1);
       && (GivenUp(r.code, n, r.at) <==> last < 0 || (last == 0 && r.at == n > 0))
       && (last > 0 ==> rest == [] || r.at > n)
  }

  lemma StepFacts(net: Answers, asked: nat, q: seq<byte>, rest: seq<seq<byte>>, n: nat, size: nat)
    requires q == Concat(rest) && n < (if rest != [] then |rest[0]| else 1) && AllFit(rest, size) && n <= |q|
    requires rest != [] ==> !Misled(rest[0], n)
    ensures StepResult(net, asked, rest, n, Receiving(net, asked, q, n, size), LengthSet(net, asked, q, n))
  {
    if rest != [] {
      FirstOf(rest);
      PacketComesOut(net, asked, q, rest[0], n, size);
    }
  }

  predicate AllFit(ps: seq<seq<byte>>, size: nat) {
    forall k :: 0 <= k < |ps| ==> Good(ps[k]) && |ps[k]| <= size
  }

  /** What a call comes to, by the reads so far, the stream, and how much of it is in the buffer. */
  type Reading = (nat, seq<byte>, nat) -> Outcome

  function ReadingOf(net: Answers, size: nat): Reading {
    (asked: nat, q: seq<byte>, n: nat) =>
      if n <= |q| then Receiving(net, asked, q, n, size) else Outcome(0, n, asked)
  }

  /** The trigger keeps the definition out of proofs that do not speak of it. */
  ghost predicate Reads(reading: Reading, net: Answers, size: nat) {
    forall asked: nat, q: seq<byte>, n: nat {:trigger Receiving(net, asked, q, n, size)} ::
      n <= |q| ==> reading(asked, q, n) == Receiving(net, asked, q, n, size)
  }

  lemma ReadingReads(net: Answers, size: nat)
    ensures Reads(ReadingOf(net, size), net, size)
  {
  }

  /**
   * None of so many receive steps is misled, as these readings cut the stream of these packets, n bytes of which were
   * read; steps after the connection was given up aside.
   */
  predicate NoneMisled(reading: Reading, asked: nat, rest: seq<seq<byte>>, n: nat, steps: nat)
    decreases steps
  {
    steps > 0 && rest != [] && n < |rest[0]| ==>
      && !Misled(rest[0], n)
      && var r := reading(asked, Concat(rest), n);
         if GivenUp(r.code, n, r.at) then true
         else if r.code == 1 then NoneMisled(reading, r.asked, rest[1..], 0, steps - 1)
         else NoneMisled(reading, r.asked, rest, r.at, steps - 1)
  }

  /** Among safe packets no call is misled, however they are read. */
  lemma {:induction false} SafeNeverMisled(reading: Reading, asked: nat, rest: seq<seq<byte>>, n: nat, steps: nat)
    requires forall k :: 0 <= k < |rest| ==> Good(rest[k]) && Safe(rest[k])
    ensures NoneMisled(reading, asked, rest, n, steps)
    decreases steps
  {
    if steps > 0 && rest != [] && n < |rest[0]| {
      SafeExactly(rest[0]);
      var r := reading(asked, Concat(rest), n);
      SafeNeverMisled(reading, r.asked, rest[1..], 0, steps - 1);
      SafeNeverMisled(reading, r.asked, rest, r.at, steps - 1);
    }
  }

  /** The hypothesis for the steps after the first. */
  lemma NextNotMisled(reading: Reading, asked: nat, rest: seq<seq<byte>>, n: nat, steps: nat, next: seq<seq<byte>>,
                      at: nat)
    requires steps > 0 && NoneMisled(reading, asked, rest, n, steps)
    requires n < if rest != [] then |rest[0]| else 1
    requires var r := reading(asked, Concat(rest), n);
             && (rest == [] ==> next == []) && !GivenUp(r.code, n, r.at)
             && (if r.code == 1 && rest != [] then next == rest[1..] && at == 0 else next == rest && at == r.at)
    ensures NoneMisled(reading, reading(asked, Concat(rest), n).asked, next, at, steps - 1)
  {
  }

  lemma AfterFirstExact(net: Answers, asked: nat, q: seq<byte>, p: seq<byte>, n: nat, size: nat)
    requires Good(p) && p <= q && 1 <= n < |p| <= size
    ensures Exact(net, asked, p, n, AfterFirst(net, asked, q, n, size))
    ensures var l := LengthOf(net, asked, q, n); l.code == 1 ==> TotalLength(q[..l.at]) == |p|
  {
    LengthFacts(net, asked, q, n);
    var l := LengthOf(net, asked, q, n);
    if l.code == 1 {
      HeaderDone(p, q, n, l.at);
      LengthSeen(p, q, l.at);
      RestExact(net, asked, l.asked, q, n, l.at, |p|);
    } else {
      NotYet(p, q, n, l.at);
      HaltedExact(net, asked, q, n, l, |p|, Misled(p, n));
    }
  }

  lemma HaltedExact(net: Answers, asked: nat, q: seq<byte>, n: nat, l: Outcome, length: nat, misled: bool)
    requires n <= l.at <= |q| && l.asked == asked + l.at - n + 1 && Came(net, asked, l.asked - 1) && 1 <= n
    requires var last := Given(net(l.asked - 1), 1, |q| - l.at); last <= 0 && l.code == ErrorCode(last, true)
    requires n < length <= |q| && (l.at < length || misled)
    ensures ExactIf(net, asked, misled, n, length, l)
  {
  }

  /** The length bytes took as many reads as they are; then comes the rest. */
  lemma RestExact(net: Answers, from: nat, asked: nat, q: seq<byte>, n: nat, at: nat, total: nat)
    requires asked - from == at - n >= 0 && Came(net, from, asked) && 1 <= n < total <= |q| && at <= |q|
    ensures ExactIf(net, from, at > total, n, total, RestOf(net, asked, q, at, total))
  {
  }

  lemma LengthSeen(p: seq<byte>, q: seq<byte>, at: nat)
    requires Good(p) && p <= q && FixedLength(p) <= at <= |q|
    ensures TotalLength(q[..at]) == |p| && FixedLength(q[..at]) == FixedLength(p)
  {
    assert q[..at][..FixedLength(p)] == p[..FixedLength(p)];
    LengthKnown(p, q[..at]);
  }

  /** A first byte that no packet may begin with makes the call fail. */
  lemma IllegalFirst(net: Answers, asked: nat, q: seq<byte>, size: nat)
    requires q != [] && net(asked) > 0 && !ValidHeader(q[0])
    ensures Receiving(net, asked, q, 0, size) == Outcome(-2, 1, asked + 1)
  {
  }

  /**
   * If every read brings all that was asked for, one call receives a packet that fits, with a read for each byte of the
   * fixed header and one for the rest.
   */
  lemma OneCall(net: Answers, asked: nat, q: seq<byte>, p: seq<byte>, size: nat)
    requires Good(p) && p <= q && |p| <= size && forall j :: j >= asked ==> net(j) >= size
    ensures Receiving(net, asked, q, 0, size)
            == Outcome(1, |p|, asked + FixedLength(p) + if |p| > FixedLength(p) then 1 else 0)
  {
    FirstCame(net, asked, q, p, size);
    HeaderIsRead(net, asked + 1, q, p, size);
    LengthSeen(p, q, FixedLength(p));
  }

  lemma HeaderIsRead(net: Answers, asked: nat, q: seq<byte>, p: seq<byte>, size: nat)
    requires Good(p) && p <= q && |p| <= size && forall j :: j >= asked ==> net(j) >= size
    ensures LengthOf(net, asked, q, 1) == Outcome(1, FixedLength(p), asked + FixedLength(p) - 1)
  {
    LengthFacts(net, asked, q, 1);
    var l := LengthOf(net, asked, q, 1);
    assert q[FixedLength(p) - 1] == p[FixedLength(p) - 1];
    if l.code == 1 {
      HeaderDone(p, q, 1, l.at);
    } else {
      NotYet(p, q, 1, l.at);
    }
  }

  /** A publish larger than the buffer that the check for room lets through; no other packet may be larger. */
  predicate HasRoom(p: seq<byte>, size: nat) {
    p != [] && Kind(p[0]) == MSG_PUBLISH && Announced(p, FixedLength(p)) <= size
  }

  /** The buffer is filled, or the code says what stopped it: no room, a failure, a time-out, or a short read. */
  ghost predicate FillsExactly(net: Answers, asked: nat, p: seq<byte>, n: nat, size: nat, r: Outcome) {
    Fills(net, asked, HasRoom(p, size), n, size, r)
  }

  ghost predicate Fills(net: Answers, asked: nat, room: bool, n: nat, size: nat, r: Outcome) {
    && r.at <= size && r.code in {-2, -1, 0, 1} && (r.code == 1 <==> room && r.at == size)
    && (r.code == -2 ==> !room || (r.asked > asked && net(r.asked - 1) < 0))
    && (r.code == -1 ==> r.asked > asked && net(r.asked - 1) == 0)
    && (r.code == 0 ==> r.asked > asked && if r.at == 0 then net(asked) == 0 else net(r.asked - 1) > 0 && r.at > n)
  }

  lemma LargeFills(net: Answers, asked: nat, q: seq<byte>, p: seq<byte>, n: nat, size: nat)
    requires Good(p) && p <= q && 16 <= size < |p| && n <= size
    ensures FillsExactly(net, asked, p, n, size, Receiving(net, asked, q, n, size))
  {
    assert q[0] == p[0];
    if n > 0 {
      LargeAfterFirst(net, asked, q, p, n, size);
    } else if net(asked) > 0 {
      LargeAfterFirst(net, asked + 1, q, p, 1, size);
    }
  }

  lemma LargeAfterFirst(net: Answers, asked: nat, q: seq<byte>, p: seq<byte>, n: nat, size: nat)
    requires Good(p) && p <= q && 16 <= size < |p| && 1 <= n <= size
    ensures FillsExactly(net, asked, p, n, size, AfterFirst(net, asked, q, n, size))
  {
    LengthFacts(net, asked, q, n);
    var l := LengthOf(net, asked, q, n);
    if l.code == 1 {
      HeaderDone(p, q, n, l.at);
      LengthSeen(p, q, l.at);
      LargeBody(net, l.asked, q, p, l.at, size);
    } else {
      NotYet(p, q, n, l.at);
    }
  }

  lemma LargeBody(net: Answers, asked: nat, q: seq<byte>, p: seq<byte>, at: nat, size: nat)
    requires Good(p) && p <= q && 16 <= size < |p| && FixedLength(p) <= at <= size
    ensures FillsExactly(net, asked, p, at, size, BodyOf(net, asked, q, at, size))
  {
    LengthSeen(p, q, at);
    SameAnnounced(p, q, FixedLength(p));
    BufferFills(net, asked, q, at, FixedLength(p), size);
  }

  lemma SameAnnounced(p: seq<byte>, q: seq<byte>, fixed: nat)
    requires p <= q && fixed + 2 <= |p|
    ensures Announced(q, fixed) == Announced(p, fixed) && Kind(q[0]) == Kind(p[0])
  {
    assert q[0] == p[0] && q[fixed] == p[fixed] && q[fixed + 1] == p[fixed + 1];
  }

  lemma BufferFills(net: Answers, asked: nat, q: seq<byte>, at: nat, fixed: nat, size: nat)
    requires 1 <= fixed <= 5 && fixed <= at <= size < |q| && 16 <= size
    ensures Fills(net, asked, Announced(q, fixed) <= size, at, size, FilledOf(net, asked, q, at, fixed, size))
  {
    if at >= fixed + 2 {
      RoomFills(net, asked, q, at, fixed, size);
    } else {
      var got := Given(net(asked), at - fixed + 2, |q| - at);
      if got > 0 && at + got >= fixed + 2 {
        RoomFills(net, asked + 1, q, at + got, fixed, size);
      }
    }
  }

  lemma RoomFills(net: Answers, asked: nat, q: seq<byte>, at: nat, fixed: nat, size: nat)
    requires 0 < at <= size < |q|
    ensures Fills(net, asked, Announced(q, fixed) <= size, at, size, RoomOf(net, asked, q, at, fixed, size))
  {
  }

  class Receiver {
    const buffer: array<byte>
    const source: Source
    var readLen: nat
    var messageLength: nat
    /** The bytes read and not yet handled, and those to come. */
    ghost var stream: seq<byte>

    ghost predicate Valid()
      reads this`readLen, this`stream, buffer, source
    {
      buffer.Length >= 16 && readLen <= buffer.Length && stream == buffer[..readLen] + source.incoming
    }

    constructor (size: nat, source: Source)
      requires size >= 16
      ensures Valid() && fresh(buffer) && buffer.Length == size && this.source == source
      ensures readLen == 0 && stream == source.incoming
    {
      buffer := new byte[size](_ => 0);
      this.source := source;
      readLen, messageLength := 0, 0;
      stream := source.incoming;
      new;
      assert buffer[..0] + source.incoming == source.incoming;
    }

    method ReadMore(n: nat) returns (ret: int)
      requires Valid() && n > 0 && readLen + n <= buffer.Length
      modifies this`readLen, buffer, source
      ensures Valid() && source.asked == old(source.asked) + 1
      ensures ret == Given(source.network(old(source.asked)), n, |stream| - old(readLen))
      ensures readLen == old(readLen) + if ret > 0 then ret else 0
    {
      ret := source.Read(buffer, readLen, n);
      ghost var got := if ret > 0 then ret else 0;
      assert buffer[..readLen + got] + source.incoming == stream by {
        Shifted(old(buffer[..readLen]), old(source.incoming), got);
      }
      if ret > 0 {
        readLen := readLen + ret;
      }
    }

    static lemma Shifted(a: seq<byte>, b: seq<byte>, n: nat)
      requires n <= |b|
      ensures a + b[..n] + b[n..] == a + b
    {
    }

    /** The bytes of the remaining length, if they were not all read. */
    method ReadLength() returns (code: int)
      requires Valid() && readLen >= 1
      modifies this`readLen, buffer, source
      ensures Valid()
      ensures Outcome(code, readLen, source.asked)
              == LengthOf(source.network, old(source.asked), stream, old(readLen))
    {
      if readLen == 1 || (readLen < 6 && buffer[readLen - 1] >= 128) {
        while true
          invariant Valid() && 1 <= readLen < 6 && (readLen == 1 || stream[readLen - 1] >= 128)
          invariant LengthOf(source.network, source.asked, stream, readLen)
                    == LengthOf(source.network, old(source.asked), stream, old(readLen))
          decreases 6 - readLen
        {
          var ret := ReadMore(1);
          if ret <= 0 { return ErrorCode(ret, true); }
          if readLen >= 6 || buffer[readLen - 1] < 128 { return 1; }
        }
      }
      return 1;
    }

    method ReadFirst() returns (code: int)
      requires Valid() && readLen == 0
      modifies this`readLen, buffer, source
      ensures Valid() && source.asked == old(source.asked) + 1
      ensures var got := Given(source.network(old(source.asked)), 1, |stream|);
              if got <= 0 then code == ErrorCode(got, false) && readLen == 0
              else readLen == 1 && code == if ValidHeader(stream[0]) then 1 else -2
    {
      var ret := ReadMore(1);
      if ret <= 0 { return ErrorCode(ret, false); }
      if !ValidHeader(buffer[0]) { return -2; }
      return 1;
    }

    /** The rest of the message, or of the part of it that is wanted. */
    method ReadRest(total: nat) returns (code: int)
      requires Valid() && total <= buffer.Length
      modifies this`readLen, buffer, source
      ensures Valid()
      ensures Outcome(code, readLen, source.asked)
              == RestOf(source.network, old(source.asked), stream, old(readLen), total)
    {
      if readLen < total {
        var ret := ReadMore(total - readLen);
        if ret <= 0 { return ErrorCode(ret, true); }
        if readLen < total { return 0; }
      }
      return 1;
    }

    method FillBuffer(fixed: nat) returns (code: int)
      requires Valid() && 1 <= fixed <= readLen && fixed <= 5
      modifies this`readLen, buffer, source
      ensures Valid()
      ensures Outcome(code, readLen, source.asked)
              == FilledOf(source.network, old(source.asked), stream, old(readLen), fixed, buffer.Length)
    {
      if readLen < fixed + 2 {
        var ret := ReadMore(readLen - fixed + 2);
        if ret <= 0 { return ErrorCode(ret, true); }
        if readLen < fixed + 2 { return 0; }
      }
      assert stream[fixed] == buffer[fixed] && stream[fixed + 1] == buffer[fixed + 1] && stream[0] == buffer[0];
      var needed := fixed + Join16(buffer[fixed], buffer[fixed + 1]) + if Qos(buffer[0]) > 0 then 2 else 0;
      assert needed == Announced(stream, fixed);
      if buffer.Length < needed { return -2; }
      code := ReadRest(buffer.Length);
    }

    method ReceiveBody() returns (code: int)
      requires Valid() && readLen >= 1
      modifies this`readLen, this`messageLength, buffer, source
      ensures Valid() && messageLength == TotalLength(stream[..old(readLen)])
      ensures Outcome(code, readLen, source.asked)
              == BodyOf(source.network, old(source.asked), stream, old(readLen), buffer.Length)
    {
      assert buffer[..readLen] == stream[..readLen];
      var total, fixed := GetTotalLength(buffer[..readLen]);
      messageLength := total;
      if buffer.Length < total {
        if Kind(buffer[0]) != MSG_PUBLISH { return -2; }
        code := FillBuffer(fixed);
      } else {
        code := ReadRest(total);
      }
    }

    method ReceiveMore() returns (code: int)
      requires Valid() && readLen >= 1 && messageLength == 0
      modifies this`readLen, this`messageLength, buffer, source
      ensures Valid()
      ensures Outcome(code, readLen, source.asked)
              == AfterFirst(source.network, old(source.asked), stream, old(readLen), buffer.Length)
      ensures var l := LengthOf(source.network, old(source.asked), stream, old(readLen));
              messageLength == if l.code == 1 then TotalLength(stream[..l.at]) else 0
    {
      code := ReadLength();
      if code != 1 { return; }
      code := ReceiveBody();
    }

    /** mqtt_message_receive. */
    method Receive() returns (code: int)
      requires Valid()
      modifies this`readLen, this`messageLength, buffer, source
      ensures Valid()
      ensures Outcome(code, readLen, source.asked)
              == Receiving(source.network, old(source.asked), stream, old(readLen), buffer.Length)
      ensures messageLength == LengthSet(source.network, old(source.asked), stream, old(readLen))
    {
      messageLength := 0;
      if readLen == 0 {
        code := ReadFirst();
        if code != 1 { return; }
      }
      code := ReceiveMore();
    }

    /** What is in the buffer is forgotten: the next byte from the network is the first of another message. */
    method Forget()
      requires buffer.Length >= 16
      modifies this`readLen, this`stream
      ensures Valid() && readLen == 0 && stream == source.incoming
    {
      readLen, stream := 0, source.incoming;
      assert buffer[..0] + source.incoming == source.incoming;
    }

    /** The message is done with: the next byte is the first of another one. */
    method Take()
      requires Valid()
      modifies this`readLen, this`stream
      ensures Valid() && readLen == 0 && stream == old(stream)[old(readLen)..]
    {
      assert stream[readLen..] == source.incoming;
      Forget();
    }

    /** The message being received is the next of these, and not complete. */
    ghost predicate Within(rest: seq<seq<byte>>)
      reads this`readLen, this`stream
    {
      stream == Concat(rest) && readLen < if rest != [] then |rest[0]| else 1
    }

    /** A call, as this reading says. */
    method ReceiveAs(ghost reading: Reading, ghost rest: seq<seq<byte>>) returns (code: int)
      requires Valid() && Reads(reading, source.network, buffer.Length)
      requires Within(rest) && AllFit(rest, buffer.Length) && (rest != [] ==> !Misled(rest[0], readLen))
      modifies this`readLen, this`messageLength, buffer, source
      ensures Valid() && Outcome(code, readLen, source.asked) == reading(old(source.asked), stream, old(readLen))
      ensures StepResult(source.network, old(source.asked), rest, old(readLen), Outcome(code, readLen, source.asked),
                         messageLength)
    {
      StepFacts(source.network, source.asked, stream, rest, readLen, buffer.Length);
      code := Receive();
    }

    /** The first of these packets is in the buffer. */
    method TakeFirst(ghost rest: seq<seq<byte>>) returns (packet: seq<byte>)
      requires Valid() && rest != [] && stream == Concat(rest) && AllFit(rest, buffer.Length)
      requires messageLength == readLen == |rest[0]|
      modifies this`readLen, this`stream
      ensures Valid() && Within(rest[1..]) && readLen == 0 && packet == rest[0]
    {
      FirstOf(rest);
      assert buffer[..messageLength] == stream[..messageLength];
      packet := buffer[..messageLength];
      Take();
    }

    /**
     * The receive step of the task. The connection is given up if and only if the last read failed, or timed out in the
     * middle of a message of which the step brought nothing.
     */
    method ReceiveStep(ghost reading: Reading, ghost rest: seq<seq<byte>>)
      returns (got: bool, packet: seq<byte>, ok: bool, ghost next: seq<seq<byte>>)
      requires Valid() && Reads(reading, source.network, buffer.Length)
      requires Within(rest) && AllFit(rest, buffer.Length) && (rest != [] ==> !Misled(rest[0], readLen))
      modifies this, buffer, source
      ensures Valid() && Within(next) && AllFit(next, buffer.Length) && source.asked > old(source.asked)
      ensures if got then rest == [packet] + next && readLen == 0 else next == rest
      ensures Came(source.network, old(source.asked), source.asked - 1)
      ensures var last := source.network(source.asked - 1);
              && (!ok <==> last < 0 || (last == 0 && readLen == old(readLen) > 0))
              && (last > 0 ==> rest == [] || |source.incoming| < |old(source.incoming)|)
      ensures var r := reading(old(source.asked), Concat(rest), old(readLen));
              && source.asked == r.asked && (got <==> r.code == 1) && readLen == (if got then 0 else r.at)
              && (ok <==> !GivenUp(r.code, old(readLen), r.at))
    {
      var before := readLen;
      var code := ReceiveAs(reading, rest);
      got, packet, ok, next := false, [], !GivenUp(code, before, readLen), rest;
      if code == 1 {
        got, next := true, rest[1..];
        packet := TakeFirst(rest);
      }
    }

    /** What holds after n steps, from the answers since the first of them. */
    ghost predicate Progress(from: nat, n: nat, ok: bool, rest: seq<seq<byte>>, total: nat)
      reads this`readLen, source
    {
      && (ok ==> source.asked >= from + n && Unbroken(source.network, from, source.asked))
      && (!ok ==> source.asked > from
                  && var last := source.network(source.asked - 1); last < 0 || (last == 0 && readLen > 0))
      && (Came(source.network, from, source.asked) ==> ok && (rest == [] || n + |source.incoming| <= total))
    }

    /**
     * The receive step repeated: however the stream of packets is cut into reads and time-outs, what comes out is every
     * packet whose last byte was read, in order, none split, joined, lost or made up, provided no call is misled. It
     * ends early only if a read failed, or timed out in the middle of a message; and if every read brings something,
     * all comes out.
     */
    method ReceiveAll(steps: nat, ghost ps: seq<seq<byte>>)
      returns (out: seq<seq<byte>>, ok: bool, ghost rest: seq<seq<byte>>)
      requires Valid() && readLen == 0 && stream == Concat(ps) && AllFit(ps, buffer.Length)
      requires NoneMisled(ReadingOf(source.network, buffer.Length), source.asked, ps, 0, steps)
      modifies this, buffer, source
      ensures Valid() && ps == out + rest && Within(rest)
      ensures ok ==> source.asked >= old(source.asked) + steps
                     && Unbroken(source.network, old(source.asked), source.asked)
      ensures !ok ==> source.asked > old(source.asked)
                      && var last := source.network(source.asked - 1); last < 0 || (last == 0 && readLen > 0)
      ensures Came(source.network, old(source.asked), source.asked) && steps >= |Concat(ps)| ==> rest == []
    {
      ghost var from, total := source.asked, |Concat(ps)|;
      NothingRead();
      if ps != [] { FirstOf(ps); }
      ReadingReads(source.network, buffer.Length);
      out, ok, rest := ReceiveOn(ReadingOf(source.network, buffer.Length), from, total, ps, steps);
      if ok && steps >= total { AllCame(from, steps, rest, total); }
    }

    lemma NothingRead()
      requires Valid() && readLen == 0
      ensures source.incoming == stream
    {
    }

    method ReceiveOn(ghost reading: Reading, ghost from: nat, ghost total: nat, ghost ps: seq<seq<byte>>, steps: nat)
      returns (out: seq<seq<byte>>, ok: bool, ghost rest: seq<seq<byte>>)
      requires Valid() && Within(ps) && AllFit(ps, buffer.Length) && Progress(from, 0, true, ps, total)
      requires Reads(reading, source.network, buffer.Length) && NoneMisled(reading, source.asked, ps, readLen, steps)
      modifies this, buffer, source
      ensures Valid() && ps == out + rest && Within(rest) && Progress(from, steps, ok, rest, total)
    {
      out, ok, rest := [], true, ps;
      var n := 0;
      ghost var left := steps;
      while n < steps && ok
        invariant Valid() && ps == out + rest && Within(rest) && AllFit(rest, buffer.Length) && n + left == steps
        invariant ok ==> NoneMisled(reading, source.asked, rest, readLen, left)
        invariant Progress(from, n, ok, rest, total)
        decreases steps - n
      {
        out, ok, rest := ReceiveNext(reading, from, n, total, ps, out, rest, left);
        n, left := n + 1, left - 1;
      }
    }

    /** One step more. */
    method ReceiveNext(ghost reading: Reading, ghost from: nat, ghost n: nat, ghost total: nat,
                       ghost ps: seq<seq<byte>>, out: seq<seq<byte>>, ghost rest: seq<seq<byte>>, ghost left: nat)
      returns (more: seq<seq<byte>>, ok: bool, ghost next: seq<seq<byte>>)
      requires Valid() && Within(rest) && AllFit(rest, buffer.Length) && Progress(from, n, true, rest, total)
      requires Reads(reading, source.network, buffer.Length) && ps == out + rest
      requires left > 0 && NoneMisled(reading, source.asked, rest, readLen, left)
      modifies this, buffer, source
      ensures Valid() && Within(next) && AllFit(next, buffer.Length) && ps == more + next
      ensures ok ==> NoneMisled(reading, source.asked, next, readLen, left - 1)
      ensures Progress(from, n + 1, ok, next, total)
    {
      ghost var asked, before := source.asked, readLen;
      var got, packet;
      got, packet, ok, next := ReceiveCounted(reading, from, n, total, rest);
      if ok { NextNotMisled(reading, asked, rest, before, left, next, readLen); }
      more := if got then out + [packet] else out;
    }

    method ReceiveCounted(ghost reading: Reading, ghost from: nat, ghost n: nat, ghost total: nat,
                          ghost rest: seq<seq<byte>>)
      returns (got: bool, packet: seq<byte>, ok: bool, ghost next: seq<seq<byte>>)
      requires Valid() && Within(rest) && AllFit(rest, buffer.Length) && Progress(from, n, true, rest, total)
      requires Reads(reading, source.network, buffer.Length) && (rest != [] ==> !Misled(rest[0], readLen))
      modifies this, buffer, source
      ensures Valid() && Within(next) && AllFit(next, buffer.Length) && Progress(from, n + 1, ok, next, total)
      ensures if got then rest == [packet] + next else next == rest
      ensures var r := reading(old(source.asked), Concat(rest), old(readLen));
              && source.asked == r.asked && (got <==> r.code == 1) && readLen == (if got then 0 else r.at)
              && (ok <==> !GivenUp(r.code, old(readLen), r.at))
    {
      ghost var asked := source.asked;
      got, packet, ok, next := ReceiveStep(reading, rest);
      OnTo(source.network, from, asked, source.asked);
    }

    lemma AllCame(from: nat, n: nat, rest: seq<seq<byte>>, total: nat)
      requires Valid() && Within(rest) && Progress(from, n, true, rest, total) && n >= total
      ensures Came(source.network, from, source.asked) ==> rest == []
    {
      if rest != [] { FirstOf(rest); }
    }
  }

  /** A PUBACK whose id has the top bit set in both bytes, and a PINGRESP behind it. */
  const MISLEADING: seq<byte> := [0x40, 2, 0x81, 0x82, 0xD0, 0]

  /** All of the PUBACK but its last byte has come when the read for its body ends. */
  lemma FirstThree(net: Answers)
    requires forall k :: 0 <= k < 6 ==> net(k) == 1
    ensures Receiving(net, 0, MISLEADING, 0, 16) == Outcome(0, 3, 3)
  {
    assert LengthOf(net, 1, MISLEADING, 1) == LengthOf(net, 2, MISLEADING, 2) == Outcome(1, 2, 2);
    OneByteLength(MISLEADING[..2]);
  }

  /** Read on byte by byte, it ends with the stream. */
  lemma LastThree(net: Answers)
    requires forall k :: 0 <= k < 6 ==> net(k) == 1
    ensures Receiving(net, 3, MISLEADING, 3, 16) == Outcome(1, 6, 6) && LengthSet(net, 3, MISLEADING, 3) == 4
  {
    assert LengthOf(net, 6, MISLEADING, 6) == Outcome(1, 6, 6);
    assert LengthOf(net, 5, MISLEADING, 5) == LengthOf(net, 6, MISLEADING, 6);
    assert LengthOf(net, 4, MISLEADING, 4) == LengthOf(net, 5, MISLEADING, 5);
    assert LengthOf(net, 3, MISLEADING, 3) == LengthOf(net, 4, MISLEADING, 4);
    OneByteLength(MISLEADING[..6]);
  }

  /** On a network that brings one byte at each read, the PINGRESP is taken for a part of the PUBACK. */
  method SwallowsPingresp(net: Answers) returns (r: Receiver, first: int, second: int)
    requires forall k :: 0 <= k < 6 ==> net(k) == 1
    ensures r.stream == MISLEADING && first == 0 && second == 1
    ensures r.messageLength == 4 && r.readLen == 6 && r.source.incoming == []
  {
    var source := new Source(MISLEADING, net);
    r := new Receiver(16, source);
    FirstThree(net);
    LastThree(net);
    first := r.Receive();
    second := r.Receive();
  }
}
