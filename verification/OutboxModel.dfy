/** The outbox as a sequence of stored packets, oldest first. */
module OutboxModel {
  import opened Bytes

  datatype Pending = Queued | Transmitted | Acknowledged | Confirmed

  /**
   * One stored packet. The serial number is not in the program: it counts the packets ever
   * stored, so that two packets that carry the same id at different times stay apart.
   */
  datatype Entry = Entry(serial: nat, id: int, kind: int, qos: int, tick: int, pending: Pending, data: seq<byte>)

  /** The four searches the outbox functions make. */
  datatype Query =
    | ById(id: int)
    | ByPending(p: Pending)
    | ByIdAndKind(id: int, kind: int)
    | Overdue(now: int, timeout: int)

  predicate Matches(e: Entry, q: Query) {
    match q
    case ById(id) => e.id == id
    case ByPending(p) => e.pending == p
    case ByIdAndKind(id, kind) => e.id == id && e.kind % 0x100 == kind
    case Overdue(now, timeout) => now - e.tick > timeout
  }

  /** Position of the first match; |s| when there is none. */
  function First(s: seq<Entry>, q: Query): (k: nat)
    ensures k <= |s|
    ensures k < |s| ==> Matches(s[k], q)
    ensures forall j :: 0 <= j < k ==> !Matches(s[j], q)
  {
    if s == [] || Matches(s[0], q) then 0 else 1 + First(s[1..], q)
  }

  function Without(s: seq<Entry>, k: nat): (r: seq<Entry>)
    requires k < |s|
  {
    s[..k] + s[k + 1..]
  }

  function DeleteFirst(s: seq<Entry>, q: Query): (r: seq<Entry>) {
    var k := First(s, q);
    if k < |s| then Without(s, k) else s
  }

  function SetPending(s: seq<Entry>, id: int, p: Pending): (r: seq<Entry>)
    ensures |r| == |s|
  {
    var k := First(s, ById(id));
    if k < |s| then s[k := s[k].(pending := p)] else s
  }

  function SetTick(s: seq<Entry>, id: int, tick: int): (r: seq<Entry>)
    ensures |r| == |s|
  {
    var k := First(s, ById(id));
    if k < |s| then s[k := s[k].(tick := tick)] else s
  }

  /** The entries that do not match, in order. */
  function Keep(s: seq<Entry>, q: Query): (r: seq<Entry>) {
    if s == [] then []
    else (if Matches(s[0], q) then [] else [s[0]]) + Keep(s[1..], q)
  }

  function Size(s: seq<Entry>): (n: nat) {
    if s == [] then 0 else |s[0].data| + Size(s[1..])
  }

  function WithDupSet(e: Entry): (r: Entry)
  {
    if e.data == [] then e else e.(data := e.data[0 := WithDup(e.data[0])])
  }

  /** DUP goes on publishes with QoS > 0 only. */
  function Marked(e: Entry): (r: Entry)
    ensures r == e.(data := r.data) && |r.data| == |e.data|
  {
    if e.kind == MSG_PUBLISH && e.qos > 0 then WithDupSet(e) else e
  }

  function CountPending(s: seq<Entry>, p: Pending): (n: nat)
    ensures n <= |s|
  {
    if s == [] then 0 else (if s[0].pending == p then 1 else 0) + CountPending(s[1..], p)
  }

  // ---------- First

  /** A position that matches, and that nothing before it matches, is the first. */
  lemma {:induction false} FirstIs(s: seq<Entry>, q: Query, k: nat)
    requires k <= |s|
    requires k < |s| ==> Matches(s[k], q)
    requires forall j :: 0 <= j < k ==> !Matches(s[j], q)
    ensures First(s, q) == k
  {
    if s != [] && !Matches(s[0], q) {
      FirstIs(s[1..], q, k - 1);
    }
  }

  // ---------- Size and counting are sums over the positions

  lemma {:induction false} SizeAppend(s: seq<Entry>, t: seq<Entry>)
    ensures Size(s + t) == Size(s) + Size(t)
  {
    if s == [] {
      assert s + t == t;
    } else {
      assert (s + t)[1..] == s[1..] + t;
      SizeAppend(s[1..], t);
    }
  }

  lemma {:induction false} SizeWithout(s: seq<Entry>, k: nat)
    requires k < |s|
    ensures Size(Without(s, k)) == Size(s) - |s[k].data|
  {
    assert s == s[..k] + [s[k]] + s[k + 1..];
    SizeAppend(s[..k], s[k + 1..]);
    SizeAppend(s[..k] + [s[k]], s[k + 1..]);
    SizeAppend(s[..k], [s[k]]);
  }

  lemma {:induction false} CountAppend(s: seq<Entry>, t: seq<Entry>, p: Pending)
    ensures CountPending(s + t, p) == CountPending(s, p) + CountPending(t, p)
  {
    if s == [] {
      assert s + t == t;
    } else {
      assert (s + t)[1..] == s[1..] + t;
      CountAppend(s[1..], t, p);
    }
  }

  lemma {:induction false} CountUpdate(s: seq<Entry>, k: nat, e: Entry, p: Pending)
    requires k < |s|
    ensures CountPending(s[k := e], p)
            == CountPending(s, p) - (if s[k].pending == p then 1 else 0) + (if e.pending == p then 1 else 0)
  {
    assert s == s[..k] + [s[k]] + s[k + 1..];
    assert s[k := e] == s[..k] + [e] + s[k + 1..];
    CountAppend(s[..k] + [s[k]], s[k + 1..], p);
    CountAppend(s[..k] + [e], s[k + 1..], p);
    CountAppend(s[..k], [s[k]], p);
    CountAppend(s[..k], [e], p);
  }

  lemma {:induction false} CountWithout(s: seq<Entry>, k: nat, p: Pending)
    requires k < |s|
    ensures CountPending(Without(s, k), p) == CountPending(s, p) - (if s[k].pending == p then 1 else 0)
  {
    assert s == s[..k] + [s[k]] + s[k + 1..];
    CountAppend(s[..k], s[k + 1..], p);
    CountAppend(s[..k] + [s[k]], s[k + 1..], p);
    CountAppend(s[..k], [s[k]], p);
  }

  // ---------- Expiry: one at a time or all at once

  lemma Regroup(a: seq<Entry>, b: seq<Entry>, c: seq<Entry>)
    ensures a + (b + c) == a + b + c
  {
  }

  lemma {:induction false} KeepAppend(s: seq<Entry>, t: seq<Entry>, q: Query)
    ensures Keep(s + t, q) == Keep(s, q) + Keep(t, q)
  {
    if s == [] {
      assert s + t == t;
    } else {
      assert (s + t)[1..] == s[1..] + t;
      KeepAppend(s[1..], t, q);
      Regroup(if Matches(s[0], q) then [] else [s[0]], Keep(s[1..], q), Keep(t, q));
    }
  }

  /** A walk that deletes the matches, at position k. */
  function Walked(s: seq<Entry>, k: nat, q: Query): (r: seq<Entry>)
    requires k <= |s|
  {
    s[..k] + Keep(s[k..], q)
  }

  /** One step of it. */
  lemma KeepStep(s: seq<Entry>, k: nat, q: Query)
    requires k < |s|
    ensures if Matches(s[k], q) then Walked(Without(s, k), k, q) == Walked(s, k, q)
            else Walked(s, k + 1, q) == Walked(s, k, q)
  {
    assert s[k..][1..] == s[k + 1..];
    assert Without(s, k)[k..] == s[k + 1..] && Without(s, k)[..k] == s[..k];
    assert s[..k + 1] == s[..k] + [s[k]];
  }

  /** From the start to the end. */
  lemma Walks(s: seq<Entry>, q: Query)
    ensures Walked(s, 0, q) == Keep(s, q) && Walked(s, |s|, q) == s
  {
    assert s[0..] == s && s[|s|..] == [];
  }

  lemma {:induction false} KeepNone(s: seq<Entry>, q: Query)
    requires forall j :: 0 <= j < |s| ==> !Matches(s[j], q)
    ensures Keep(s, q) == s
  {
    if s != [] {
      KeepNone(s[1..], q);
    }
  }

  /** Deleting the first match does not change what is kept in the end. */
  lemma KeepDeleteFirst(s: seq<Entry>, q: Query)
    ensures Keep(DeleteFirst(s, q), q) == Keep(s, q)
  {
    var k := First(s, q);
    if k < |s| {
      KeepDrops(s[..k], s[k], s[k + 1..], q);
      assert s == s[..k] + ([s[k]] + s[k + 1..]);
    }
  }

  lemma KeepDrops(s: seq<Entry>, e: Entry, t: seq<Entry>, q: Query)
    requires Matches(e, q)
    ensures Keep(s + ([e] + t), q) == Keep(s + t, q)
  {
    KeepAppend(s, t, q);
    KeepAppend(s, [e] + t, q);
    assert ([e] + t)[1..] == t;
  }

  /** n single deletions. */
  function DeleteTimes(s: seq<Entry>, q: Query, n: nat): (r: seq<Entry>) {
    if n == 0 then s else DeleteTimes(DeleteFirst(s, q), q, n - 1)
  }

  /** Deleting single matches until none is left (which |s| steps always reach) is deleting all of them at once. */
  lemma {:induction false} SingleDeletionsReachKeep(s: seq<Entry>, q: Query, n: nat)
    requires n >= |s|
    ensures DeleteTimes(s, q, n) == Keep(s, q) && First(Keep(s, q), q) == |Keep(s, q)|
    decreases n
  {
    if First(s, q) == |s| {
      KeepNone(s, q);
      DeleteTimesFixed(s, q, n);
    } else {
      var t := DeleteFirst(s, q);
      OneDeleted(s, q, n);
      SingleDeletionsReachKeep(t, q, n - 1);
    }
  }

  lemma OneDeleted(s: seq<Entry>, q: Query, n: nat)
    requires First(s, q) < |s| <= n
    ensures |DeleteFirst(s, q)| < |s| && Keep(DeleteFirst(s, q), q) == Keep(s, q)
    ensures DeleteTimes(s, q, n) == DeleteTimes(DeleteFirst(s, q), q, n - 1)
  {
    KeepDeleteFirst(s, q);
  }

  lemma {:induction false} DeleteTimesFixed(s: seq<Entry>, q: Query, n: nat)
    requires First(s, q) == |s|
    ensures DeleteTimes(s, q, n) == s
    decreases n
  {
    if n > 0 {
      DeleteTimesFixed(s, q, n - 1);
    }
  }

  // ---------- Requeue at CONNACK

  /** What the requeue loop does in one pass: the first transmitted item, its id, the first item with that id. */
  function RequeueOnce(s: seq<Entry>): (r: seq<Entry>)
    ensures |r| == |s|
  {
    var k := First(s, ByPending(Transmitted));
    if k == |s| then s
    else
      SetPending(s[k := Marked(s[k])], s[k].id, Queued)
  }

  function RequeueTimes(s: seq<Entry>, n: nat): (r: seq<Entry>)
    ensures |r| == |s|
    decreases n
  {
    if n == 0 then s else RequeueTimes(RequeueOnce(s), n - 1)
  }

  /** The intended result: every transmitted item is queued again, publishes with QoS > 0 carry DUP. */
  function RequeuedEntry(e: Entry): (r: Entry)
    ensures r == e.(data := r.data, pending := r.pending) && |r.data| == |e.data|
    ensures r.pending == if e.pending == Transmitted then Queued else e.pending
  {
    if e.pending == Transmitted then Marked(e).(pending := Queued) else e
  }

  function Requeued(s: seq<Entry>): (r: seq<Entry>)
    ensures |r| == |s|
    ensures forall k :: 0 <= k < |s| ==> r[k] == RequeuedEntry(s[k])
  {
    if s == [] then [] else [RequeuedEntry(s[0])] + Requeued(s[1..])
  }

  /** Each transmitted item is the first that carries its id. */
  predicate FirstOfItsId(s: seq<Entry>) {
    forall i, j :: 0 <= j < i < |s| && s[i].pending == Transmitted ==> s[j].id != s[i].id
  }

  /** A pass changes the first transmitted item's DUP and queues the first item with its id. */
  lemma RequeueOnceAt(s: seq<Entry>, k: nat, j: nat)
    requires k == First(s, ByPending(Transmitted)) < |s|
    requires j == First(s, ById(s[k].id))
    ensures j <= k
    ensures j == k ==> RequeueOnce(s) == s[k := RequeuedEntry(s[k])]
    ensures j < k ==> RequeueOnce(s) == s[k := Marked(s[k])][j := s[j].(pending := Queued)]
  {
    var marked := s[k := Marked(s[k])];
    assert j <= k by {
      assert Matches(s[k], ById(s[k].id));
    }
    FirstIs(marked, ById(s[k].id), j);
    if j == k {
      assert RequeueOnce(s) == s[k := RequeuedEntry(s[k])];
    }
  }

  lemma RequeuedUpdate(s: seq<Entry>, k: nat, e: Entry)
    requires k < |s| && RequeuedEntry(e) == RequeuedEntry(s[k])
    ensures Requeued(s[k := e]) == Requeued(s)
  {
    var a, b := Requeued(s[k := e]), Requeued(s);
    forall i | 0 <= i < |s| ensures a[i] == b[i] {
    }
  }

  lemma FirstOfItsIdUpdate(s: seq<Entry>, k: nat, e: Entry)
    requires k < |s| && e.id == s[k].id && e.pending != Transmitted && FirstOfItsId(s)
    ensures FirstOfItsId(s[k := e])
  {
  }

  lemma RequeueOnceProgress(s: seq<Entry>)
    requires FirstOfItsId(s) && First(s, ByPending(Transmitted)) < |s|
    ensures var k := First(s, ByPending(Transmitted));
            RequeueOnce(s) == s[k := RequeuedEntry(s[k])]
    ensures FirstOfItsId(RequeueOnce(s))
    ensures CountPending(RequeueOnce(s), Transmitted) == CountPending(s, Transmitted) - 1
    ensures Requeued(RequeueOnce(s)) == Requeued(s)
  {
    var k := First(s, ByPending(Transmitted));
    FirstIs(s, ById(s[k].id), k);
    RequeueOnceAt(s, k, k);
    var e := RequeuedEntry(s[k]);
    CountUpdate(s, k, e, Transmitted);
    FirstOfItsIdUpdate(s, k, e);
    RequeuedUpdate(s, k, e);
  }

  lemma RequeuedSettled(s: seq<Entry>)
    ensures First(Requeued(s), ByPending(Transmitted)) == |s|
  {
    FirstIs(Requeued(s), ByPending(Transmitted), |s|);
  }

  lemma NothingToRequeue(s: seq<Entry>)
    requires First(s, ByPending(Transmitted)) == |s|
    ensures CountPending(s, Transmitted) == 0 && Requeued(s) == s
  {
    NoneCounts(s, Transmitted);
    assert forall k :: 0 <= k < |s| ==> !Matches(s[k], ByPending(Transmitted));
  }

  /** With the condition the loop ends, in as many passes as there are transmitted items, with the intended result. */
  lemma {:induction false} RequeueEnds(s: seq<Entry>)
    requires FirstOfItsId(s)
    ensures RequeueTimes(s, CountPending(s, Transmitted)) == Requeued(s)
    decreases CountPending(s, Transmitted)
  {
    if First(s, ByPending(Transmitted)) == |s| {
      NothingToRequeue(s);
    } else {
      RequeueOnceProgress(s);
      var t := RequeueOnce(s);
      RequeueEnds(t);
      RequeueUnfold(s, CountPending(s, Transmitted));
    }
  }

  lemma RequeueUnfold(s: seq<Entry>, n: nat)
    requires n > 0
    ensures RequeueTimes(s, n) == RequeueTimes(RequeueOnce(s), n - 1)
  {
  }

  lemma {:induction false} NoneCounts(s: seq<Entry>, p: Pending)
    ensures CountPending(s, p) == 0 <==> forall k :: 0 <= k < |s| ==> s[k].pending != p
  {
    if s != [] {
      NoneCounts(s[1..], p);
      if exists k :: 0 <= k < |s| && s[k].pending == p {
        var k :| 0 <= k < |s| && s[k].pending == p;
        assert k > 0 ==> s[1..][k - 1].pending == p;
      } else {
        assert forall k :: 0 <= k < |s[1..]| ==> s[1..][k] == s[k + 1];
      }
    }
  }

  /** The loop ends if and only if each transmitted item is the first that carries its id. */
  lemma RequeueTerminatesExactly(s: seq<Entry>)
    ensures (exists n: nat :: First(RequeueTimes(s, n), ByPending(Transmitted)) == |s|) <==> FirstOfItsId(s)
  {
    if FirstOfItsId(s) {
      RequeueEnds(s);
      RequeuedSettled(s);
      var n := CountPending(s, Transmitted);
      assert First(RequeueTimes(s, n), ByPending(Transmitted)) == |s|;
    } else {
      var i, j :| 0 <= j < i < |s| && s[i].pending == Transmitted && s[j].id == s[i].id;
      forall n: nat ensures First(RequeueTimes(s, n), ByPending(Transmitted)) < |s| {
        NeverEnds(s, n, j, i);
      }
    }
  }

  /** The first shares its id with the later, transmitted one. */
  predicate Twins(s: seq<Entry>, j: nat, i: nat) {
    j < i < |s| && s[i].pending == Transmitted && s[j].id == s[i].id
  }

  /** A pass over twins leaves twins: the same, or those of which it changed the first. */
  lemma TwinsStay(s: seq<Entry>, j: nat, i: nat) returns (a: nat, b: nat)
    requires Twins(s, j, i)
    ensures Twins(RequeueOnce(s), a, b)
  {
    assert Matches(s[i], ByPending(Transmitted));
    b := First(s, ByPending(Transmitted));
    assert Matches(s[b], ById(s[b].id));
    a := First(s, ById(s[b].id));
    RequeueOnceAt(s, b, a);
    if a == b {
      assert b != i by {
        assert Matches(s[j], ById(s[i].id));
      }
      a, b := j, i;
    }
  }

  lemma {:induction false} TwinsRemain(s: seq<Entry>, n: nat, j: nat, i: nat) returns (a: nat, b: nat)
    requires Twins(s, j, i)
    ensures Twins(RequeueTimes(s, n), a, b)
    decreases n
  {
    a, b := j, i;
    if n > 0 {
      a, b := TwinsStay(s, j, i);
      a, b := TwinsRemain(RequeueOnce(s), n - 1, a, b);
    }
  }

  lemma NeverEnds(s: seq<Entry>, n: nat, j: nat, i: nat)
    requires Twins(s, j, i)
    ensures First(RequeueTimes(s, n), ByPending(Transmitted)) < |s|
  {
    var a, b := TwinsRemain(s, n, j, i);
    assert Matches(RequeueTimes(s, n)[b], ByPending(Transmitted));
  }
}
