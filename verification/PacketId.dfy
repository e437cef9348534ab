/** Packet ids, when they are given out in order: section 2.2.1 of MQTT 5.0. */
module PacketId {
  import opened OutboxModel
  import opened Protocol
  import opened Connection
  import opened Invariants
  import opened Provenance

  const IDS := 0xFFFF

  /** The id of the n-th allocation after last, which counts as the 0-th. */
  function Nth(last: nat, n: nat): (id: nat) {
    if n == 0 then last else NextId(Nth(last, n - 1))
  }

  /** Ids go round from 1 to 65535; 0 is left out. */
  lemma {:induction false} Round(last: nat, n: nat)
    requires last <= IDS && n > 0
    ensures Nth(last, n) == (last + n - 1) % IDS + 1
  {
    if n > 1 {
      Round(last, n - 1);
      Successor(last + n - 2);
    } else {
      assert last == IDS ==> last % IDS == 0;
    }
  }

  lemma Successor(m: nat)
    ensures NextId(m % IDS + 1) == (m + 1) % IDS + 1
  {
  }

  lemma NeverZero(last: nat, n: nat)
    requires last <= IDS && n > 0
    ensures 1 <= Nth(last, n) <= IDS
  {
    Round(last, n);
  }

  /** Two allocations give the same id if and only if a multiple of 65535 lies between them. */
  lemma SameIdExactly(last: nat, i: nat, j: nat)
    requires last <= IDS && 0 < i <= j
    ensures Nth(last, i) == Nth(last, j) <==> (j - i) % IDS == 0
  {
    Round(last, i);
    Round(last, j);
    Residues(last + i - 1, j - i);
  }

  lemma Residues(m: nat, d: nat)
    ensures m % IDS == (m + d) % IDS <==> d % IDS == 0
  {
    var q, r := m / IDS, m % IDS;
    var k, s := d / IDS, d % IDS;
    assert m == IDS * q + r && d == IDS * k + s;
    if r + s < IDS {
      Remainder(m + d, q + k, r + s);
    } else {
      Remainder(m + d, q + k + 1, r + s - IDS);
    }
  }

  lemma Remainder(x: nat, q: nat, r: nat)
    requires x == IDS * q + r && r < IDS
    ensures x % IDS == r
  {
  }

  /** Any 65535 allocations in a row are pairwise distinct, also across the wrap-around. */
  lemma WindowDistinct(last: nat, i: nat, j: nat)
    requires last <= IDS && 0 < i < j && j - i < IDS
    ensures Nth(last, i) != Nth(last, j)
  {
    SameIdExactly(last, i, j);
  }

  /** For each packet stored under an id, by its serial number: the allocation that gave it the id. */
  type Births = map<nat, nat>

  predicate Allocated(s: seq<Entry>, born: Births, last: nat, n: nat) {
    forall k :: 0 <= k < |s| && s[k].id != 0 ==>
      s[k].serial in born && 0 < born[s[k].serial] < n && s[k].id == Nth(last, born[s[k].serial])
  }

  /** A number of allocations that brings the same id again. */
  predicate Rounds(d: int) {
    d % IDS == 0
  }

  /** The next id is free if and only if no stored packet dates from 65535 allocations ago, or a multiple of that. */
  lemma FreshExactly(s: seq<Entry>, born: Births, last: nat, n: nat, id: nat)
    requires last <= IDS && n > 0 && Allocated(s, born, last, n) && id == Nth(last, n)
    ensures FreshId(s, id) <==> forall k :: 0 <= k < |s| && s[k].id != 0 ==> !Rounds(n - born[s[k].serial])
  {
    NeverZero(last, n);
    forall k | 0 <= k < |s| ensures s[k].id == id <==> s[k].id != 0 && Rounds(n - born[s[k].serial]) {
      if s[k].id != 0 {
        SameIdExactly(last, born[s[k].serial], n);
      }
    }
  }

  /** No packet stays stored while 65535 ids are allocated. */
  predicate Young(s: seq<Entry>, born: Births, n: nat) {
    forall k :: 0 <= k < |s| && s[k].id != 0 && s[k].serial in born ==> n - born[s[k].serial] < IDS
  }

  lemma FreshInWindow(s: seq<Entry>, born: Births, last: nat, n: nat, id: nat)
    requires last <= IDS && n > 0 && Allocated(s, born, last, n) && id == Nth(last, n) && Young(s, born, n)
    ensures FreshId(s, id)
  {
    forall k | 0 <= k < |s| && s[k].id != 0 ensures !Rounds(n - born[s[k].serial]) {
    }
    FreshExactly(s, born, last, n, id);
  }

  // ---------- runs in incremental mode

  predicate Draws(i: Input) {
    ((i.PublishCall? || i.EnqueueCall?) && i.qos > 0) || i.SubscribeCall? || i.UnsubscribeCall?
  }

  /** The allocation n gave its id to the packet a step stored, if it stored one. */
  function Noticed(born: Births, st: State, t: State, n: nat): Births {
    if t.next > st.next then born[st.next := n] else born
  }

  /**
   * A run in which each call takes the next id. Before a call some ids may have been used up by calls that failed;
   * unused[0] counts those before the first step. When an id is taken no stored packet is 65535 allocations old.
   */
  predicate TakesNextIds(cfg: Config, st: State, born: Births, last: nat, n: nat, inputs: seq<Input>, unused: seq<nat>)
    decreases |inputs|
  {
    && |unused| == |inputs|
    && (inputs != [] ==>
          var i, m := inputs[0], n + unused[0];
          var t := Step(cfg, st, i);
          && LegalButId(cfg, st, i)
          && (Draws(i) ==> i.id == Nth(last, m) && Young(st.outbox, born, m))
          && TakesNextIds(cfg, t, Noticed(born, st, t, m), last, if t.next > st.next then m + 1 else m, inputs[1..],
                          unused[1..]))
  }

  lemma StepKeepsAllocated(cfg: Config, st: State, born: Births, last: nat, m: nat, i: Input)
    requires last <= IDS && m > 0 && Inv(cfg, st) && LegalButId(cfg, st, i) && Allocated(st.outbox, born, last, m)
    requires Draws(i) ==> i.id == Nth(last, m)
    ensures var t := Step(cfg, st, i);
            Allocated(t.outbox, Noticed(born, st, t, m), last, if t.next > st.next then m + 1 else m)
  {
    var t := Step(cfg, st, i);
    StepTraced(cfg, st, i);
    if Stores(i) { NextMoves(cfg, st, i); }
    if t.next > st.next {
      assert Stores(i) && i.id != 0 ==> Draws(i);
      AllocatedNext(st.outbox, t.outbox, born, last, m, i, st.next);
    } else {
      assert Stores(i) ==> t.outbox == st.outbox;
      AllocatedStill(st.outbox, t.outbox, born, last, m, i, st.next);
    }
  }

  lemma AllocatedNext(s: seq<Entry>, t: seq<Entry>, born: Births, last: nat, m: nat, i: Input, next: nat)
    requires Traced(s, t, i, next) && m > 0 && Allocated(s, born, last, m)
    requires Stores(i) && i.id != 0 ==> i.id == Nth(last, m)
    requires forall k :: 0 <= k < |s| ==> s[k].serial < next
    ensures Allocated(t, born[next := m], last, m + 1)
  {
    forall k | 0 <= k < |t| && t[k].id != 0
      ensures var b := born[next := m]; var e := t[k];
              e.serial in b && 0 < b[e.serial] < m + 1 && e.id == Nth(last, b[e.serial])
    {
      if FromOld(s, t[k], i) {
        var j :| 0 <= j < |s| && Later(s[j], t[k], i);
      }
    }
  }

  lemma AllocatedStill(s: seq<Entry>, t: seq<Entry>, born: Births, last: nat, m: nat, i: Input, next: nat)
    requires Traced(s, t, i, next) && Allocated(s, born, last, m) && (Stores(i) ==> t == s)
    ensures Allocated(t, born, last, m)
  {
    if !Stores(i) {
      forall k | 0 <= k < |t| && t[k].id != 0
        ensures t[k].serial in born && 0 < born[t[k].serial] < m && t[k].id == Nth(last, born[t[k].serial])
      {
        var j :| 0 <= j < |s| && Later(s[j], t[k], i);
      }
    }
  }

  /** A call that stores takes a serial number; one that does not leaves the outbox as it is. */
  lemma NextMoves(cfg: Config, st: State, i: Input)
    requires Stores(i)
    ensures var t := Step(cfg, st, i); t.next > st.next || (t.next == st.next && t.outbox == st.outbox)
  {
  }

  lemma {:induction false} TakenInOrderIsLegal(cfg: Config, st: State, born: Births, last: nat, n: nat,
                                               inputs: seq<Input>, unused: seq<nat>)
    requires last <= IDS && n > 0 && Inv(cfg, st) && Allocated(st.outbox, born, last, n)
    requires TakesNextIds(cfg, st, born, last, n, inputs, unused)
    ensures LegalRun(cfg, st, inputs)
    decreases |inputs|
  {
    if inputs != [] {
      var i, m := inputs[0], n + unused[0];
      var t := Step(cfg, st, i);
      assert Allocated(st.outbox, born, last, m);
      if Draws(i) {
        FreshInWindow(st.outbox, born, last, m, i.id);
      }
      assert Legal(cfg, st, i);
      StepKeeps(cfg, st, i);
      StepKeepsAllocated(cfg, st, born, last, m, i);
      TakenInOrderIsLegal(cfg, t, Noticed(born, st, t, m), last, if t.next > st.next then m + 1 else m, inputs[1..],
                          unused[1..]);
    }
  }

  /**
   * In incremental mode ids are in use at most once, through the wrap-around, as long as no packet stays stored while
   * 65535 ids are allocated: every run that takes ids in order is one the guarantees are about.
   */
  lemma IncrementalRunIsLegal(cfg: Config, receiveMax: nat, last: nat, inputs: seq<Input>, unused: seq<nat>)
    requires last <= IDS && receiveMax < 0x1_0000
    requires TakesNextIds(cfg, Initial(receiveMax), map[], last, 1, inputs, unused)
    ensures LegalRun(cfg, Initial(receiveMax), inputs)
  {
    Reachable(cfg, receiveMax, []);
    TakenInOrderIsLegal(cfg, Initial(receiveMax), map[], last, 1, inputs, unused);
  }
}
