/** Where the items after a step come from, and why an item goes: for every step, legal or not. */
module Provenance {
  import opened Bytes
  import opened OutboxModel
  import opened Protocol
  import opened Invariants

  /** The ack that completes a request of this kind. */
  predicate Completes(i: Input, kind: int) {
    || (kind == MSG_PUBLISH && (i.Puback? || i.Pubcomp?))
    || (kind == MSG_SUBSCRIBE && i.Suback?)
    || (kind == MSG_UNSUBSCRIBE && i.Unsuback?)
  }

  function AnsweredBy(i: Input): int {
    if i.Suback? then MSG_SUBSCRIBE else if i.Unsuback? then MSG_UNSUBSCRIBE else MSG_PUBLISH
  }

  // ---------- where items come from

  /** The calls that can store a packet. */
  predicate Stores(i: Input) {
    || (i.PublishCall? && i.qos > 0)
    || (i.EnqueueCall? && !(i.qos == 0 && !i.store))
    || i.SubscribeCall? || i.UnsubscribeCall?
  }

  /**
   * The same item later: what it is stays, its state may change; only a PUBREC for its id acknowledges it, and only a
   * connection queues it again.
   */
  predicate Later(a: Entry, b: Entry, i: Input) {
    && b == a.(tick := b.tick, pending := b.pending, data := b.data) && |b.data| == |a.data|
    && (b.pending == Acknowledged ==> a.pending == Acknowledged || (i.Pubrec? && i.id == b.id))
    && (b.pending == Queued ==> a.pending == Queued || i.ConnackAccepted?)
  }

  predicate FromOld(s: seq<Entry>, e: Entry, i: Input) {
    exists j :: 0 <= j < |s| && Later(s[j], e, i)
  }

  predicate FromCall(e: Entry, i: Input, next: nat) {
    Stores(i) && e.serial == next && e.id == i.id && |e.data| == |i.packet| && e.pending != Acknowledged
  }

  predicate Traced(s: seq<Entry>, t: seq<Entry>, i: Input, next: nat) {
    forall k :: 0 <= k < |t| ==> FromOld(s, t[k], i) || FromCall(t[k], i, next)
  }

  lemma TracedAt(s: seq<Entry>, t: seq<Entry>, i: Input, next: nat)
    requires |t| == |s| && forall k :: 0 <= k < |s| ==> Later(s[k], t[k], i)
    ensures Traced(s, t, i, next)
  {
    assert forall k :: 0 <= k < |t| ==> Later(s[k], t[k], i) && FromOld(s, t[k], i);
  }

  lemma TracedWithout(s: seq<Entry>, k: nat, i: Input, next: nat)
    requires k < |s|
    ensures Traced(s, Without(s, k), i, next)
  {
    var t := Without(s, k);
    forall j | 0 <= j < |t| ensures FromOld(s, t[j], i) {
      assert Later(s[if j < k then j else j + 1], t[j], i);
    }
  }

  /** What is kept was there. */
  lemma {:induction false} KeptWasThere(s: seq<Entry>, q: Query, k: nat)
    requires k < |Keep(s, q)|
    ensures Keep(s, q)[k] in s && !Matches(Keep(s, q)[k], q)
  {
    if Matches(s[0], q) {
      KeptWasThere(s[1..], q, k);
    } else if k > 0 {
      KeptWasThere(s[1..], q, k - 1);
    }
  }

  /** The items that were there are where they were. */
  predicate InPlace(s: seq<Entry>, t: seq<Entry>, i: Input) {
    |t| >= |s| && forall k :: 0 <= k < |s| ==> Later(s[k], t[k], i)
  }

  predicate OneShot(e: Entry) {
    e.kind == MSG_PUBLISH && e.qos == 0
  }

  lemma SentInPlace(cfg: Config, st: State, k: nat, now: int, written: bool, i: Input)
    requires k < |st.outbox| && !(written && OneShot(st.outbox[k]))
    ensures InPlace(st.outbox, Sent(cfg, st, k, now, written).outbox, i)
  {
    var s := Resent(st, k, written).outbox;
    assert InPlace(st.outbox, s, i);
    MarkedInPlace(s, st.outbox[k].id, now, i);
    var t := SetPending(SetTick(s, st.outbox[k].id, now), st.outbox[k].id, Transmitted);
    forall j | 0 <= j < |s| ensures Later(st.outbox[j], t[j], i) {
      assert Later(st.outbox[j], s[j], i) && Later(s[j], t[j], i);
    }
  }

  lemma MarkedInPlace(s: seq<Entry>, id: int, now: int, i: Input)
    ensures InPlace(s, SetPending(SetTick(s, id, now), id, Transmitted), i)
  {
    assert InPlace(s, SetTick(s, id, now), i);
  }

  /** A send changes items where they are, or takes the sent one out. */
  lemma SentTraced(cfg: Config, st: State, k: nat, now: int, written: bool, i: Input, next: nat)
    requires k < |st.outbox|
    ensures Traced(st.outbox, Sent(cfg, st, k, now, written).outbox, i, next)
  {
    if written && OneShot(st.outbox[k]) {
      var s := Resent(st, k, written).outbox;
      var t := Without(s, k);
      forall j | 0 <= j < |t| ensures FromOld(st.outbox, t[j], i) {
        assert Later(st.outbox[if j < k then j else j + 1], t[j], i);
      }
    } else {
      SentInPlace(cfg, st, k, now, written, i);
      TracedAt(st.outbox, Sent(cfg, st, k, now, written).outbox, i, next);
    }
  }

  lemma IdleInPlace(cfg: Config, st: State, i: Input)
    requires i.SendPass? && st.phase == Connected && Choose(cfg, st) == |st.outbox|
    ensures var t := Step(cfg, st, i).outbox; |t| == |st.outbox| && InPlace(st.outbox, t, i)
  {
    var k := First(st.outbox, ByPending(Transmitted));
    if k < |st.outbox| {
      assert InPlace(st.outbox, Resent(st, k, i.written).outbox, i);
    }
  }

  lemma AppendTraced(s: seq<Entry>, e: Entry, t: seq<Entry>, i: Input, next: nat)
    requires FromCall(e, i, next) && Traced(s + [e], t, i, next) && !i.Pubrec?
    ensures Traced(s, t, i, next)
  {
    forall k | 0 <= k < |t| ensures FromOld(s, t[k], i) || FromCall(t[k], i, next) {
      if FromOld(s + [e], t[k], i) {
        var j :| 0 <= j < |s + [e]| && Later((s + [e])[j], t[k], i);
        assert j < |s| ==> Later(s[j], t[k], i);
      }
    }
  }

  lemma CallTraced(cfg: Config, st: State, i: Input)
    requires Stores(i)
    ensures Traced(st.outbox, Step(cfg, st, i).outbox, i, st.next)
  {
    var kind := if i.SubscribeCall? then MSG_SUBSCRIBE else if i.UnsubscribeCall? then MSG_UNSUBSCRIBE else MSG_PUBLISH;
    var qos := if i.PublishCall? || i.EnqueueCall? then i.qos else 0;
    var s := Store(st, i.id, kind, qos, if i.PublishCall? then i.stored else i.now, i.packet);
    var t := Step(cfg, st, i).outbox;
    if t == st.outbox {
      TracedAt(st.outbox, t, i, st.next);
    } else {
      if i.PublishCall? && t != s.outbox {
        SentTraced(cfg, s, |st.outbox|, i.sent, i.written, i, st.next);
      } else {
        TracedAt(s.outbox, t, i, st.next);
      }
      AppendTraced(st.outbox, s.outbox[|st.outbox|], t, i, st.next);
    }
  }

  /** Every item after a step was there before, or is the one the call stored. */
  lemma StepTraced(cfg: Config, st: State, i: Input)
    ensures Traced(st.outbox, Step(cfg, st, i).outbox, i, st.next)
  {
    var s, t := st.outbox, Step(cfg, st, i).outbox;
    if Stores(i) {
      CallTraced(cfg, st, i);
    } else if i.ExpiryPass? {
      ExpireLeaves(cfg, st, i.now);
      forall k | 0 <= k < |t| ensures FromOld(s, t[k], i) {
        KeptWasThere(s, Overdue(i.now, cfg.expiry), k);
        var j :| 0 <= j < |s| && s[j] == t[k];
        assert Later(s[j], t[k], i);
      }
    } else if i.Stop? {
      ClearFrame(cfg, st);
    } else if i.SendPass? && st.phase == Connected && Choose(cfg, st) < |s| {
      SentTraced(cfg, st, Choose(cfg, st), i.now, i.written, i, st.next);
    } else if Completes(i, MSG_PUBLISH) || Completes(i, MSG_SUBSCRIBE) || Completes(i, MSG_UNSUBSCRIBE) {
      AckTraced(cfg, st, i);
    } else {
      OthersInPlace(cfg, st, i);
      TracedAt(s, t, i, st.next);
    }
  }

  /** Steps that neither store nor remove. */
  lemma OthersInPlace(cfg: Config, st: State, i: Input)
    requires !Stores(i) && !i.ExpiryPass? && !i.Stop? && !i.Suback? && !i.Unsuback? && !i.Puback? && !i.Pubcomp?
    requires i.SendPass? && st.phase == Connected ==> Choose(cfg, st) == |st.outbox|
    ensures var t := Step(cfg, st, i).outbox; |t| == |st.outbox| && InPlace(st.outbox, t, i)
  {
    if i.SendPass? && st.phase == Connected {
      IdleInPlace(cfg, st, i);
    }
  }

  lemma AckTraced(cfg: Config, st: State, i: Input)
    requires Completes(i, MSG_PUBLISH) || Completes(i, MSG_SUBSCRIBE) || Completes(i, MSG_UNSUBSCRIBE)
    ensures Traced(st.outbox, Step(cfg, st, i).outbox, i, st.next)
  {
    var k := First(st.outbox, ByIdAndKind(i.id, AnsweredBy(i)));
    if st.phase == Connected && k < |st.outbox| {
      TracedWithout(st.outbox, k, i, st.next);
    } else {
      TracedAt(st.outbox, Step(cfg, st, i).outbox, i, st.next);
    }
  }

  // ---------- why items go

  predicate Gone(s: seq<Entry>, serial: nat) {
    forall k :: 0 <= k < |s| ==> s[k].serial != serial
  }

  function FateOf(kind: int): Fate {
    if kind == MSG_SUBSCRIBE then Subscribed else if kind == MSG_UNSUBSCRIBE then Unsubscribed else Published
  }

  /**
   * The ways an item can go: an ack for its id and kind; a completed write, if it is a QoS 0 publish; its age; the end
   * of the task.
   */
  predicate HasCause(cfg: Config, st: State, i: Input, e: Entry, t: State) {
    || (Completes(i, e.kind) && i.id == e.id && st.phase == Connected
        && t.log == Then(st.log, Removed(e.serial, FateOf(e.kind), st.count)))
    || (i.SendPass? && i.written && e.kind == MSG_PUBLISH && e.qos == 0 && st.phase == Connected
        && t.log == Then(Then(st.log, Wrote(e.serial, e.id, MSG_PUBLISH, 0, e.data, true)),
                         Removed(e.serial, SentQos0, st.count)))
    || (i.ExpiryPass? && i.now - e.tick > cfg.expiry)
    || i.Stop?
  }

  /** All others are still there. */
  lemma OnlyOneGoes(s: seq<Entry>, k: nat, j: nat)
    requires k < |s| && j < |s|
    ensures j == k || !Gone(Without(s, k), s[j].serial)
  {
    if j != k {
      assert Without(s, k)[if j < k then j else j - 1] == s[j];
    }
  }

  lemma {:induction false} KeptStays(s: seq<Entry>, q: Query, j: nat)
    requires j < |s| && !Matches(s[j], q)
    ensures s[j] in Keep(s, q)
  {
    if j > 0 {
      KeptStays(s[1..], q, j - 1);
    }
  }

  /** Items that are still where they were are not gone. */
  lemma StaysThere(s: seq<Entry>, t: seq<Entry>, j: nat)
    requires j < |s| <= |t| && forall k :: 0 <= k < |s| ==> t[k].serial == s[k].serial
    ensures !Gone(t, s[j].serial)
  {
    assert t[j].serial == s[j].serial;
  }

  /** No item goes without a cause; the log tells an ack from a completed write. */
  lemma RemovalHasCause(cfg: Config, st: State, i: Input, j: nat)
    requires Inv(cfg, st) && j < |st.outbox| && Gone(Step(cfg, st, i).outbox, st.outbox[j].serial)
    ensures HasCause(cfg, st, i, st.outbox[j], Step(cfg, st, i))
  {
    if i.ExpiryPass? {
      ExpiryHasCause(cfg, st, i, j);
    } else if i.Suback? || i.Unsuback? || i.Puback? || i.Pubcomp? {
      assert Wellformed(st.outbox[j]);
      AckHasCause(cfg, st, i, j);
    } else if i.SendPass? {
      PassHasCause(cfg, st, i, j);
    } else if !i.Stop? {
      OthersStay(cfg, st, i, j);
    }
  }

  lemma ExpiryHasCause(cfg: Config, st: State, i: Input, j: nat)
    requires i.ExpiryPass? && j < |st.outbox| && Gone(Step(cfg, st, i).outbox, st.outbox[j].serial)
    ensures HasCause(cfg, st, i, st.outbox[j], Step(cfg, st, i))
  {
    ExpireLeaves(cfg, st, i.now);
    if !Matches(st.outbox[j], Overdue(i.now, cfg.expiry)) {
      KeptStays(st.outbox, Overdue(i.now, cfg.expiry), j);
    }
  }

  lemma OthersStay(cfg: Config, st: State, i: Input, j: nat)
    requires !i.ExpiryPass? && !i.Stop? && !i.SendPass? && !i.Suback? && !i.Unsuback? && !i.Puback? && !i.Pubcomp?
    requires j < |st.outbox|
    ensures !Gone(Step(cfg, st, i).outbox, st.outbox[j].serial)
  {
    if Stores(i) { CallInPlace(cfg, st, i); } else { OthersInPlace(cfg, st, i); }
    StaysThere(st.outbox, Step(cfg, st, i).outbox, j);
  }

  lemma AckHasCause(cfg: Config, st: State, i: Input, j: nat)
    requires i.Suback? || i.Unsuback? || i.Puback? || i.Pubcomp?
    requires j < |st.outbox| && Wellformed(st.outbox[j]) && Gone(Step(cfg, st, i).outbox, st.outbox[j].serial)
    ensures HasCause(cfg, st, i, st.outbox[j], Step(cfg, st, i))
  {
    var k := First(st.outbox, ByIdAndKind(i.id, AnsweredBy(i)));
    if st.phase == Connected && k < |st.outbox| {
      OnlyOneGoes(st.outbox, k, j);
    } else {
      StaysThere(st.outbox, Step(cfg, st, i).outbox, j);
    }
  }

  lemma PassHasCause(cfg: Config, st: State, i: Input, j: nat)
    requires Inv(cfg, st) && j < |st.outbox| && i.SendPass? && Gone(Step(cfg, st, i).outbox, st.outbox[j].serial)
    ensures HasCause(cfg, st, i, st.outbox[j], Step(cfg, st, i))
  {
    if st.phase == Connected && Choose(cfg, st) < |st.outbox| {
      assert Wellformed(st.outbox[Choose(cfg, st)]);
      SendHasCause(cfg, st, Choose(cfg, st), i, j);
    } else {
      OthersInPlace(cfg, st, i);
      StaysThere(st.outbox, Step(cfg, st, i).outbox, j);
    }
  }

  lemma SendHasCause(cfg: Config, st: State, k: nat, i: Input, j: nat)
    requires i.SendPass? && st.phase == Connected && k == Choose(cfg, st) < |st.outbox| && Wellformed(st.outbox[k])
    requires j < |st.outbox| && Gone(Step(cfg, st, i).outbox, st.outbox[j].serial)
    ensures HasCause(cfg, st, i, st.outbox[j], Step(cfg, st, i))
  {
    if i.written && OneShot(st.outbox[k]) {
      assert st.outbox[k := st.outbox[k]] == st.outbox;
      OnlyOneGoes(st.outbox, k, j);
    } else {
      SentInPlace(cfg, st, k, i.now, i.written, i);
      StaysThere(st.outbox, Step(cfg, st, i).outbox, j);
    }
  }

  lemma CallInPlace(cfg: Config, st: State, i: Input)
    requires Stores(i)
    ensures InPlace(st.outbox, Step(cfg, st, i).outbox, i)
  {
    if i.PublishCall? {
      PublishInPlace(cfg, st, i);
    }
  }

  lemma PublishInPlace(cfg: Config, st: State, i: Input)
    requires i.PublishCall? && i.qos > 0
    ensures InPlace(st.outbox, Step(cfg, st, i).outbox, i)
  {
    SentInPlace(cfg, Store(st, i.id, MSG_PUBLISH, i.qos, i.stored, i.packet), |st.outbox|, i.sent, i.written, i);
  }
}
