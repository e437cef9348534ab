/** What every legal step keeps. */
module Invariants {
  import opened Bytes
  import opened OutboxModel
  import opened Protocol

  // ---------- the invariant

  predicate Wellformed(e: Entry) {
    && 0 <= e.id < 0x1_0000 && 0 <= e.qos <= 2 && e.pending != Confirmed && e.data != []
    && e.kind in {MSG_PUBLISH, MSG_SUBSCRIBE, MSG_UNSUBSCRIBE}
    && (e.kind != MSG_PUBLISH ==> e.qos == 0)
    && (e.id == 0 <==> e.kind == MSG_PUBLISH && e.qos == 0)
    && (e.id == 0 ==> e.pending == Queued && !HasDup(e.data))
  }

  /** What the log says about a packet that is still stored. */
  predicate Tracked(v5: bool, log: Log, e: Entry) {
    && Removals(log, e.serial) == 0
    && SamePacket(e.data, PacketOf(log, e.serial))
    && (e.kind == MSG_PUBLISH && e.qos > 0 ==>
          && (HasDup(e.data) ==> WrittenBefore(log, e.serial))
          && (e.pending == Transmitted ==> WrittenBefore(log, e.serial))
          && (e.pending == Queued && WrittenBefore(log, e.serial) ==> HasDup(e.data)))
    && (v5 ==>
          && (e.serial in SentHere(log) ==> e.kind == MSG_PUBLISH && e.qos > 0 && e.pending != Queued)
          && (e.pending == Transmitted && e.kind == MSG_PUBLISH ==> e.serial in SentHere(log)))
    && (e.id != 0 && Blocked(log, e.id) ==> e.pending == Acknowledged)
  }

  predicate Items(v5: bool, log: Log, s: seq<Entry>) {
    forall k :: 0 <= k < |s| ==> Wellformed(s[k]) && Tracked(v5, log, s[k])
  }

  /** Ids other than 0 are in use once; serial numbers rise along the list. */
  predicate Ordered(s: seq<Entry>, next: nat) {
    && (forall i, j :: 0 <= i < j < |s| ==> s[i].serial < s[j].serial && (s[i].id != 0 ==> s[i].id != s[j].id))
    && (forall k :: 0 <= k < |s| ==> s[k].serial < next)
  }

  /** Every serial number in the log is below next. */
  predicate Below(log: Log, next: nat) {
    match log
    case Start => true
    case Then(past, Stored(s, _, _)) => s < next && Below(past, next)
    case Then(past, Wrote(s, _, _, _, _, _)) => s < next && Below(past, next)
    case Then(past, Removed(s, _, _)) => s < next && Below(past, next)
    case Then(past, _) => Below(past, next)
  }

  predicate Promises(log: Log) {
    DupExact(log) && Qos2Safe(log) && WritesStoredPacket(log)
  }

  predicate Counter(cfg: Config, st: State) {
    && st.count < 0x1_0000 && st.receiveMax < 0x1_0000
    && (!cfg.v5 ==> st.count == 0)
    && (cfg.v5 && st.phase == Connected ==> st.count <= st.receiveMax)
  }

  function NumSent(s: seq<Entry>, sent: set<nat>): nat {
    if s == [] then 0 else (if s[0].serial in sent then 1 else 0) + NumSent(s[1..], sent)
  }

  predicate Quota(count: nat, s: seq<Entry>, log: Log) {
    && count + Carried(log) == NumSent(s, SentHere(log)) + Lost(log) + AtZero(log)
    && AtZero(log) <= Carried(log)
  }

  predicate Present(s: seq<Entry>, serial: nat) {
    exists k :: 0 <= k < |s| && s[k].serial == serial
  }

  /** A packet ever stored is still there, or was removed once. */
  predicate Fates(s: seq<Entry>, log: Log, next: nat) {
    forall n: nat :: n < next && !Present(s, n) ==> Removals(log, n) == 1
  }

  function UnsubscribeSize(s: seq<Entry>): nat {
    if s == [] then 0
    else (if s[0].kind == MSG_UNSUBSCRIBE then |s[0].data| else 0) + UnsubscribeSize(s[1..])
  }

  predicate Bounded(cfg: Config, s: seq<Entry>) {
    cfg.limit > 0 ==> Size(s) <= cfg.limit + cfg.bufferLength + UnsubscribeSize(s)
  }

  predicate Inv(cfg: Config, st: State) {
    && Items(cfg.v5, st.log, st.outbox)
    && Ordered(st.outbox, st.next)
    && Below(st.log, st.next)
    && Promises(st.log)
    && Counter(cfg, st)
    && (cfg.v5 ==> Quota(st.count, st.outbox, st.log))
    && Fates(st.outbox, st.log, st.next)
    && Bounded(cfg, st.outbox)
  }

  // ---------- the log

  /** Nothing is known about serial numbers that were not given out. */
  lemma {:induction false} Unknown(log: Log, next: nat, serial: nat)
    requires Below(log, next) && serial >= next
    ensures !WrittenBefore(log, serial) && Removals(log, serial) == 0 && serial !in SentHere(log)
  {
    if log.Then? {
      Unknown(log.past, next, serial);
    }
  }

  lemma {:induction false} BelowMore(log: Log, next: nat, more: nat)
    requires Below(log, next) && next <= more
    ensures Below(log, more)
  {
    if log.Then? {
      BelowMore(log.past, next, more);
    }
  }

  /** An event about another packet. */
  predicate Elsewhere(ev: Event, e: Entry) {
    match ev
    case Stored(s, _, _) => s != e.serial
    case Wrote(s, _, _, _, _, _) => s != e.serial
    case Removed(s, _, _) => s != e.serial
    case PubrecSeen(id) => id != e.id
    case WroteUnstored(_, _) => true
    case Connack => false
  }

  lemma TrackedElsewhere(v5: bool, log: Log, ev: Event, e: Entry)
    requires Tracked(v5, log, e) && Elsewhere(ev, e)
    ensures Tracked(v5, Then(log, ev), e)
  {
  }

  // ---------- positions

  lemma OrderedWithout(s: seq<Entry>, next: nat, k: nat)
    requires Ordered(s, next) && k < |s|
    ensures Ordered(Without(s, k), next)
    ensures forall j :: 0 <= j < |s| && j != k ==> Present(Without(s, k), s[j].serial)
    ensures forall j :: 0 <= j < |s| - 1 ==> Without(s, k)[j].serial != s[k].serial
  {
    forall j | 0 <= j < |s| && j != k ensures Present(Without(s, k), s[j].serial) {
      assert Without(s, k)[if j < k then j else j - 1] == s[j];
    }
  }

  lemma OrderedAppend(s: seq<Entry>, next: nat, e: Entry)
    requires Ordered(s, next) && e.serial == next && (e.id != 0 ==> FreshId(s, e.id))
    ensures Ordered(s + [e], next + 1)
  {
  }

  lemma OrderedUpdate(s: seq<Entry>, next: nat, k: nat, e: Entry)
    requires Ordered(s, next) && k < |s| && e.serial == s[k].serial && e.id == s[k].id
    ensures Ordered(s[k := e], next)
  {
  }

  lemma OrderedSame(s: seq<Entry>, t: seq<Entry>, next: nat)
    requires Ordered(s, next) && |s| == |t|
    requires forall k :: 0 <= k < |s| ==> s[k].serial == t[k].serial && s[k].id == t[k].id
    ensures Ordered(t, next)
  {
  }

  /** Looking an item up by its id finds it. */
  lemma FindsItself(s: seq<Entry>, next: nat, k: nat)
    requires Ordered(s, next) && k < |s| && s[k].id != 0
    ensures First(s, ById(s[k].id)) == k
  {
    FirstIs(s, ById(s[k].id), k);
  }

  // ---------- counting the packets sent on this connection

  lemma {:induction false} NumSentAppend(s: seq<Entry>, t: seq<Entry>, sent: set<nat>)
    ensures NumSent(s + t, sent) == NumSent(s, sent) + NumSent(t, sent)
  {
    if s == [] {
      assert s + t == t;
    } else {
      assert (s + t)[1..] == s[1..] + t;
      NumSentAppend(s[1..], t, sent);
    }
  }

  lemma {:induction false} NumSentWithout(s: seq<Entry>, k: nat, sent: set<nat>)
    requires k < |s|
    ensures NumSent(Without(s, k), sent) == NumSent(s, sent) - (if s[k].serial in sent then 1 else 0)
  {
    assert s == s[..k] + [s[k]] + s[k + 1..];
    NumSentAppend(s[..k], s[k + 1..], sent);
    NumSentAppend(s[..k] + [s[k]], s[k + 1..], sent);
    NumSentAppend(s[..k], [s[k]], sent);
  }

  /** Only which serial numbers are where matters. */
  lemma {:induction false} NumSentSame(s: seq<Entry>, t: seq<Entry>, a: set<nat>, b: set<nat>)
    requires |s| == |t|
    requires forall k :: 0 <= k < |s| ==> (s[k].serial in a <==> t[k].serial in b)
    ensures NumSent(s, a) == NumSent(t, b)
  {
    if s != [] {
      NumSentSame(s[1..], t[1..], a, b);
    }
  }

  lemma NumSentMore(s: seq<Entry>, next: nat, k: nat, sent: set<nat>)
    requires Ordered(s, next) && k < |s| && s[k].serial !in sent
    ensures NumSent(s, sent + {s[k].serial}) == NumSent(s, sent) + 1
  {
    NumSentWithout(s, k, sent);
    NumSentWithout(s, k, sent + {s[k].serial});
    OrderedWithout(s, next, k);
    NumSentSame(Without(s, k), Without(s, k), sent, sent + {s[k].serial});
  }

  // ---------- sizes

  lemma {:induction false} UnsubscribeAppend(s: seq<Entry>, t: seq<Entry>)
    ensures UnsubscribeSize(s + t) == UnsubscribeSize(s) + UnsubscribeSize(t)
  {
    if s == [] {
      assert s + t == t;
    } else {
      assert (s + t)[1..] == s[1..] + t;
      UnsubscribeAppend(s[1..], t);
    }
  }

  lemma BoundedWithout(cfg: Config, s: seq<Entry>, k: nat)
    requires Bounded(cfg, s) && k < |s|
    ensures Bounded(cfg, Without(s, k))
  {
    SizeWithout(s, k);
    assert s == s[..k] + [s[k]] + s[k + 1..];
    UnsubscribeAppend(s[..k], s[k + 1..]);
    UnsubscribeAppend(s[..k] + [s[k]], s[k + 1..]);
    UnsubscribeAppend(s[..k], [s[k]]);
  }

  lemma {:induction false} BoundedSame(s: seq<Entry>, t: seq<Entry>)
    requires |s| == |t|
    requires forall k :: 0 <= k < |s| ==> |s[k].data| == |t[k].data| && s[k].kind == t[k].kind
    ensures Size(s) == Size(t) && UnsubscribeSize(s) == UnsubscribeSize(t)
  {
    if s != [] {
      BoundedSame(s[1..], t[1..]);
    }
  }

  /** A stored packet is admitted by its payload; its header fits the output buffer. Unsubscribes are not checked. */
  lemma BoundedAppend(cfg: Config, s: seq<Entry>, e: Entry, payload: nat)
    requires Bounded(cfg, s)
    requires (cfg.limit > 0 ==> payload + Size(s) <= cfg.limit) || e.kind == MSG_UNSUBSCRIBE
    requires |e.data| <= payload + cfg.bufferLength
    ensures Bounded(cfg, s + [e])
  {
    SizeAppend(s, [e]);
    UnsubscribeAppend(s, [e]);
  }

  // ---------- fates

  /** A list that keeps the serial numbers at the positions of another one, and may go on. */
  lemma PresentKept(s: seq<Entry>, t: seq<Entry>, serial: nat)
    requires |s| <= |t| && forall k :: 0 <= k < |s| ==> s[k].serial == t[k].serial
    ensures Present(s, serial) ==> Present(t, serial)
  {
    if Present(s, serial) {
      var k :| 0 <= k < |s| && s[k].serial == serial;
      assert t[k].serial == serial;
    }
  }

  lemma FatesKept(s: seq<Entry>, t: seq<Entry>, log: Log, after: Log, next: nat)
    requires Fates(s, log, next)
    requires |s| <= |t| && forall k :: 0 <= k < |s| ==> s[k].serial == t[k].serial
    requires forall n: nat :: Removals(after, n) == Removals(log, n)
    ensures Fates(t, after, next)
  {
    forall n: nat | n < next && !Present(t, n) ensures Removals(after, n) == 1 {
      PresentKept(s, t, n);
    }
  }

  lemma FatesNext(s: seq<Entry>, log: Log, next: nat)
    requires Fates(s, log, next) && Present(s, next)
    ensures Fates(s, log, next + 1)
  {
  }

  lemma FatesDropped(s: seq<Entry>, log: Log, next: nat, k: nat, fate: Fate, before: nat)
    requires Fates(s, log, next) && Ordered(s, next) && k < |s| && Removals(log, s[k].serial) == 0
    ensures Fates(Without(s, k), Then(log, Removed(s[k].serial, fate, before)), next)
  {
    OrderedWithout(s, next, k);
    var after := Then(log, Removed(s[k].serial, fate, before));
    forall n: nat | n < next && !Present(Without(s, k), n) ensures Removals(after, n) == 1 {
      if n != s[k].serial {
        assert !Present(s, n) by {
          assert forall j :: 0 <= j < |s| && j != k ==> s[j].serial != n;
        }
      }
    }
  }

  // ---------- the building blocks of the steps

  lemma StoreItems(v5: bool, log: Log, s: seq<Entry>, e: Entry, next: nat)
    requires Items(v5, log, s) && Ordered(s, next) && Below(log, next)
    requires e.serial == next && Wellformed(e) && e.pending == Queued && !(e.kind == MSG_PUBLISH && HasDup(e.data))
    ensures Items(v5, Then(log, Stored(next, e.id, e.data)), s + [e])
  {
    var after := Then(log, Stored(next, e.id, e.data));
    Unknown(log, next, next);
    assert Tracked(v5, after, e);
    forall k | 0 <= k < |s| ensures Tracked(v5, after, s[k]) {
      TrackedElsewhere(v5, log, after.event, s[k]);
    }
  }

  lemma StoreQuota(st: State, e: Entry)
    requires Quota(st.count, st.outbox, st.log) && Below(st.log, st.next) && e.serial == st.next
    ensures Quota(st.count, st.outbox + [e], Then(st.log, Stored(st.next, e.id, e.data)))
  {
    Unknown(st.log, st.next, st.next);
    NumSentAppend(st.outbox, [e], SentHere(st.log));
  }

  lemma StoreFates(st: State, e: Entry)
    requires Fates(st.outbox, st.log, st.next) && Below(st.log, st.next) && e.serial == st.next
    ensures Fates(st.outbox + [e], Then(st.log, Stored(st.next, e.id, e.data)), st.next + 1)
  {
    var t, log := st.outbox + [e], Then(st.log, Stored(st.next, e.id, e.data));
    Unknown(st.log, st.next, st.next);
    FatesKept(st.outbox, t, st.log, log, st.next);
    assert t[|st.outbox|].serial == st.next;
    FatesNext(t, log, st.next);
  }

  lemma StoreKeeps(cfg: Config, st: State, id: int, kind: int, qos: int, tick: int, packet: seq<byte>, payload: nat)
    requires Inv(cfg, st)
    requires Wellformed(Entry(st.next, id, kind, qos, tick, Queued, packet)) && !(kind == MSG_PUBLISH && HasDup(packet))
    requires id != 0 ==> FreshId(st.outbox, id)
    requires (cfg.limit > 0 ==> payload + Size(st.outbox) <= cfg.limit) || kind == MSG_UNSUBSCRIBE
    requires |packet| <= payload + cfg.bufferLength
    ensures Inv(cfg, Store(st, id, kind, qos, tick, packet))
  {
    var e := Entry(st.next, id, kind, qos, tick, Queued, packet);
    var t := Store(st, id, kind, qos, tick, packet);
    StoreItems(cfg.v5, st.log, st.outbox, e, st.next);
    OrderedAppend(st.outbox, st.next, e);
    BelowMore(st.log, st.next, t.next);
    if cfg.v5 {
      StoreQuota(st, e);
    }
    StoreFates(st, e);
    BoundedAppend(cfg, st.outbox, e, payload);
  }

  lemma DropItems(v5: bool, log: Log, s: seq<Entry>, next: nat, k: nat, fate: Fate, before: nat)
    requires Items(v5, log, s) && Ordered(s, next) && k < |s|
    ensures Items(v5, Then(log, Removed(s[k].serial, fate, before)), Without(s, k))
  {
    var after := Then(log, Removed(s[k].serial, fate, before));
    var t := Without(s, k);
    OrderedWithout(s, next, k);
    forall j | 0 <= j < |t| ensures Wellformed(t[j]) && Tracked(v5, after, t[j]) {
      var e := s[if j < k then j else j + 1];
      assert t[j] == e;
      TrackedElsewhere(v5, log, after.event, e);
    }
  }

  /** The counter gives a place back exactly where the quota's own account does. */
  lemma DropQuota(cfg: Config, st: State, k: nat, fate: Fate)
    requires cfg.v5 && Quota(st.count, st.outbox, st.log) && k < |st.outbox|
    requires fate !in {Published, Expired, Cleared} ==> st.outbox[k].serial !in SentHere(st.log)
    ensures var t := Dropped(cfg, st, k, fate); Quota(t.count, t.outbox, t.log)
  {
    NumSentWithout(st.outbox, k, SentHere(st.log));
  }

  lemma DropKeeps(cfg: Config, st: State, k: nat, fate: Fate)
    requires Inv(cfg, st) && k < |st.outbox|
    requires fate == SentQos0 ==> st.outbox[k].qos == 0
    requires fate in {Subscribed, Unsubscribed} ==> st.outbox[k].kind != MSG_PUBLISH
    ensures Inv(cfg, Dropped(cfg, st, k, fate))
  {
    DropItems(cfg.v5, st.log, st.outbox, st.next, k, fate, st.count);
    OrderedWithout(st.outbox, st.next, k);
    FatesDropped(st.outbox, st.log, st.next, k, fate, st.count);
    BoundedWithout(cfg, st.outbox, k);
    if cfg.v5 {
      DropQuota(cfg, st, k, fate);
    }
  }

  // ---------- writes

  function WroteEvent(e: Entry, bytes: seq<byte>, done: bool): Event {
    Wrote(e.serial, e.id, e.kind, e.qos, bytes, done)
  }

  lemma WroteItems(v5: bool, log: Log, s: seq<Entry>, next: nat, k: nat, f: Entry, bytes: seq<byte>, done: bool)
    requires Items(v5, log, s) && Ordered(s, next) && k < |s|
    requires Wellformed(f) && Tracked(v5, Then(log, WroteEvent(s[k], bytes, done)), f)
    ensures Items(v5, Then(log, WroteEvent(s[k], bytes, done)), s[k := f])
  {
    var after := Then(log, WroteEvent(s[k], bytes, done));
    forall j | 0 <= j < |s| && j != k ensures Tracked(v5, after, s[j]) {
      TrackedElsewhere(v5, log, after.event, s[j]);
    }
  }

  /** A place is taken in the quota exactly when the packet was not yet sent on this connection. */
  lemma WroteQuota(st: State, k: nat, f: Entry, bytes: seq<byte>, done: bool, count: nat)
    requires Quota(st.count, st.outbox, st.log) && Ordered(st.outbox, st.next) && k < |st.outbox|
    requires f.serial == st.outbox[k].serial
    requires var after := Then(st.log, WroteEvent(st.outbox[k], bytes, done));
             count == st.count + (if f.serial in SentHere(after) && f.serial !in SentHere(st.log) then 1 else 0)
    ensures Quota(count, st.outbox[k := f], Then(st.log, WroteEvent(st.outbox[k], bytes, done)))
  {
    var after := Then(st.log, WroteEvent(st.outbox[k], bytes, done));
    NumSentSame(st.outbox, st.outbox[k := f], SentHere(after), SentHere(after));
    if f.serial in SentHere(after) && f.serial !in SentHere(st.log) {
      NumSentMore(st.outbox, st.next, k, SentHere(st.log));
    } else {
      assert SentHere(after) == SentHere(st.log);
    }
  }

  lemma WroteKeeps(cfg: Config, st: State, k: nat, f: Entry, bytes: seq<byte>, done: bool, t: State)
    requires Inv(cfg, st) && k < |st.outbox|
    requires var e := st.outbox[k];
             && f == e.(tick := f.tick, pending := f.pending, data := f.data) && |f.data| == |e.data|
             && SamePacket(bytes, PacketOf(st.log, e.serial))
             && (e.kind == MSG_PUBLISH ==> (HasDup(bytes) <==> e.qos > 0 && WrittenBefore(st.log, e.serial)))
             && (e.kind == MSG_PUBLISH && e.id != 0 ==> !Blocked(st.log, e.id))
    requires t == Noted(st, WroteEvent(st.outbox[k], bytes, done)).(
                    outbox := st.outbox[k := f], count := t.count, phase := t.phase)
    requires Wellformed(f) && Tracked(cfg.v5, t.log, f)
    requires Counter(cfg, t)
    requires cfg.v5 ==>
      t.count == st.count + (if f.serial in SentHere(t.log) && f.serial !in SentHere(st.log) then 1 else 0)
    ensures Inv(cfg, t)
  {
    WroteItems(cfg.v5, st.log, st.outbox, st.next, k, f, bytes, done);
    OrderedUpdate(st.outbox, st.next, k, f);
    if cfg.v5 {
      WroteQuota(st, k, f, bytes, done, t.count);
    }
    FatesKept(st.outbox, t.outbox, st.log, t.log, st.next);
    BoundedSame(st.outbox, t.outbox);
  }

  lemma MarkedFacts(e: Entry, packet: seq<byte>)
    requires SamePacket(e.data, packet)
    ensures SamePacket(Marked(e).data, packet)
    ensures e.kind == MSG_PUBLISH && e.qos > 0 ==> HasDup(Marked(e).data)
    ensures !(e.kind == MSG_PUBLISH && e.qos > 0) ==> Marked(e) == e
  {
    WithDupFields(packet[0]);
    WithDupFields(e.data[0]);
  }

  /** A retransmission. */
  lemma ResentKeeps(cfg: Config, st: State, k: nat, written: bool)
    requires Inv(cfg, st) && k < |st.outbox| && st.outbox[k].pending == Transmitted
    ensures Inv(cfg, Resent(st, k, written))
  {
    var e := st.outbox[k];
    MarkedFacts(e, PacketOf(st.log, e.serial));
    WroteKeeps(cfg, st, k, Marked(e), Marked(e).data, written, Resent(st, k, written));
  }

  lemma SentAt(cfg: Config, st: State, k: nat, now: int, written: bool)
    requires Ordered(st.outbox, st.next) && k < |st.outbox|
    requires st.outbox[k].pending == Queued && st.outbox[k].id != 0 && st.outbox[k].qos <= 2
    requires !(st.outbox[k].kind == MSG_PUBLISH && st.outbox[k].qos == 0) && written
    ensures var e := st.outbox[k];
            Sent(cfg, st, k, now, written) == Noted(st, WroteEvent(e, e.data, true)).(
              outbox := st.outbox[k := e.(tick := now, pending := Transmitted)],
              count := if e.kind == MSG_PUBLISH && cfg.v5 then Incremented(st.count) else st.count)
  {
    var e := st.outbox[k];
    FindsItself(st.outbox, st.next, k);
    assert st.outbox[k := e] == st.outbox;
    var f := e.(tick := now);
    OrderedUpdate(st.outbox, st.next, k, f);
    FindsItself(st.outbox[k := f], st.next, k);
  }

  /** A first write, or the first after a requeue. The caller has checked the quota. */
  lemma SentKeeps(cfg: Config, st: State, k: nat, now: int, written: bool)
    requires Inv(cfg, st) && k < |st.outbox| && st.outbox[k].pending == Queued && st.phase == Connected
    requires st.outbox[k].kind == MSG_PUBLISH && st.outbox[k].qos > 0 ==> !QuotaFull(cfg, st)
    ensures Inv(cfg, Sent(cfg, st, k, now, written))
  {
    var e := st.outbox[k];
    if !written || (e.kind == MSG_PUBLISH && e.qos == 0) {
      UnchangedKeeps(cfg, st, k, written);
      if written { DropKeeps(cfg, Resent(st, k, true), k, SentQos0); }
    } else {
      WaitsKeeps(cfg, st, k, now);
    }
  }

  /** A written item that needs an ack waits for it. */
  lemma WaitsKeeps(cfg: Config, st: State, k: nat, now: int)
    requires Inv(cfg, st) && k < |st.outbox| && st.outbox[k].pending == Queued && st.phase == Connected
    requires st.outbox[k].kind == MSG_PUBLISH ==> st.outbox[k].qos > 0 && !QuotaFull(cfg, st)
    ensures Inv(cfg, Sent(cfg, st, k, now, true))
  {
    var e := st.outbox[k];
    SentAt(cfg, st, k, now, true);
    WroteKeeps(cfg, st, k, e.(tick := now, pending := Transmitted), e.data, true, Sent(cfg, st, k, now, true));
  }

  /** A queued item stays as it is if the write fails, or until it is dropped. */
  lemma UnchangedKeeps(cfg: Config, st: State, k: nat, written: bool)
    requires Inv(cfg, st) && k < |st.outbox| && st.outbox[k].pending == Queued && st.phase == Connected
    requires !written || (st.outbox[k].kind == MSG_PUBLISH && st.outbox[k].qos == 0)
    ensures Inv(cfg, Resent(st, k, written))
  {
    var e := st.outbox[k];
    assert st.outbox[k := e] == st.outbox;
    WroteKeeps(cfg, st, k, e, e.data, written, Resent(st, k, written));
  }

  // ---------- subscribe and unsubscribe, PUBREC, CONNACK

  lemma RequestedKeeps(cfg: Config, st: State, id: int, kind: int, packet: seq<byte>, now: int, written: bool)
    requires Inv(cfg, st) && FreshId(st.outbox, id) && packet != [] && |packet| <= cfg.bufferLength
    requires kind in {MSG_SUBSCRIBE, MSG_UNSUBSCRIBE}
    requires kind == MSG_SUBSCRIBE ==> !OverLimit(cfg, st, 0)
    ensures Inv(cfg, Requested(st, id, kind, packet, now, written))
  {
    var s := Store(st, id, kind, 0, now, packet);
    StoreKeeps(cfg, st, id, kind, 0, now, packet, 0);
    var k := |st.outbox|;
    FindsItself(s.outbox, s.next, k);
    WroteKeeps(cfg, s, k, s.outbox[k].(pending := Transmitted), packet, written,
               Requested(st, id, kind, packet, now, written));
  }

  lemma PubrecItem(cfg: Config, st: State, id: int, j: nat)
    requires Inv(cfg, st) && id != 0 && j < |st.outbox|
    ensures var e := SetPending(st.outbox, id, Acknowledged)[j];
            Wellformed(e) && Tracked(cfg.v5, Then(st.log, PubrecSeen(id)), e)
  {
    var k := First(st.outbox, ById(id));
    if j != k {
      assert st.outbox[j].id != id by {
        if j > k {
          assert st.outbox[k].id != st.outbox[j].id;
        } else {
          assert !Matches(st.outbox[j], ById(id));
        }
      }
      TrackedElsewhere(cfg.v5, st.log, PubrecSeen(id), st.outbox[j]);
    }
  }

  lemma PubrecItems(cfg: Config, st: State, id: int)
    requires Inv(cfg, st) && id != 0
    ensures var s := SetPending(st.outbox, id, Acknowledged);
            Items(cfg.v5, Then(st.log, PubrecSeen(id)), s) && Ordered(s, st.next)
  {
    forall j | 0 <= j < |st.outbox|
      ensures var e := SetPending(st.outbox, id, Acknowledged)[j];
              Wellformed(e) && Tracked(cfg.v5, Then(st.log, PubrecSeen(id)), e)
    {
      PubrecItem(cfg, st, id, j);
    }
    var k := First(st.outbox, ById(id));
    if k < |st.outbox| {
      OrderedUpdate(st.outbox, st.next, k, st.outbox[k].(pending := Acknowledged));
    }
  }

  lemma PubrecKeeps(cfg: Config, st: State, id: int)
    requires Inv(cfg, st) && id != 0
    ensures Inv(cfg, Noted(st, PubrecSeen(id)).(outbox := SetPending(st.outbox, id, Acknowledged)))
  {
    var t := Noted(st, PubrecSeen(id)).(outbox := SetPending(st.outbox, id, Acknowledged));
    PubrecItems(cfg, st, id);
    OrderedSame(st.outbox, t.outbox, st.next);
    NumSentSame(st.outbox, t.outbox, SentHere(st.log), SentHere(t.log));
    FatesKept(st.outbox, t.outbox, st.log, t.log, st.next);
    BoundedSame(st.outbox, t.outbox);
  }

  lemma {:induction false} NoneSent(s: seq<Entry>)
    ensures NumSent(s, {}) == 0
  {
    if s != [] {
      NoneSent(s[1..]);
    }
  }

  lemma ConnackItem(v5: bool, log: Log, e: Entry)
    requires Wellformed(e) && Tracked(v5, log, e)
    ensures var f := if v5 then RequeuedEntry(e) else e; Wellformed(f) && Tracked(v5, Then(log, Connack), f)
  {
    MarkedFacts(e, PacketOf(log, e.serial));
  }

  lemma ConnackItems(v5: bool, log: Log, s: seq<Entry>)
    requires Items(v5, log, s)
    ensures Items(v5, Then(log, Connack), if v5 then Requeued(s) else s)
  {
    forall j | 0 <= j < |s|
      ensures var f := if v5 then RequeuedEntry(s[j]) else s[j]; Wellformed(f) && Tracked(v5, Then(log, Connack), f)
    {
      ConnackItem(v5, log, s[j]);
    }
  }

  lemma ConnackKeeps(cfg: Config, st: State, receiveMax: nat)
    requires Inv(cfg, st) && st.phase == Init && receiveMax < 0x1_0000
    ensures Inv(cfg, Step(cfg, st, ConnackAccepted(receiveMax)))
  {
    var t := Step(cfg, st, ConnackAccepted(receiveMax));
    ConnackItems(cfg.v5, st.log, st.outbox);
    OrderedSame(st.outbox, t.outbox, st.next);
    NoneSent(t.outbox);
    FatesKept(st.outbox, t.outbox, st.log, t.log, st.next);
    BoundedSame(st.outbox, t.outbox);
  }

  // ---------- expiry and stop

  lemma {:induction false} ExpireKeeps(cfg: Config, st: State, now: int)
    requires Inv(cfg, st)
    ensures var t := ExpireAll(cfg, st, now); Inv(cfg, t) && t.phase == st.phase
    decreases |st.outbox|
  {
    var k := First(st.outbox, Overdue(now, cfg.expiry));
    if k < |st.outbox| {
      DropKeeps(cfg, st, k, Expired);
      ExpireKeeps(cfg, Dropped(cfg, st, k, Expired), now);
    }
  }

  /** What expiry leaves is what one filtering walk leaves. */
  lemma {:induction false} ExpireLeaves(cfg: Config, st: State, now: int)
    ensures ExpireAll(cfg, st, now).outbox == Keep(st.outbox, Overdue(now, cfg.expiry))
    decreases |st.outbox|
  {
    var q := Overdue(now, cfg.expiry);
    var k := First(st.outbox, q);
    if k < |st.outbox| {
      KeepDeleteFirst(st.outbox, q);
      ExpireLeaves(cfg, Dropped(cfg, st, k, Expired), now);
    } else {
      KeepNone(st.outbox, q);
    }
  }

  /** Expiry touches neither counter nor phase. */
  lemma {:induction false} ExpireFrame(cfg: Config, st: State, now: int)
    ensures var t := ExpireAll(cfg, st, now); t.(outbox := st.outbox, log := st.log) == st
    decreases |st.outbox|
  {
    var k := First(st.outbox, Overdue(now, cfg.expiry));
    if k < |st.outbox| {
      ExpireFrame(cfg, Dropped(cfg, st, k, Expired), now);
    }
  }

  lemma {:induction false} ClearFrame(cfg: Config, st: State)
    ensures var t := ClearAll(cfg, st); t.(outbox := st.outbox, log := st.log) == st && t.outbox == []
    decreases |st.outbox|
  {
    if st.outbox != [] {
      ClearFrame(cfg, Dropped(cfg, st, 0, Cleared));
    }
  }

  lemma {:induction false} ClearKeeps(cfg: Config, st: State)
    requires Inv(cfg, st)
    ensures var t := ClearAll(cfg, st); Inv(cfg, t) && t.outbox == []
    decreases |st.outbox|
  {
    if st.outbox != [] {
      DropKeeps(cfg, st, 0, Cleared);
      ClearKeeps(cfg, Dropped(cfg, st, 0, Cleared));
    }
  }

  // ---------- one step, any run

  lemma PublishKeeps(cfg: Config, st: State, i: Input)
    requires Inv(cfg, st) && Legal(cfg, st, i) && (i.PublishCall? || i.EnqueueCall?)
    ensures Inv(cfg, Step(cfg, st, i))
  {
    var tick := if i.PublishCall? then i.stored else i.now;
    if !OverLimit(cfg, st, i.payload) && (i.qos > 0 || i.EnqueueCall?) {
      StoreKeeps(cfg, st, i.id, MSG_PUBLISH, i.qos, tick, i.packet, i.payload);
      if i.PublishCall? && st.phase == Connected && !QuotaFull(cfg, st) {
        SentKeeps(cfg, Store(st, i.id, MSG_PUBLISH, i.qos, tick, i.packet), |st.outbox|, i.sent, i.written);
      }
    } else if i.PublishCall? && i.qos == 0 && st.phase == Connected {
      var ev := WroteUnstored(i.packet, i.written);
      forall j | 0 <= j < |st.outbox| ensures Tracked(cfg.v5, Then(st.log, ev), st.outbox[j]) {
        TrackedElsewhere(cfg.v5, st.log, ev, st.outbox[j]);
      }
      FatesKept(st.outbox, st.outbox, st.log, Then(st.log, ev), st.next);
    }
  }

  lemma CompletedKeeps(cfg: Config, st: State, id: int, kind: int, fate: Fate)
    requires Inv(cfg, st)
    requires fate == Published || (fate in {Subscribed, Unsubscribed} && kind in {MSG_SUBSCRIBE, MSG_UNSUBSCRIBE})
    ensures Inv(cfg, Completed(cfg, st, id, kind, fate))
  {
    var k := First(st.outbox, ByIdAndKind(id, kind));
    if k < |st.outbox| {
      MatchedKind(cfg.v5, st.log, st.outbox, k, id, kind);
      DropKeeps(cfg, st, k, fate);
    }
  }

  /** The search compares the low byte of the kind; no stored packet has more. */
  lemma MatchedKind(v5: bool, log: Log, s: seq<Entry>, k: nat, id: int, kind: int)
    requires Items(v5, log, s) && k < |s| && Matches(s[k], ByIdAndKind(id, kind))
    ensures s[k].kind == kind
  {
    assert Wellformed(s[k]);
  }

  lemma ChooseFacts(cfg: Config, st: State)
    requires Inv(cfg, st) && Choose(cfg, st) < |st.outbox|
    ensures var e := st.outbox[Choose(cfg, st)];
            e.pending == Queued && (e.kind == MSG_PUBLISH && e.qos > 0 ==> !QuotaFull(cfg, st))
  {
    assert Matches(st.outbox[First(st.outbox, ByPending(Queued))], ByPending(Queued));
  }

  lemma PassKeeps(cfg: Config, st: State, i: Input)
    requires Inv(cfg, st) && i.SendPass? && st.phase == Connected
    ensures Inv(cfg, Step(cfg, st, i))
  {
    var k := Choose(cfg, st);
    if k < |st.outbox| {
      ChooseFacts(cfg, st);
      SentKeeps(cfg, st, k, i.now, i.written);
    } else if i.due {
      var f := First(st.outbox, ByPending(Transmitted));
      if f < |st.outbox| && i.now - st.outbox[f].tick > cfg.retransmit {
        ResentKeeps(cfg, st, f, i.written);
      }
    }
  }

  lemma RequestKeeps(cfg: Config, st: State, i: Input)
    requires Inv(cfg, st) && Legal(cfg, st, i) && (i.SubscribeCall? || i.UnsubscribeCall?)
    ensures Inv(cfg, Step(cfg, st, i))
  {
    if st.phase == Connected && (i.SubscribeCall? ==> !OverLimit(cfg, st, 0)) {
      var kind := if i.SubscribeCall? then MSG_SUBSCRIBE else MSG_UNSUBSCRIBE;
      RequestedKeeps(cfg, st, i.id, kind, i.packet, i.now, i.written);
    }
  }

  lemma AckKeeps(cfg: Config, st: State, i: Input)
    requires Inv(cfg, st) && Legal(cfg, st, i) && st.phase == Connected
    requires i.Suback? || i.Unsuback? || i.Puback? || i.Pubcomp? || i.Pubrec?
    ensures Inv(cfg, Step(cfg, st, i))
  {
    match i
    case Suback(id) => CompletedKeeps(cfg, st, id, MSG_SUBSCRIBE, Subscribed);
    case Unsuback(id) => CompletedKeeps(cfg, st, id, MSG_UNSUBSCRIBE, Unsubscribed);
    case Puback(id) => CompletedKeeps(cfg, st, id, MSG_PUBLISH, Published);
    case Pubcomp(id) => CompletedKeeps(cfg, st, id, MSG_PUBLISH, Published);
    case Pubrec(id) => PubrecKeeps(cfg, st, id);
  }

  /** Every legal step keeps the invariant. */
  lemma StepKeeps(cfg: Config, st: State, i: Input)
    requires Inv(cfg, st) && Legal(cfg, st, i)
    ensures Inv(cfg, Step(cfg, st, i))
  {
    if i.PublishCall? || i.EnqueueCall? {
      PublishKeeps(cfg, st, i);
    } else if i.SubscribeCall? || i.UnsubscribeCall? {
      RequestKeeps(cfg, st, i);
    } else if i.ExpiryPass? {
      ExpireKeeps(cfg, st, i.now);
    } else if i.Stop? {
      ClearKeeps(cfg, st);
    } else if i.ConnackAccepted? && st.phase == Init {
      ConnackKeeps(cfg, st, i.receiveMax);
    } else if i.SendPass? && st.phase == Connected {
      PassKeeps(cfg, st, i);
    } else if (i.Suback? || i.Unsuback? || i.Puback? || i.Pubcomp? || i.Pubrec?) && st.phase == Connected {
      AckKeeps(cfg, st, i);
    }
  }

  lemma {:induction false} RunKeeps(cfg: Config, st: State, inputs: seq<Input>)
    requires Inv(cfg, st) && LegalRun(cfg, st, inputs)
    ensures Inv(cfg, Run(cfg, st, inputs))
    decreases |inputs|
  {
    if inputs != [] {
      StepKeeps(cfg, st, inputs[0]);
      RunKeeps(cfg, Step(cfg, st, inputs[0]), inputs[1..]);
    }
  }

  lemma Reachable(cfg: Config, receiveMax: nat, inputs: seq<Input>)
    requires receiveMax < 0x1_0000 && LegalRun(cfg, Initial(receiveMax), inputs)
    ensures Inv(cfg, Run(cfg, Initial(receiveMax), inputs))
  {
    RunKeeps(cfg, Initial(receiveMax), inputs);
  }
}
