/** What becomes of a message over runs: it is delivered, and no more often than it is due. */
module Runs {
  import opened Bytes
  import opened OutboxModel
  import opened Protocol
  import opened Invariants
  import opened Provenance
  import opened Effects
  import opened Guarantees

  // ---------- a message stored while there is no connection

  predicate Logged(log: Log, event: Event) {
    log.Then? && (log.event == event || Logged(log.past, event))
  }

  function Writing(e: Entry): Event {
    Wrote(e.serial, e.id, e.kind, e.qos, e.data, true)
  }

  /** How many queued items will claim a place in the quota. */
  function Claims(s: seq<Entry>): nat {
    if s == [] then 0 else (if s[0].pending == Queued && Counted(s[0]) then 1 else 0) + Claims(s[1..])
  }

  lemma {:induction false} ClaimsAppend(s: seq<Entry>, t: seq<Entry>)
    ensures Claims(s + t) == Claims(s) + Claims(t)
  {
    if s == [] {
      assert s + t == t;
    } else {
      assert (s + t)[1..] == s[1..] + t;
      ClaimsAppend(s[1..], t);
    }
  }

  lemma ClaimsUpdate(s: seq<Entry>, k: nat, f: Entry)
    requires k < |s| && f.pending != Queued
    ensures Claims(s[k := f]) == Claims(s) - if s[k].pending == Queued && Counted(s[k]) then 1 else 0
  {
    assert s == s[..k] + ([s[k]] + s[k + 1..]) && s[k := f] == s[..k] + ([f] + s[k + 1..]);
    ClaimsAppend(s[..k], [s[k]] + s[k + 1..]);
    ClaimsAppend(s[..k], [f] + s[k + 1..]);
  }

  lemma ClaimsDrop(s: seq<Entry>, k: nat)
    requires k < |s| && !Counted(s[k])
    ensures Claims(s[..k] + s[k + 1..]) == Claims(s)
  {
    assert s == s[..k] + ([s[k]] + s[k + 1..]);
    ClaimsAppend(s[..k], [s[k]] + s[k + 1..]);
    ClaimsAppend(s[..k], s[k + 1..]);
  }

  /** The others stay. */
  lemma OthersStay(s: seq<Entry>, k: nat, f: Entry, e: Entry)
    requires k < |s| && e in s && e != s[k]
    ensures e in s[k := f] && e in s[..k] + s[k + 1..]
  {
    var j :| 0 <= j < |s| && s[j] == e;
    assert s[k := f][j] == e && (s[..k] + s[k + 1..])[if j < k then j else j - 1] == e;
  }

  predicate Succeeds(i: Input) {
    i.SendPass? && i.written && i.pubrelWritten
  }

  /** All that is queued fits the quota. */
  predicate AllFits(cfg: Config, st: State) {
    cfg.v5 ==> st.count + Claims(st.outbox) <= st.receiveMax
  }

  /** A queued item waits or is written, and what fitted the quota fits it still. */
  lemma PassProgress(cfg: Config, st: State, i: Input, e: Entry)
    requires Inv(cfg, st) && st.phase == Connected && Succeeds(i) && AllFits(cfg, st)
    requires Logged(st.log, Writing(e)) || (e in st.outbox && e.pending == Queued)
    ensures var t := Step(cfg, st, i);
            t.phase == Connected && AllFits(cfg, t) && (Logged(t.log, Writing(e)) || e in t.outbox)
  {
    if k :| 0 <= k < |st.outbox| && NextToSend(cfg, st, k) {
      SendProgress(cfg, st, i, e, k);
    } else if i.due {
      AgainProgress(cfg, st, i, e);
    } else {
      PassRests(cfg, st, i);
    }
  }

  lemma SendProgress(cfg: Config, st: State, i: Input, e: Entry, k: nat)
    requires Inv(cfg, st) && st.phase == Connected && Succeeds(i) && AllFits(cfg, st) && NextToSend(cfg, st, k)
    requires Logged(st.log, Writing(e)) || (e in st.outbox && e.pending == Queued)
    ensures var t := Step(cfg, st, i);
            t.phase == Connected && AllFits(cfg, t) && (Logged(t.log, Writing(e)) || e in t.outbox)
  {
    PassSends(cfg, st, i, k);
    var s, f := st.outbox, st.outbox[k].(tick := i.now, pending := Transmitted);
    assert Wellformed(s[k]) && s[k].pending == Queued;
    if Counted(s[k]) || s[k].kind != MSG_PUBLISH { ClaimsUpdate(s, k, f); } else { ClaimsDrop(s, k); }
    if e in s && e != s[k] { OthersStay(s, k, f, e); }
  }

  lemma AgainProgress(cfg: Config, st: State, i: Input, e: Entry)
    requires Inv(cfg, st) && st.phase == Connected && Succeeds(i) && AllFits(cfg, st) && Idle(cfg, st) && i.due
    requires Logged(st.log, Writing(e)) || (e in st.outbox && e.pending == Queued)
    ensures var t := Step(cfg, st, i);
            t.phase == Connected && AllFits(cfg, t) && (Logged(t.log, Writing(e)) || e in t.outbox)
  {
    PassSendsAgain(cfg, st, i);
    if TimedOut(cfg, st.outbox, Transmitted, i.now) {
      var s := st.outbox;
      var k :| 0 <= k < |s| && FirstIn(s, Transmitted, k) && i.now - s[k].tick > cfg.retransmit;
      var f := WithDupOn(s[k]);
      ClaimsUpdate(s, k, f);
      if e in s && e.pending == Queued { OthersStay(s, k, f, e); }
    }
  }

  lemma {:induction false} PassesProgress(cfg: Config, st: State, passes: seq<Input>, e: Entry)
    requires Inv(cfg, st) && st.phase == Connected && AllFits(cfg, st) && e.pending == Queued
    requires forall k :: 0 <= k < |passes| ==> Succeeds(passes[k])
    requires Logged(st.log, Writing(e)) || e in st.outbox
    ensures var t := Run(cfg, st, passes);
            Inv(cfg, t) && AllFits(cfg, t) && (Logged(t.log, Writing(e)) || e in t.outbox)
    decreases |passes|
  {
    if passes != [] {
      PassProgress(cfg, st, passes[0], e);
      StepKeeps(cfg, st, passes[0]);
      PassesProgress(cfg, Step(cfg, st, passes[0]), passes[1..], e);
    }
  }

  lemma {:induction false} QueuedClaims(s: seq<Entry>, k: nat)
    requires k < |s| && s[k].pending == Queued && Counted(s[k])
    ensures Claims(s) > 0
  {
    if k > 0 {
      QueuedClaims(s[1..], k - 1);
    }
  }

  /** While all that is queued fits the quota, a pass finds nothing to send only if nothing is queued. */
  lemma IdleIsEmpty(cfg: Config, st: State)
    requires AllFits(cfg, st) && Idle(cfg, st)
    ensures forall k :: 0 <= k < |st.outbox| ==> st.outbox[k].pending != Queued
  {
    var f := First(st.outbox, ByPending(Queued));
    FirstMatch(st.outbox, Queued);
    if f < |st.outbox| {
      assert !NextToSend(cfg, st, f);
      QueuedClaims(st.outbox, f);
    }
  }

  /** What is queued when a connection comes is written, as it is then stored, by as many passes as items are queued. */
  lemma QueuedIsDelivered(cfg: Config, st: State, passes: seq<Input>, e: Entry)
    requires Inv(cfg, st) && st.phase == Connected && AllFits(cfg, st) && e in st.outbox && e.pending == Queued
    requires (forall k :: 0 <= k < |passes| ==> Succeeds(passes[k])) && |passes| >= CountPending(st.outbox, Queued)
    ensures Logged(Run(cfg, st, passes).log, Writing(e))
  {
    Drains(cfg, st, passes);
    PassesProgress(cfg, st, passes, e);
    var t := Run(cfg, st, passes);
    IdleExactly(cfg, t);
    IdleIsEmpty(cfg, t);
  }

  /** The steps from a call without a connection to the next connection. */
  function ToConnection(call: Input, receiveMax: nat): seq<Input> {
    [call] + ([StartTask] + ([Reconnect] + ([ConnackAccepted(receiveMax)] + [])))
  }

  /** The last three of them. */
  function Connecting(cfg: Config, st: State, receiveMax: nat): State {
    Step(cfg, Step(cfg, Step(cfg, st, StartTask), Reconnect), ConnackAccepted(receiveMax))
  }

  lemma ConnectingRuns(cfg: Config, st: State, call: Input, receiveMax: nat)
    ensures Run(cfg, st, ToConnection(call, receiveMax)) == Connecting(cfg, Step(cfg, st, call), receiveMax)
  {
    var connack := [ConnackAccepted(receiveMax)] + [];
    var s := Step(cfg, st, call);
    RunOne(cfg, st, call, [StartTask] + ([Reconnect] + connack));
    RunOne(cfg, s, StartTask, [Reconnect] + connack);
    RunOne(cfg, Step(cfg, s, StartTask), Reconnect, connack);
    RunOne(cfg, Step(cfg, Step(cfg, s, StartTask), Reconnect), ConnackAccepted(receiveMax), []);
  }

  /** The calls that store a message without a connection, and the message. */
  predicate StoresOffline(cfg: Config, st: State, i: Input) {
    && st.phase != Connected
    && ((i.EnqueueCall? && (i.qos > 0 || i.store)) || (i.PublishCall? && i.qos > 0))
    && WithinLimit(cfg, st, i.payload)
  }

  /** The message as it is stored. */
  function Message(st: State, i: Input): Entry
    requires i.EnqueueCall? || i.PublishCall?
  {
    Entry(st.next, i.id, MSG_PUBLISH, i.qos, if i.EnqueueCall? then i.now else i.stored, Queued, i.packet)
  }

  lemma WaitsForConnection(cfg: Config, st: State, i: Input)
    requires Inv(cfg, st) && Legal(cfg, st, i) && StoresOffline(cfg, st, i)
    ensures var s := Step(cfg, st, i); s.phase == st.phase && s.outbox == st.outbox + [Message(st, i)]
  {
    if i.EnqueueCall? { EnqueueStores(cfg, st, i); } else { PublishStores(cfg, st, i); }
  }

  lemma ReachesInit(cfg: Config, st: State)
    requires Inv(cfg, st) && st.phase != Connected
    ensures Step(cfg, Step(cfg, st, StartTask), Reconnect) == st.(phase := Init) && Inv(cfg, st.(phase := Init))
  {
    StepKeeps(cfg, st, StartTask);
    StepKeeps(cfg, Step(cfg, st, StartTask), Reconnect);
  }

  lemma ConnectionTakesOver(cfg: Config, st: State, receiveMax: nat, e: Entry)
    requires Inv(cfg, st) && st.phase == Init && receiveMax < 0x1_0000 && e in st.outbox && e.pending == Queued
    ensures var t := Step(cfg, st, ConnackAccepted(receiveMax));
            && Inv(cfg, t) && t.phase == Connected && e in t.outbox
            && (cfg.v5 ==> t.count == 0 && t.receiveMax == receiveMax)
  {
    StepKeeps(cfg, st, ConnackAccepted(receiveMax));
    assert forall k :: 0 <= k < |st.outbox| ==> Wellformed(st.outbox[k]);
    ConnackTakesOver(cfg, st, ConnackAccepted(receiveMax));
    var j :| 0 <= j < |st.outbox| && st.outbox[j] == e;
    assert Step(cfg, st, ConnackAccepted(receiveMax)).outbox[j] == e;
  }

  /**
   * A message accepted without a connection is delivered: once connected, as many successful passes as items are queued
   * write it, if the quota has room for what is queued.
   */
  lemma OfflineIsDelivered(cfg: Config, st: State, i: Input, receiveMax: nat, passes: seq<Input>)
    requires Inv(cfg, st) && Legal(cfg, st, i) && StoresOffline(cfg, st, i) && receiveMax < 0x1_0000
    requires forall k :: 0 <= k < |passes| ==> Succeeds(passes[k])
    requires var t := Run(cfg, st, ToConnection(i, receiveMax));
             |passes| >= CountPending(t.outbox, Queued) && (cfg.v5 ==> Claims(t.outbox) <= receiveMax)
    ensures Logged(Run(cfg, Run(cfg, st, ToConnection(i, receiveMax)), passes).log,
                   Wrote(st.next, i.id, MSG_PUBLISH, i.qos, i.packet, true))
  {
    ConnectingRuns(cfg, st, i, receiveMax);
    WaitsForConnection(cfg, st, i);
    StepKeeps(cfg, st, i);
    var s := Step(cfg, st, i);
    assert s.outbox[|st.outbox|] == Message(st, i);
    ReachesInit(cfg, s);
    ConnectionTakesOver(cfg, s.(phase := Init), receiveMax, Message(st, i));
    QueuedIsDelivered(cfg, Connecting(cfg, s, receiveMax), passes, Message(st, i));
  }

  // ---------- a request is written once, and again only when that is due

  predicate NotQueued(s: seq<Entry>, serial: nat) {
    forall k :: 0 <= k < |s| && s[k].serial == serial ==> s[k].pending != Queued
  }

  lemma StaysUnqueued(cfg: Config, st: State, i: Input, serial: nat)
    requires serial < st.next && NotQueued(st.outbox, serial) && !(cfg.v5 && i.ConnackAccepted?)
    ensures NotQueued(Step(cfg, st, i).outbox, serial)
  {
    if !i.ConnackAccepted? {
      StepTraced(cfg, st, i);
      var t := Step(cfg, st, i).outbox;
      forall k | 0 <= k < |t| && t[k].serial == serial ensures t[k].pending != Queued {
        assert FromOld(st.outbox, t[k], i);
      }
    }
  }

  /** How often a stored packet was handed to the network. */
  function Writes(log: Log, serial: nat): nat {
    match log
    case Start => 0
    case Then(past, Wrote(s, _, _, _, _, _)) => Writes(past, serial) + (if s == serial then 1 else 0)
    case Then(past, _) => Writes(past, serial)
  }

  lemma {:induction false} ExpiryWritesNothing(cfg: Config, st: State, now: int, serial: nat)
    ensures Writes(ExpireAll(cfg, st, now).log, serial) == Writes(st.log, serial)
    decreases |st.outbox|
  {
    var k := First(st.outbox, Overdue(now, cfg.expiry));
    if k < |st.outbox| {
      ExpiryWritesNothing(cfg, Dropped(cfg, st, k, Expired), now, serial);
    }
  }

  lemma {:induction false} ClearingWritesNothing(cfg: Config, st: State, serial: nat)
    ensures Writes(ClearAll(cfg, st).log, serial) == Writes(st.log, serial)
    decreases |st.outbox|
  {
    if st.outbox != [] {
      ClearingWritesNothing(cfg, Dropped(cfg, st, 0, Cleared), serial);
    }
  }

  /** A retransmission of this item that is due. */
  predicate SentAgain(cfg: Config, st: State, i: Input, serial: nat) {
    && i.SendPass? && st.phase == Connected && i.due && Idle(cfg, st)
    && exists k :: 0 <= k < |st.outbox| && FirstIn(st.outbox, Transmitted, k) && st.outbox[k].serial == serial
                   && i.now - st.outbox[k].tick > cfg.retransmit
  }

  /** An item that is not queued is written only when sending it again is due. */
  lemma WrittenIfDue(cfg: Config, st: State, i: Input, serial: nat)
    requires Inv(cfg, st) && Legal(cfg, st, i) && serial < st.next && NotQueued(st.outbox, serial)
    ensures Writes(Step(cfg, st, i).log, serial)
            == Writes(st.log, serial) + if SentAgain(cfg, st, i, serial) then 1 else 0
  {
    if i.SendPass? && st.phase == Connected {
      PassWritesIfDue(cfg, st, i, serial);
    } else if i.PublishCall? || IsRequest(i) {
      CallWritesItsOwn(cfg, st, i, serial);
    } else if i.ExpiryPass? {
      ExpiryWritesNothing(cfg, st, i.now, serial);
    } else if i.Stop? {
      ClearingWritesNothing(cfg, st, serial);
    }
  }

  lemma CallWritesItsOwn(cfg: Config, st: State, i: Input, serial: nat)
    requires Inv(cfg, st) && Legal(cfg, st, i) && serial < st.next && (i.PublishCall? || IsRequest(i))
    ensures Writes(Step(cfg, st, i).log, serial) == Writes(st.log, serial)
  {
    if IsRequest(i) {
      RequestWaits(cfg, st, i);
    } else if i.qos > 0 && WithinLimit(cfg, st, i.payload) {
      PublishStores(cfg, st, i);
    } else {
      PublishPasses(cfg, st, i);
    }
  }

  lemma PassWritesIfDue(cfg: Config, st: State, i: Input, serial: nat)
    requires Inv(cfg, st) && serial < st.next && NotQueued(st.outbox, serial) && i.SendPass? && st.phase == Connected
    ensures Writes(Step(cfg, st, i).log, serial)
            == Writes(st.log, serial) + if SentAgain(cfg, st, i, serial) then 1 else 0
  {
    if k :| 0 <= k < |st.outbox| && NextToSend(cfg, st, k) {
      SendWritesItsOwn(cfg, st, i, k, serial);
      assert !Idle(cfg, st);
    } else if i.due {
      AgainWritesIfDue(cfg, st, i, serial);
    } else {
      PassRests(cfg, st, i);
    }
  }

  lemma SendWritesItsOwn(cfg: Config, st: State, i: Input, k: nat, serial: nat)
    requires Inv(cfg, st) && NotQueued(st.outbox, serial) && i.SendPass? && st.phase == Connected
    requires NextToSend(cfg, st, k)
    ensures Writes(Step(cfg, st, i).log, serial) == Writes(st.log, serial)
  {
    PassSends(cfg, st, i, k);
    assert st.outbox[k].serial != serial;
  }

  lemma AgainWritesIfDue(cfg: Config, st: State, i: Input, serial: nat)
    requires Inv(cfg, st) && i.SendPass? && st.phase == Connected && i.due && Idle(cfg, st)
    ensures Writes(Step(cfg, st, i).log, serial)
            == Writes(st.log, serial) + if SentAgain(cfg, st, i, serial) then 1 else 0
  {
    PassSendsAgain(cfg, st, i);
    if TimedOut(cfg, st.outbox, Transmitted, i.now) {
      var k :| 0 <= k < |st.outbox| && FirstIn(st.outbox, Transmitted, k)
               && i.now - st.outbox[k].tick > cfg.retransmit;
      assert SentAgain(cfg, st, i, serial) <==> st.outbox[k].serial == serial;
    }
  }

  function TimesSentAgain(cfg: Config, st: State, inputs: seq<Input>, serial: nat): nat
    decreases |inputs|
  {
    if inputs == [] then 0
    else (if SentAgain(cfg, st, inputs[0], serial) then 1 else 0)
         + TimesSentAgain(cfg, Step(cfg, st, inputs[0]), inputs[1..], serial)
  }

  lemma {:induction false} UnqueuedRun(cfg: Config, st: State, inputs: seq<Input>, serial: nat)
    requires Inv(cfg, st) && LegalRun(cfg, st, inputs) && serial < st.next && NotQueued(st.outbox, serial)
    requires cfg.v5 ==> forall k :: 0 <= k < |inputs| ==> !inputs[k].ConnackAccepted?
    ensures var t := Run(cfg, st, inputs);
            && Inv(cfg, t) && NotQueued(t.outbox, serial)
            && Writes(t.log, serial) == Writes(st.log, serial) + TimesSentAgain(cfg, st, inputs, serial)
    decreases |inputs|
  {
    if inputs != [] {
      StepKeeps(cfg, st, inputs[0]);
      StaysUnqueued(cfg, st, inputs[0], serial);
      WrittenIfDue(cfg, st, inputs[0], serial);
      NextGrows(cfg, st, inputs[0]);
      UnqueuedRun(cfg, Step(cfg, st, inputs[0]), inputs[1..], serial);
    }
  }

  lemma NextGrows(cfg: Config, st: State, i: Input)
    ensures Step(cfg, st, i).next >= st.next
  {
    if i.ExpiryPass? {
      ExpireFrame(cfg, st, i.now);
    } else if i.Stop? {
      ClearFrame(cfg, st);
    }
  }

  /**
   * An accepted request is written once, and from then on no pass chooses it: it is written again only when that is
   * due, as long as no connection of MQTT 5.0 queues it again.
   */
  lemma RequestWrittenOnce(cfg: Config, st: State, i: Input, later: seq<Input>)
    requires Inv(cfg, st) && Legal(cfg, st, i) && Accepted(cfg, st, i)
    requires var t := Step(cfg, st, i);
             LegalRun(cfg, t, later)
             && (cfg.v5 ==> forall k :: 0 <= k < |later| ==> !later[k].ConnackAccepted?)
    ensures var t := Step(cfg, st, i); var u := Run(cfg, t, later);
            && Writes(u.log, st.next) == 1 + TimesSentAgain(cfg, t, later, st.next)
            && forall k :: 0 <= k < |u.outbox| && NextToSend(cfg, u, k) ==> u.outbox[k].serial != st.next
  {
    RequestStarts(cfg, st, i);
    var t := Step(cfg, st, i);
    UnqueuedRun(cfg, t, later, st.next);
    NotChosen(cfg, Run(cfg, t, later), st.next);
  }

  lemma NotChosen(cfg: Config, st: State, serial: nat)
    requires NotQueued(st.outbox, serial)
    ensures forall k :: 0 <= k < |st.outbox| && NextToSend(cfg, st, k) ==> st.outbox[k].serial != serial
  {
  }

  lemma RequestStarts(cfg: Config, st: State, i: Input)
    requires Inv(cfg, st) && Legal(cfg, st, i) && Accepted(cfg, st, i)
    ensures var t := Step(cfg, st, i);
            Inv(cfg, t) && st.next < t.next && NotQueued(t.outbox, st.next) && Writes(t.log, st.next) == 1
  {
    RequestWaits(cfg, st, i);
    StepKeeps(cfg, st, i);
    NotWrittenYet(st.log, st.next, st.next);
    OnlyTheNew(st.outbox, st.next, Step(cfg, st, i).outbox[|st.outbox|]);
  }

  lemma OnlyTheNew(s: seq<Entry>, next: nat, e: Entry)
    requires Ordered(s, next) && e.pending != Queued
    ensures NotQueued(s + [e], next)
  {
  }

  lemma {:induction false} NotWrittenYet(log: Log, next: nat, serial: nat)
    requires Below(log, next) && serial >= next
    ensures Writes(log, serial) == 0
  {
    if log.Then? {
      NotWrittenYet(log.past, next, serial);
    }
  }

  // ---------- the quota in force is the one announced

  lemma {:induction false} QuotaStays(cfg: Config, st: State, inputs: seq<Input>)
    requires Inv(cfg, st) && LegalRun(cfg, st, inputs)
    requires forall k :: 0 <= k < |inputs| ==> !inputs[k].ConnackAccepted? && !inputs[k].ConnackRefused?
    ensures Inv(cfg, Run(cfg, st, inputs)) && Run(cfg, st, inputs).receiveMax == st.receiveMax
    decreases |inputs|
  {
    if inputs != [] {
      StepKeeps(cfg, st, inputs[0]);
      QuotaUntouched(cfg, st, inputs[0]);
      QuotaStays(cfg, Step(cfg, st, inputs[0]), inputs[1..]);
    }
  }

  lemma QuotaUntouched(cfg: Config, st: State, i: Input)
    requires !i.ConnackAccepted? && !i.ConnackRefused?
    ensures Step(cfg, st, i).receiveMax == st.receiveMax
  {
    if i.ExpiryPass? {
      ExpireFrame(cfg, st, i.now);
    } else if i.Stop? {
      ClearFrame(cfg, st);
    }
  }

  /** After a CONNACK the quota it announced is in force, and packets in flight respect it as InFlightBound says. */
  lemma AnnouncedQuota(cfg: Config, st: State, receiveMax: nat, later: seq<Input>)
    requires cfg.v5 && Inv(cfg, st) && st.phase == Init && receiveMax < 0x1_0000
    requires LegalRun(cfg, Step(cfg, st, ConnackAccepted(receiveMax)), later)
    requires forall k :: 0 <= k < |later| ==> !later[k].ConnackAccepted? && !later[k].ConnackRefused?
    ensures var t := Run(cfg, Step(cfg, st, ConnackAccepted(receiveMax)), later);
            && t.receiveMax == receiveMax && (t.phase == Connected ==> t.count <= receiveMax)
            && (t.phase == Connected && Carried(t.log) == 0 ==> InFlight(t) <= receiveMax)
  {
    StepKeeps(cfg, st, ConnackAccepted(receiveMax));
    QuotaStays(cfg, Step(cfg, st, ConnackAccepted(receiveMax)), later);
  }
}
