/** What each input does, item by item, told without the pieces that the steps are made of. */
module Effects {
  import opened Bytes
  import opened OutboxModel
  import opened Protocol
  import opened Invariants
  import opened Provenance
  import G = Guarantees

  predicate Counted(e: Entry) {
    e.kind == MSG_PUBLISH && e.qos > 0
  }

  predicate HasRoom(cfg: Config, st: State) {
    !cfg.v5 || st.count < st.receiveMax
  }

  predicate WithinLimit(cfg: Config, st: State, payload: nat) {
    cfg.limit == 0 || payload + Size(st.outbox) <= cfg.limit
  }

  // ---------- acks

  /**
   * An ack removes the request it answers and nothing else, and gives the place of a publish back: the converse of
   * Provenance.RemovalHasCause.
   */
  lemma AckEnds(cfg: Config, st: State, i: Input, j: nat)
    requires Inv(cfg, st) && st.phase == Connected && j < |st.outbox|
    requires Completes(i, st.outbox[j].kind) && i.id == st.outbox[j].id != 0
    ensures var t := Step(cfg, st, i);
            && t.outbox == st.outbox[..j] + st.outbox[j + 1..] && Gone(t.outbox, st.outbox[j].serial)
            && t == st.(outbox := t.outbox, count := t.count, log := t.log)
            && t.count == if cfg.v5 && st.outbox[j].kind == MSG_PUBLISH && st.count > 0 then st.count - 1 else st.count
  {
    assert Wellformed(st.outbox[j]);
    OnlyMatch(st.outbox, st.next, j, st.outbox[j].kind);
    OrderedWithout(st.outbox, st.next, j);
  }

  /** Ids are in use once, so the search for one ends there. */
  lemma OnlyMatch(s: seq<Entry>, next: nat, j: nat, kind: int)
    requires Ordered(s, next) && j < |s| && s[j].id != 0 && 0 <= kind < 0x100 && s[j].kind == kind
    ensures First(s, ByIdAndKind(s[j].id, kind)) == j
  {
    FirstIs(s, ByIdAndKind(s[j].id, kind), j);
  }

  predicate IsAck(i: Input) {
    i.Puback? || i.Pubcomp? || i.Suback? || i.Unsuback?
  }

  /** An ack that answers no stored request changes nothing. */
  lemma AckOfNothing(cfg: Config, st: State, i: Input)
    requires Inv(cfg, st) && IsAck(i)
    requires forall j :: 0 <= j < |st.outbox| ==> !(Completes(i, st.outbox[j].kind) && i.id == st.outbox[j].id)
    ensures Step(cfg, st, i) == st
  {
    var q := ByIdAndKind(i.id, AnsweredBy(i));
    forall j | 0 <= j < |st.outbox| ensures !Matches(st.outbox[j], q) {
      assert Wellformed(st.outbox[j]);
    }
    FirstIs(st.outbox, q, |st.outbox|);
  }

  /** A PUBREC acknowledges the item with its id. */
  lemma PubrecAcknowledges(cfg: Config, st: State, i: Input, j: nat)
    requires Inv(cfg, st) && st.phase == Connected && i.Pubrec? && j < |st.outbox| && i.id == st.outbox[j].id != 0
    ensures Step(cfg, st, i) == st.(outbox := st.outbox[j := st.outbox[j].(pending := Acknowledged)],
                                    log := Then(st.log, PubrecSeen(i.id)))
  {
    FindsItself(st.outbox, st.next, j);
  }

  lemma PubrecOfNothing(cfg: Config, st: State, i: Input)
    requires st.phase == Connected && i.Pubrec? && forall j :: 0 <= j < |st.outbox| ==> st.outbox[j].id != i.id
    ensures Step(cfg, st, i) == st.(log := Then(st.log, PubrecSeen(i.id)))
  {
    FirstIs(st.outbox, ById(i.id), |st.outbox|);
  }

  // ---------- publish and enqueue calls

  /** In every phase an accepted enqueue call stores its message last, queued; any other changes nothing. */
  lemma EnqueueStores(cfg: Config, st: State, i: Input)
    requires i.EnqueueCall? && i.qos >= 0
    ensures Step(cfg, st, i)
            == if WithinLimit(cfg, st, i.payload) && (i.qos > 0 || i.store) then
                 st.(outbox := st.outbox + [Entry(st.next, i.id, MSG_PUBLISH, i.qos, i.now, Queued, i.packet)],
                     next := st.next + 1, log := Then(st.log, Stored(st.next, i.id, i.packet)))
               else st
  {
  }

  /** Whether a publish call writes at once. */
  predicate WritesNow(cfg: Config, st: State, i: Input)
    requires i.PublishCall?
  {
    st.phase == Connected && (i.qos > 0 ==> WithinLimit(cfg, st, i.payload) && HasRoom(cfg, st))
  }

  /**
   * In every phase a publish call with QoS > 0 within the limit stores its message behind the others: transmitted if it
   * was written at once, and then counted; else queued. A write that fails ends the connection.
   */
  lemma PublishStores(cfg: Config, st: State, i: Input)
    requires Inv(cfg, st) && Legal(cfg, st, i) && i.PublishCall? && i.qos > 0 && WithinLimit(cfg, st, i.payload)
    ensures var sent := WritesNow(cfg, st, i) && i.written;
            var e := Entry(st.next, i.id, MSG_PUBLISH, i.qos, if sent then i.sent else i.stored,
                           if sent then Transmitted else Queued, i.packet);
            var log := Then(st.log, Stored(st.next, i.id, i.packet));
            Step(cfg, st, i) == State(
              if WritesNow(cfg, st, i) && !i.written then WaitReconnect else st.phase,
              st.outbox + [e], if sent && cfg.v5 then st.count + 1 else st.count, st.receiveMax, st.next + 1,
              if WritesNow(cfg, st, i) then Then(log, Wrote(st.next, i.id, MSG_PUBLISH, i.qos, i.packet, i.written))
              else log)
  {
    if WritesNow(cfg, st, i) {
      var s := Store(st, i.id, MSG_PUBLISH, i.qos, i.stored, i.packet);
      LastSent(cfg, s, st.outbox, s.outbox[|st.outbox|], i.sent, i.written);
    }
  }

  /** A write of the item stored last. */
  lemma LastSent(cfg: Config, s: State, rest: seq<Entry>, e: Entry, now: int, written: bool)
    requires s.outbox == rest + [e] && e.pending == Queued && Counted(e) && e.id != 0 && s.count < 0xFFFF
    requires forall k :: 0 <= k < |rest| ==> rest[k].id != e.id
    ensures var log := Then(s.log, Wrote(e.serial, e.id, e.kind, e.qos, e.data, written));
            Sent(cfg, s, |rest|, now, written)
            == if written then
                 s.(outbox := rest + [e.(tick := now, pending := Transmitted)],
                    count := if cfg.v5 then s.count + 1 else s.count, log := log)
               else s.(phase := WaitReconnect, log := log)
  {
    var k := |rest|;
    assert s.outbox[k := e] == s.outbox;
    if written {
      FirstIs(s.outbox, ById(e.id), k);
      var t := rest + [e.(tick := now)];
      assert SetTick(s.outbox, e.id, now) == t;
      FirstIs(t, ById(e.id), k);
      assert SetPending(t, e.id, Transmitted) == rest + [e.(tick := now, pending := Transmitted)];
    }
  }

  /** Beyond the limit nothing is stored or written; a QoS 0 publish is written at once or not at all, never stored. */
  lemma PublishPasses(cfg: Config, st: State, i: Input)
    requires i.PublishCall? && i.qos >= 0 && !(i.qos > 0 && WithinLimit(cfg, st, i.payload))
    ensures Step(cfg, st, i)
            == if WritesNow(cfg, st, i) then
                 st.(phase := if i.written then Connected else WaitReconnect,
                     log := Then(st.log, WroteUnstored(i.packet, i.written)))
               else st
  {
  }

  // ---------- subscribe and unsubscribe calls

  predicate IsRequest(i: Input) {
    i.SubscribeCall? || i.UnsubscribeCall?
  }

  predicate Accepted(cfg: Config, st: State, i: Input) {
    IsRequest(i) && st.phase == Connected && (i.SubscribeCall? ==> WithinLimit(cfg, st, 0))
  }

  /**
   * An accepted request waits for its ack as transmitted, whether its write succeeded or not, and no connection ends;
   * any other changes nothing.
   */
  lemma RequestWaits(cfg: Config, st: State, i: Input)
    requires Inv(cfg, st) && Legal(cfg, st, i) && IsRequest(i)
    ensures var kind := if i.SubscribeCall? then MSG_SUBSCRIBE else MSG_UNSUBSCRIBE;
            Step(cfg, st, i)
            == if Accepted(cfg, st, i) then
                 st.(outbox := st.outbox + [Entry(st.next, i.id, kind, 0, i.now, Transmitted, i.packet)],
                     next := st.next + 1,
                     log := Then(Then(st.log, Stored(st.next, i.id, i.packet)),
                                 Wrote(st.next, i.id, kind, 0, i.packet, i.written)))
               else st
    ensures CountPending(Step(cfg, st, i).outbox, Queued) == CountPending(st.outbox, Queued)
  {
    if Accepted(cfg, st, i) {
      var kind := if i.SubscribeCall? then MSG_SUBSCRIBE else MSG_UNSUBSCRIBE;
      LastTransmitted(st, i.id, kind, i.packet, i.now);
      CountAppend(st.outbox, [Entry(st.next, i.id, kind, 0, i.now, Transmitted, i.packet)], Queued);
    }
  }

  lemma LastTransmitted(st: State, id: int, kind: int, packet: seq<byte>, now: int)
    requires FreshId(st.outbox, id)
    ensures SetPending(Store(st, id, kind, 0, now, packet).outbox, id, Transmitted)
            == st.outbox + [Entry(st.next, id, kind, 0, now, Transmitted, packet)]
  {
    var s := Store(st, id, kind, 0, now, packet).outbox;
    FirstIs(s, ById(id), |st.outbox|);
  }

  // ---------- passes of the task

  predicate FirstIn(s: seq<Entry>, p: Pending, k: nat) {
    k < |s| && s[k].pending == p && forall j :: 0 <= j < k ==> s[j].pending != p
  }

  /** The first queued item and, if that is a publish that the quota holds back, the first queued QoS 0 publish. */
  predicate NextToSend(cfg: Config, st: State, k: nat) {
    || (FirstIn(st.outbox, Queued, k) && (Counted(st.outbox[k]) ==> HasRoom(cfg, st)))
    || (&& k < |st.outbox| && G.Queued0(st.outbox[k]) && (forall j :: 0 <= j < k ==> !G.Queued0(st.outbox[j]))
        && !HasRoom(cfg, st) && exists f :: 0 <= f < k && FirstIn(st.outbox, Queued, f) && Counted(st.outbox[f]))
  }

  lemma ChosenExactly(cfg: Config, st: State, k: nat)
    requires Inv(cfg, st)
    ensures Choose(cfg, st) == k < |st.outbox| <==> NextToSend(cfg, st, k)
  {
    var c := Choose(cfg, st);
    if NextToSend(cfg, st, k) {
      IsChosen(cfg, st, k);
    } else if c == k < |st.outbox| {
      ChosenIsNext(cfg, st);
    }
  }

  lemma IsChosen(cfg: Config, st: State, k: nat)
    requires Inv(cfg, st) && NextToSend(cfg, st, k)
    ensures Choose(cfg, st) == k < |st.outbox|
  {
    if FirstIn(st.outbox, Queued, k) {
      FirstIs(st.outbox, ByPending(Queued), k);
    } else {
      var f :| 0 <= f < k && FirstIn(st.outbox, Queued, f) && Counted(st.outbox[f]);
      FirstIs(st.outbox, ByPending(Queued), f);
      Id0Exactly(cfg, st);
      FirstIs(st.outbox, ById(0), k);
    }
  }

  /** Only queued QoS 0 publishes have the id 0. */
  lemma Id0Exactly(cfg: Config, st: State)
    requires Inv(cfg, st)
    ensures forall j :: 0 <= j < |st.outbox| ==> (st.outbox[j].id == 0 <==> G.Queued0(st.outbox[j]))
  {
    forall j | 0 <= j < |st.outbox| ensures st.outbox[j].id == 0 <==> G.Queued0(st.outbox[j]) {
      assert Wellformed(st.outbox[j]);
    }
  }

  lemma ChosenIsNext(cfg: Config, st: State)
    requires Inv(cfg, st) && Choose(cfg, st) < |st.outbox|
    ensures NextToSend(cfg, st, Choose(cfg, st))
  {
    var f := First(st.outbox, ByPending(Queued));
    FirstMatch(st.outbox, Queued);
    if Choose(cfg, st) != f || (Counted(st.outbox[f]) && !HasRoom(cfg, st)) {
      Id0Exactly(cfg, st);
      var z := First(st.outbox, ById(0));
      forall j | 0 <= j < z ensures !G.Queued0(st.outbox[j]) {
        assert !Matches(st.outbox[j], ById(0));
      }
      assert z != f && FirstIn(st.outbox, Queued, f);
      assert f < z;
    }
  }

  lemma FirstMatch(s: seq<Entry>, p: Pending)
    ensures var f := First(s, ByPending(p));
            if f < |s| then FirstIn(s, p, f) else forall k :: 0 <= k < |s| ==> s[k].pending != p
  {
    forall j | 0 <= j < First(s, ByPending(p)) ensures s[j].pending != p {
      assert !Matches(s[j], ByPending(p));
    }
  }

  /**
   * A pass writes the next item as it is stored. If that fails the connection ends, and the item stays. Otherwise a QoS
   * 0 publish is done with; anything else is transmitted from now on, and a publish is counted.
   */
  lemma PassSends(cfg: Config, st: State, i: Input, k: nat)
    requires Inv(cfg, st) && st.phase == Connected && i.SendPass? && NextToSend(cfg, st, k)
    ensures var e := st.outbox[k];
            var log := Then(st.log, Wrote(e.serial, e.id, e.kind, e.qos, e.data, i.written));
            Step(cfg, st, i)
            == if !i.written then st.(phase := WaitReconnect, log := log)
               else if e.kind == MSG_PUBLISH && e.qos == 0 then
                 st.(outbox := st.outbox[..k] + st.outbox[k + 1..],
                     log := Then(log, Removed(e.serial, SentQos0, st.count)))
               else
                 st.(outbox := st.outbox[k := e.(tick := i.now, pending := Transmitted)],
                     count := if cfg.v5 && e.kind == MSG_PUBLISH then st.count + 1 else st.count, log := log)
  {
    ChosenExactly(cfg, st, k);
    var e := st.outbox[k];
    assert Wellformed(e) && st.outbox[k := e] == st.outbox;
    if i.written && !(e.kind == MSG_PUBLISH && e.qos == 0) {
      SentAt(cfg, st, k, i.now, true);
    }
  }

  /** The first item in that state is older than the time-out for sending again. */
  predicate TimedOut(cfg: Config, s: seq<Entry>, p: Pending, now: int) {
    exists k :: 0 <= k < |s| && FirstIn(s, p, k) && now - s[k].tick > cfg.retransmit
  }

  lemma TimedOutExactly(cfg: Config, st: State, p: Pending, now: int)
    ensures FirstDue(cfg, st, p, now) <==> TimedOut(cfg, st.outbox, p, now)
  {
    FirstMatch(st.outbox, p);
    if TimedOut(cfg, st.outbox, p, now) {
      var k :| 0 <= k < |st.outbox| && FirstIn(st.outbox, p, k) && now - st.outbox[k].tick > cfg.retransmit;
      FirstIs(st.outbox, ByPending(p), k);
    }
  }

  predicate Idle(cfg: Config, st: State) {
    forall k :: 0 <= k < |st.outbox| ==> !NextToSend(cfg, st, k)
  }

  lemma IdleExactly(cfg: Config, st: State)
    requires Inv(cfg, st)
    ensures Idle(cfg, st) <==> Choose(cfg, st) == |st.outbox|
  {
    if Choose(cfg, st) < |st.outbox| {
      ChosenIsNext(cfg, st);
    } else {
      forall k | 0 <= k < |st.outbox| ensures !NextToSend(cfg, st, k) {
        ChosenExactly(cfg, st, k);
      }
    }
  }

  function WithDupOn(e: Entry): Entry
    requires e.data != []
  {
    if Counted(e) then e.(data := e.data[0 := WithDup(e.data[0])]) else e
  }

  /**
   * A pass with nothing to send that is due writes the first transmitted item again, a publish with DUP, if and only if
   * that item is older than the time-out; and a PUBREL under the same condition on the first acknowledged item. The
   * connection ends if and only if one of these writes fails.
   */
  lemma PassSendsAgain(cfg: Config, st: State, i: Input)
    requires Inv(cfg, st) && st.phase == Connected && i.SendPass? && i.due && Idle(cfg, st)
    ensures var t := Step(cfg, st, i); var again := TimedOut(cfg, st.outbox, Transmitted, i.now);
            && (!again ==> t.outbox == st.outbox && t.log == st.log)
            && (forall k :: 0 <= k < |st.outbox| && FirstIn(st.outbox, Transmitted, k) && again ==>
                  var e := WithDupOn(st.outbox[k]);
                  && t.outbox == st.outbox[k := e]
                  && t.log == Then(st.log, Wrote(e.serial, e.id, e.kind, e.qos, e.data, i.written)))
            && t == st.(outbox := t.outbox, log := t.log, phase := t.phase)
            && t.phase == if (again && !i.written)
                             || (TimedOut(cfg, st.outbox, Acknowledged, i.now) && !i.pubrelWritten)
                          then WaitReconnect else Connected
  {
    IdleExactly(cfg, st);
    TimedOutExactly(cfg, st, Transmitted, i.now);
    AckedAsBefore(cfg, st, i.now, i.written);
    TimedOutExactly(cfg, st, Acknowledged, i.now);
    forall k | 0 <= k < |st.outbox| && FirstIn(st.outbox, Transmitted, k)
      ensures First(st.outbox, ByPending(Transmitted)) == k
    {
      FirstIs(st.outbox, ByPending(Transmitted), k);
    }
  }

  /** Sending a transmitted item again does not change whether a PUBREL is due. */
  lemma AckedAsBefore(cfg: Config, st: State, now: int, written: bool)
    ensures FirstDue(cfg, FirstResent(cfg, st, now, written), Acknowledged, now) == FirstDue(cfg, st, Acknowledged, now)
    ensures var t, k := FirstResent(cfg, st, now, written).outbox, First(st.outbox, ByPending(Acknowledged));
            |t| == |st.outbox| && First(t, ByPending(Acknowledged)) == k && (k < |t| ==> t[k].id == st.outbox[k].id)
  {
    var s, t := st.outbox, FirstResent(cfg, st, now, written).outbox;
    FirstIs(t, ByPending(Acknowledged), First(s, ByPending(Acknowledged)));
  }

  lemma PassRests(cfg: Config, st: State, i: Input)
    requires Inv(cfg, st) && i.SendPass? && (st.phase != Connected || (Idle(cfg, st) && !i.due))
    ensures Step(cfg, st, i) == st
  {
    IdleExactly(cfg, st);
  }

  // ---------- expiry, connections

  /** Expiry removes exactly the items older than its time-out; the others stay as they are, in order. */
  lemma ExpiryExactly(cfg: Config, st: State, i: Input)
    requires Inv(cfg, st) && i.ExpiryPass?
    ensures var t := Step(cfg, st, i);
            && t == st.(outbox := t.outbox, log := t.log) && Ordered(t.outbox, t.next)
            && (forall j :: 0 <= j < |st.outbox| ==>
                  if i.now - st.outbox[j].tick > cfg.expiry then Gone(t.outbox, st.outbox[j].serial)
                  else st.outbox[j] in t.outbox)
            && (forall j :: 0 <= j < |t.outbox| ==> t.outbox[j] in st.outbox)
  {
    ExpireLeaves(cfg, st, i.now);
    ExpireFrame(cfg, st, i.now);
    ExpireKeeps(cfg, st, i.now);
    var q := Overdue(i.now, cfg.expiry);
    var kept := Keep(st.outbox, q);
    forall k | 0 <= k < |kept| ensures kept[k] in st.outbox && !Matches(kept[k], q) {
      KeptWasThere(st.outbox, q, k);
    }
    forall j | 0 <= j < |st.outbox|
      ensures if i.now - st.outbox[j].tick > cfg.expiry then Gone(kept, st.outbox[j].serial) else st.outbox[j] in kept
    {
      if Matches(st.outbox[j], q) {
        OldIsGone(st.outbox, st.next, q, j, kept);
      } else {
        KeptStays(st.outbox, q, j);
      }
    }
  }

  lemma OldIsGone(s: seq<Entry>, next: nat, q: Query, j: nat, kept: seq<Entry>)
    requires Ordered(s, next) && j < |s| && Matches(s[j], q)
    requires forall k :: 0 <= k < |kept| ==> kept[k] in s && !Matches(kept[k], q)
    ensures Gone(kept, s[j].serial)
  {
    forall k | 0 <= k < |kept| ensures kept[k].serial != s[j].serial {
      var i :| 0 <= i < |s| && s[i] == kept[k];
    }
  }

  /** The end of the task empties the outbox. */
  lemma StopClears(cfg: Config, st: State)
    ensures var t := Step(cfg, st, Input.Stop); t == st.(phase := Disconnected, outbox := [], log := t.log)
  {
    ClearFrame(cfg, st);
  }

  /** A connection takes over the quota it announces; with MQTT 5.0 everything transmitted is queued again, DUP set. */
  lemma ConnackTakesOver(cfg: Config, st: State, i: Input)
    requires i.ConnackAccepted? && st.phase == Init && forall k :: 0 <= k < |st.outbox| ==> st.outbox[k].data != []
    ensures var t := Step(cfg, st, i);
            && t == st.(phase := Connected, outbox := t.outbox, count := t.count, receiveMax := t.receiveMax,
                        log := Then(st.log, Connack))
            && (cfg.v5 ==> t.count == 0 && t.receiveMax == i.receiveMax)
            && (!cfg.v5 ==> t.count == st.count && t.receiveMax == st.receiveMax && t.outbox == st.outbox)
            && |t.outbox| == |st.outbox|
            && forall k :: 0 <= k < |st.outbox| && cfg.v5 ==>
                 t.outbox[k] == if st.outbox[k].pending == Transmitted then WithDupOn(st.outbox[k]).(pending := Queued)
                                else st.outbox[k]
  {
  }

  /** Whether a write fails for which the connection is given up. */
  predicate GivesUp(cfg: Config, st: State, i: Input) {
    match i
    case PublishCall(_, _, _, _, _, _, written) => WritesNow(cfg, st, i) && !written
    case SendPass(now, due, written, pubrelWritten) =>
      if !Idle(cfg, st) then !written
      else due && ((TimedOut(cfg, st.outbox, Transmitted, now) && !written)
                   || (TimedOut(cfg, st.outbox, Acknowledged, now) && !pubrelWritten))
    case _ => false
  }

  /** The phases: a connection lasts until it is aborted, stopped, or a write of a publish, a pass or a PUBREL fails. */
  lemma PhaseAfter(cfg: Config, st: State, i: Input)
    requires Inv(cfg, st) && Legal(cfg, st, i)
    ensures Step(cfg, st, i).phase
            == if i.Stop? then Disconnected
               else if i.Abort? then WaitReconnect
               else match st.phase
                    case Connected => if GivesUp(cfg, st, i) then WaitReconnect else Connected
                    case Init =>
                      if i.ConnackAccepted? then Connected else if i.ConnackRefused? then WaitReconnect else Init
                    case WaitReconnect => if i.Reconnect? then Init else WaitReconnect
                    case Disconnected => if i.StartTask? then Init else Disconnected
  {
    if i.PublishCall? {
      if i.qos > 0 && WithinLimit(cfg, st, i.payload) {
        PublishStores(cfg, st, i);
      } else {
        PublishPasses(cfg, st, i);
      }
    } else if i.SendPass? && st.phase == Connected {
      PassPhase(cfg, st, i);
    } else if i.ExpiryPass? {
      ExpireFrame(cfg, st, i.now);
    } else if i.Stop? {
      ClearFrame(cfg, st);
    }
  }

  lemma PassPhase(cfg: Config, st: State, i: Input)
    requires Inv(cfg, st) && st.phase == Connected && i.SendPass?
    ensures Step(cfg, st, i).phase == if GivesUp(cfg, st, i) then WaitReconnect else Connected
  {
    if k :| 0 <= k < |st.outbox| && NextToSend(cfg, st, k) {
      PassSends(cfg, st, i, k);
    } else if i.due {
      PassSendsAgain(cfg, st, i);
    } else {
      PassRests(cfg, st, i);
    }
  }
}
