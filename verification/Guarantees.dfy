/** What holds in every state the client can reach, whatever the broker and the network do. */
module Guarantees {
  import opened Bytes
  import opened OutboxModel
  import opened Protocol
  import opened Invariants

  // ---------- flow control: section 4.9 of MQTT 5.0

  /** Publishes with QoS > 0 that were sent on this connection and are still stored. */
  function InFlight(st: State): nat {
    NumSent(st.outbox, SentHere(st.log))
  }

  /** The counter, the packets in flight and the three ways they drift apart. */
  lemma QuotaConservation(cfg: Config, receiveMax: nat, inputs: seq<Input>)
    requires cfg.v5 && receiveMax < 0x1_0000 && LegalRun(cfg, Initial(receiveMax), inputs)
    ensures var st := Run(cfg, Initial(receiveMax), inputs);
            st.count + Carried(st.log) == InFlight(st) + Lost(st.log) + AtZero(st.log)
  {
    Reachable(cfg, receiveMax, inputs);
  }

  /**
   * No carried-over completion: packets in flight respect Receive Maximum. No loss either: the counter counts them. In
   * general they respect it if and only if the carried-over completions do not outweigh losses and room.
   */
  lemma InFlightBound(cfg: Config, receiveMax: nat, inputs: seq<Input>)
    requires cfg.v5 && receiveMax < 0x1_0000 && LegalRun(cfg, Initial(receiveMax), inputs)
    ensures var st := Run(cfg, Initial(receiveMax), inputs);
            st.phase == Connected && Carried(st.log) == 0 ==>
              InFlight(st) <= st.receiveMax && (Lost(st.log) == 0 ==> st.count == InFlight(st))
    ensures var st := Run(cfg, Initial(receiveMax), inputs);
            InFlight(st) <= st.receiveMax
            <==> st.count + Carried(st.log) <= st.receiveMax + Lost(st.log) + AtZero(st.log)
  {
    Reachable(cfg, receiveMax, inputs);
  }

  /** Whatever acks arrive, the counter stays within Receive Maximum. */
  lemma QuotaBound(cfg: Config, receiveMax: nat, inputs: seq<Input>)
    requires cfg.v5 && receiveMax < 0x1_0000 && LegalRun(cfg, Initial(receiveMax), inputs)
    ensures var st := Run(cfg, Initial(receiveMax), inputs);
            st.phase == Connected ==> st.count <= st.receiveMax < 0x1_0000
  {
    Reachable(cfg, receiveMax, inputs);
  }

  /** The 16-bit counter moves by one at a time, or is reset by CONNACK: it never wraps. */
  lemma CounterNeverWraps(cfg: Config, st: State, i: Input)
    requires Inv(cfg, st) && Legal(cfg, st, i)
    ensures var t := Step(cfg, st, i);
            ByOne(st.count, t.count) || (i.ConnackAccepted? && t.count == 0)
  {
    if i.PublishCall? {
      if i.qos > 0 && st.phase == Connected && !QuotaFull(cfg, st) {
        SentCount(cfg, Store(st, i.id, MSG_PUBLISH, i.qos, i.stored, i.packet), |st.outbox|, i.sent, i.written);
      }
    } else if i.SendPass? {
      if st.phase == Connected && Choose(cfg, st) < |st.outbox| {
        ChooseFacts(cfg, st);
        SentCount(cfg, st, Choose(cfg, st), i.now, i.written);
      }
    } else if i.ExpiryPass? {
      ExpireFrame(cfg, st, i.now);
    } else if i.Stop? {
      ClearFrame(cfg, st);
    }
  }

  predicate ByOne(before: nat, after: nat) {
    after == before || after + 1 == before || after == before + 1 < 0x1_0000
  }

  lemma SentCount(cfg: Config, st: State, k: nat, now: int, written: bool)
    requires k < |st.outbox| && Counter(cfg, st)
    requires st.outbox[k].kind == MSG_PUBLISH && st.outbox[k].qos != 0 ==> !QuotaFull(cfg, st)
    ensures ByOne(st.count, Sent(cfg, st, k, now, written).count)
  {
  }

  // ---------- QoS 2, DUP, and what is written: sections 4.3.3, 4.4 and 3.3.1.1 of MQTT 5.0

  function Extended(log: Log, events: seq<Event>): Log
    decreases |events|
  {
    if events == [] then log else Then(Extended(log, events[..|events| - 1]), events[|events| - 1])
  }

  /** In every run, no publish is written under an id between its PUBREC and the next packet stored under that id. */
  lemma Qos2Safety(cfg: Config, receiveMax: nat, inputs: seq<Input>, past: Log, id: int, between: seq<Event>)
    requires receiveMax < 0x1_0000 && LegalRun(cfg, Initial(receiveMax), inputs)
    requires Run(cfg, Initial(receiveMax), inputs).log == Extended(Then(past, PubrecSeen(id)), between)
    requires id != 0 && forall k :: 0 <= k < |between| && between[k].Stored? ==> between[k].id != id
    ensures forall k :: 0 <= k < |between| && between[k].Wrote? ==>
              !(between[k].id == id && between[k].kind == MSG_PUBLISH)
  {
    Reachable(cfg, receiveMax, inputs);
    StaysBlocked(Then(past, PubrecSeen(id)), id, between);
  }

  lemma {:induction false} StaysBlocked(log: Log, id: int, between: seq<Event>)
    requires Blocked(log, id) && id != 0 && Qos2Safe(Extended(log, between))
    requires forall k :: 0 <= k < |between| && between[k].Stored? ==> between[k].id != id
    ensures Blocked(Extended(log, between), id)
    ensures forall k :: 0 <= k < |between| && between[k].Wrote? ==>
              !(between[k].id == id && between[k].kind == MSG_PUBLISH)
    decreases |between|
  {
    if between != [] {
      StaysBlocked(log, id, between[..|between| - 1]);
    }
  }

  /**
   * In every run, a written publish has DUP if and only if its QoS is above 0 and an earlier write of the same
   * packet completed; and what is written is the packet as it was stored, DUP aside.
   */
  lemma WritesAreHonest(cfg: Config, receiveMax: nat, inputs: seq<Input>, past: Log, event: Event, later: seq<Event>)
    requires receiveMax < 0x1_0000 && LegalRun(cfg, Initial(receiveMax), inputs)
    requires Run(cfg, Initial(receiveMax), inputs).log == Extended(Then(past, event), later)
    ensures event.Wrote? && event.kind == MSG_PUBLISH ==>
              (HasDup(event.bytes) <==> event.qos > 0 && WrittenBefore(past, event.serial))
    ensures event.Wrote? ==> SamePacket(event.bytes, PacketOf(past, event.serial))
    ensures event.WroteUnstored? ==> !HasDup(event.bytes)
  {
    Reachable(cfg, receiveMax, inputs);
    PromisesBefore(Then(past, event), later);
  }

  lemma {:induction false} PromisesBefore(log: Log, later: seq<Event>)
    requires Promises(Extended(log, later))
    ensures Promises(log)
    decreases |later|
  {
    if later != [] {
      PromisesBefore(log, later[..|later| - 1]);
    }
  }

  // ---------- fates

  /** In every run, each packet ever stored is still in the outbox or was removed, once: never both, never twice. */
  lemma OneFate(cfg: Config, receiveMax: nat, inputs: seq<Input>, serial: nat)
    requires receiveMax < 0x1_0000 && LegalRun(cfg, Initial(receiveMax), inputs)
    ensures var st := Run(cfg, Initial(receiveMax), inputs);
            Removals(st.log, serial) + (if Present(st.outbox, serial) then 1 else 0)
            == if serial < st.next then 1 else 0
  {
    Reachable(cfg, receiveMax, inputs);
    var st := Run(cfg, Initial(receiveMax), inputs);
    if Present(st.outbox, serial) {
      var k :| 0 <= k < |st.outbox| && st.outbox[k].serial == serial;
      assert Tracked(cfg.v5, st.log, st.outbox[k]);
    } else if serial >= st.next {
      Unknown(st.log, st.next, serial);
    }
  }

  /** An ack for which nothing is stored changes nothing: a duplicate ack cannot remove a second packet. */
  lemma DuplicateAck(cfg: Config, st: State, i: Input)
    requires Inv(cfg, st) && (i.Puback? || i.Pubcomp? || i.Suback? || i.Unsuback?) && i.id != 0
    ensures Step(cfg, Step(cfg, st, i), i) == Step(cfg, st, i)
  {
    if st.phase == Connected {
      match i
      case Suback(id) => CompletedTwice(cfg, st, id, MSG_SUBSCRIBE, Subscribed);
      case Unsuback(id) => CompletedTwice(cfg, st, id, MSG_UNSUBSCRIBE, Unsubscribed);
      case Puback(id) => CompletedTwice(cfg, st, id, MSG_PUBLISH, Published);
      case Pubcomp(id) => CompletedTwice(cfg, st, id, MSG_PUBLISH, Published);
    }
  }

  lemma CompletedTwice(cfg: Config, st: State, id: int, kind: int, fate: Fate)
    requires Ordered(st.outbox, st.next) && id != 0
    ensures var t := Completed(cfg, st, id, kind, fate);
            t.phase == st.phase && Completed(cfg, t, id, kind, fate) == t
  {
    if First(st.outbox, ByIdAndKind(id, kind)) < |st.outbox| {
      NoneLeft(st.outbox, st.next, id, kind);
    }
  }

  /** The id was in use once. */
  lemma NoneLeft(s: seq<Entry>, next: nat, id: int, kind: int)
    requires Ordered(s, next) && id != 0 && First(s, ByIdAndKind(id, kind)) < |s|
    ensures var t := Without(s, First(s, ByIdAndKind(id, kind))); First(t, ByIdAndKind(id, kind)) == |t|
  {
    var k := First(s, ByIdAndKind(id, kind));
    var t := Without(s, k);
    forall j | 0 <= j < |t| ensures t[j].id != id {
      assert t[j] == s[if j < k then j else j + 1] && s[k].id == id;
    }
    FirstIs(t, ByIdAndKind(id, kind), |t|);
  }

  // ---------- sending queued items

  /** A pass that can send lowers the number of queued items by exactly one, when the write succeeds. */
  lemma PassSendsOne(cfg: Config, st: State, i: Input)
    requires Inv(cfg, st) && st.phase == Connected && i.SendPass? && i.written && Choose(cfg, st) < |st.outbox|
    ensures var t := Step(cfg, st, i);
            t.phase == Connected && CountPending(t.outbox, Queued) == CountPending(st.outbox, Queued) - 1
  {
    var k := Choose(cfg, st);
    var e := st.outbox[k];
    ChooseFacts(cfg, st);
    if e.kind == MSG_PUBLISH && e.qos == 0 {
      assert st.outbox[k := e] == st.outbox;
      CountWithout(st.outbox, k, Queued);
    } else {
      SentAt(cfg, st, k, i.now, true);
      CountUpdate(st.outbox, k, e.(tick := i.now, pending := Transmitted), Queued);
    }
  }

  predicate Queued0(e: Entry) {
    e.pending == Queued && e.kind == MSG_PUBLISH && e.qos == 0
  }

  /**
   * Nothing can be sent if and only if nothing is queued, or the quota is used up, the first queued item is a
   * publish with QoS > 0 and no QoS 0 publish is queued.
   */
  lemma NothingToSend(cfg: Config, st: State)
    requires Inv(cfg, st) && st.phase == Connected
    ensures var f := First(st.outbox, ByPending(Queued));
            Choose(cfg, st) == |st.outbox| <==>
              || f == |st.outbox|
              || (&& cfg.v5 && st.count == st.receiveMax
                  && st.outbox[f].kind == MSG_PUBLISH && st.outbox[f].qos > 0
                  && forall k :: 0 <= k < |st.outbox| ==> !Queued0(st.outbox[k]))
  {
    var z := First(st.outbox, ById(0));
    if z < |st.outbox| {
      assert Wellformed(st.outbox[z]) && Queued0(st.outbox[z]);
    } else {
      forall k | 0 <= k < |st.outbox| ensures !Queued0(st.outbox[k]) {
        assert !Matches(st.outbox[k], ById(0));
      }
    }
  }

  /** A publish with QoS > 0 leaves only after every item queued before it in the list. */
  lemma SentInListOrder(cfg: Config, st: State)
    requires Inv(cfg, st) && Choose(cfg, st) < |st.outbox| && st.outbox[Choose(cfg, st)].id != 0
    ensures forall k :: 0 <= k < Choose(cfg, st) ==> st.outbox[k].pending != Queued
  {
    forall k | 0 <= k < Choose(cfg, st) ensures st.outbox[k].pending != Queued {
      assert !Matches(st.outbox[k], ByPending(Queued));
    }
  }

  /** Giving a transmitted item its DUP bit does not change which item comes first. */
  lemma ChooseAfterMark(cfg: Config, st: State, k: nat, t: State)
    requires k < |st.outbox| && st.outbox[k].pending == Transmitted
    requires t == st.(outbox := st.outbox[k := Marked(st.outbox[k])], log := t.log)
    ensures Choose(cfg, t) == Choose(cfg, st) && CountPending(t.outbox, Queued) == CountPending(st.outbox, Queued)
  {
    CountUpdate(st.outbox, k, Marked(st.outbox[k]), Queued);
    FirstIs(t.outbox, ByPending(Queued), First(st.outbox, ByPending(Queued)));
    FirstIs(t.outbox, ById(0), First(st.outbox, ById(0)));
  }

  /** A pass with nothing to send, its writes succeeding, leaves the choice as it is. */
  lemma IdlePass(cfg: Config, st: State, i: Input)
    requires st.phase == Connected && i.SendPass? && i.written && i.pubrelWritten
    requires Choose(cfg, st) == |st.outbox|
    ensures var t := Step(cfg, st, i);
            t.phase == Connected && Choose(cfg, t) == |t.outbox|
            && CountPending(t.outbox, Queued) == CountPending(st.outbox, Queued)
  {
    var t := Step(cfg, st, i);
    var k := First(st.outbox, ByPending(Transmitted));
    if i.due && k < |st.outbox| && i.now - st.outbox[k].tick > cfg.retransmit {
      ChooseAfterMark(cfg, st, k, t);
    }
  }

  /** With writes succeeding and no other input, as many passes as there are queued items send all that can be sent. */
  lemma {:induction false} Drains(cfg: Config, st: State, passes: seq<Input>)
    requires Inv(cfg, st) && st.phase == Connected
    requires forall k :: 0 <= k < |passes| ==> passes[k].SendPass? && passes[k].written && passes[k].pubrelWritten
    requires |passes| >= CountPending(st.outbox, Queued)
    ensures var t := Run(cfg, st, passes); t.phase == Connected && Choose(cfg, t) == |t.outbox|
    decreases |passes|
  {
    if Choose(cfg, st) < |st.outbox| {
      ChooseFacts(cfg, st);
      NoneCounts(st.outbox, Queued);
      PassSendsOne(cfg, st, passes[0]);
    } else if passes != [] {
      IdlePass(cfg, st, passes[0]);
      DrainedStays(cfg, st, passes);
    }
    if passes != [] && Choose(cfg, st) < |st.outbox| {
      StepKeeps(cfg, st, passes[0]);
      Drains(cfg, Step(cfg, st, passes[0]), passes[1..]);
    }
  }

  lemma {:induction false} DrainedStays(cfg: Config, st: State, passes: seq<Input>)
    requires Inv(cfg, st) && st.phase == Connected && Choose(cfg, st) == |st.outbox|
    requires forall k :: 0 <= k < |passes| ==> passes[k].SendPass? && passes[k].written && passes[k].pubrelWritten
    ensures var t := Run(cfg, st, passes); t.phase == Connected && Choose(cfg, t) == |t.outbox|
    decreases |passes|
  {
    if passes != [] {
      IdlePass(cfg, st, passes[0]);
      StepKeeps(cfg, st, passes[0]);
      DrainedStays(cfg, Step(cfg, st, passes[0]), passes[1..]);
    }
  }

  // ---------- the size of the outbox

  /** In every run with a limit, only stored UNSUBSCRIBE packets go beyond the limit by more than one output buffer. */
  lemma Backpressure(cfg: Config, receiveMax: nat, inputs: seq<Input>)
    requires receiveMax < 0x1_0000 && LegalRun(cfg, Initial(receiveMax), inputs) && cfg.limit > 0
    ensures var st := Run(cfg, Initial(receiveMax), inputs);
            Size(st.outbox) <= cfg.limit + cfg.bufferLength + UnsubscribeSize(st.outbox)
  {
    Reachable(cfg, receiveMax, inputs);
  }

  lemma {:induction false} NoUnsubscribe(s: seq<Entry>)
    requires forall k :: 0 <= k < |s| ==> s[k].kind != MSG_UNSUBSCRIBE
    ensures UnsubscribeSize(s) == 0
  {
    if s != [] {
      NoUnsubscribe(s[1..]);
    }
  }

  predicate Unsubscribes(s: seq<Entry>) {
    exists k :: 0 <= k < |s| && s[k].kind == MSG_UNSUBSCRIBE
  }

  /** The bound of the documentation, limit plus one packet's overhead, holds in every state without one of those. */
  lemma BackpressureBound(cfg: Config, receiveMax: nat, inputs: seq<Input>)
    requires receiveMax < 0x1_0000 && LegalRun(cfg, Initial(receiveMax), inputs) && cfg.limit > 0
    ensures var st := Run(cfg, Initial(receiveMax), inputs);
            !Unsubscribes(st.outbox) ==> Size(st.outbox) <= cfg.limit + cfg.bufferLength
  {
    Backpressure(cfg, receiveMax, inputs);
    var st := Run(cfg, Initial(receiveMax), inputs);
    if !Unsubscribes(st.outbox) {
      NoUnsubscribe(st.outbox);
    }
  }

  /** An unsubscribe call while connected is stored whatever the limit says. */
  lemma UnsubscribeIsUnchecked(cfg: Config, st: State, i: Input)
    requires i.UnsubscribeCall? && st.phase == Connected
    ensures Size(Step(cfg, st, i).outbox) == Size(st.outbox) + |i.packet|
  {
    var s := Store(st, i.id, MSG_UNSUBSCRIBE, 0, i.now, i.packet);
    SizeAppend(st.outbox, [s.outbox[|st.outbox|]]);
    BoundedSame(s.outbox, SetPending(s.outbox, i.id, Transmitted));
  }

  // ---------- what does not hold

  /**
   * Sending is not first in, first out: a publish call writes its packet at once, whatever is queued before it,
   * if and only if the client is connected and the quota has room.
   */
  lemma PublishOvertakes(cfg: Config, st: State, i: Input)
    requires Inv(cfg, st) && Legal(cfg, st, i) && i.PublishCall? && i.qos > 0 && !OverLimit(cfg, st, i.payload)
    ensures var t := Step(cfg, st, i);
            t.log == Then(Then(st.log, Stored(st.next, i.id, i.packet)),
                          Wrote(st.next, i.id, MSG_PUBLISH, i.qos, i.packet, i.written))
            <==> st.phase == Connected && !QuotaFull(cfg, st)
    ensures forall k :: 0 <= k < |st.outbox| && st.outbox[k].pending == Queued ==>
              Step(cfg, st, i).outbox[k].pending == Queued
  {
    var s := Store(st, i.id, MSG_PUBLISH, i.qos, i.stored, i.packet);
    if st.phase == Connected && !QuotaFull(cfg, st) {
      FirstIs(s.outbox, ById(i.id), |st.outbox|);
      assert s.outbox[|st.outbox| := s.outbox[|st.outbox|]] == s.outbox;
      if i.written {
        StoreKeeps(cfg, st, i.id, MSG_PUBLISH, i.qos, i.stored, i.packet, i.payload);
        SentAt(cfg, s, |st.outbox|, i.sent, true);
      }
    }
  }
}
