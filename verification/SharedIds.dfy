/**
 * What becomes of packets that share an id. In random mode nothing keeps ids apart, and in incremental mode they meet
 * again after 65535 allocations; so none of this asks for legal steps.
 */
module SharedIds {
  import opened Bytes
  import opened OutboxModel
  import opened Protocol
  import opened Guarantees
  import opened Provenance
  import C = Counterexample

  // ---------- requeueing always ends

  lemma PendingKeepsFirst(s: seq<Entry>, id: int, p: Pending)
    requires FirstOfItsId(s)
    ensures FirstOfItsId(SetPending(s, id, p))
  {
    var k := First(s, ById(id));
    assert forall j :: 0 <= j < k ==> !Matches(s[j], ById(id));
  }

  lemma WithoutKeepsFirst(s: seq<Entry>, k: nat)
    requires FirstOfItsId(s) && k < |s|
    ensures FirstOfItsId(Without(s, k))
  {
    var t := Without(s, k);
    assert forall i :: 0 <= i < |t| ==> t[i] == s[if i < k then i else i + 1];
  }

  /** Any change but to the state of items. */
  lemma SameKeepsFirst(s: seq<Entry>, t: seq<Entry>)
    requires FirstOfItsId(s) && |t| == |s|
    requires forall k :: 0 <= k < |s| ==> t[k].id == s[k].id && (t[k].pending == s[k].pending || t[k].pending == Queued)
    ensures FirstOfItsId(t)
  {
  }

  lemma SentKeepsFirst(cfg: Config, st: State, k: nat, now: int, written: bool)
    requires FirstOfItsId(st.outbox) && k < |st.outbox|
    ensures FirstOfItsId(Sent(cfg, st, k, now, written).outbox)
  {
    var s := Resent(st, k, written);
    SameKeepsFirst(st.outbox, s.outbox);
    WithoutKeepsFirst(s.outbox, k);
    var t := SetTick(s.outbox, st.outbox[k].id, now);
    SameKeepsFirst(s.outbox, t);
    PendingKeepsFirst(t, st.outbox[k].id, Transmitted);
  }

  lemma {:induction false} ExpireKeepsFirst(cfg: Config, st: State, now: int)
    requires FirstOfItsId(st.outbox)
    ensures FirstOfItsId(ExpireAll(cfg, st, now).outbox)
    decreases |st.outbox|
  {
    var k := First(st.outbox, Overdue(now, cfg.expiry));
    if k < |st.outbox| {
      WithoutKeepsFirst(st.outbox, k);
      ExpireKeepsFirst(cfg, Dropped(cfg, st, k, Expired), now);
    }
  }

  lemma {:induction false} ClearEmpties(cfg: Config, st: State)
    ensures ClearAll(cfg, st).outbox == []
    decreases |st.outbox|
  {
    if st.outbox != [] {
      ClearEmpties(cfg, Dropped(cfg, st, 0, Cleared));
    }
  }

  lemma CallKeepsFirst(cfg: Config, st: State, i: Input)
    requires FirstOfItsId(st.outbox)
    requires i.PublishCall? || i.EnqueueCall? || i.SubscribeCall? || i.UnsubscribeCall?
    ensures FirstOfItsId(Step(cfg, st, i).outbox)
  {
    match i
    case PublishCall(id, qos, packet, payload, stored, sent, written) =>
      var s := Store(st, id, MSG_PUBLISH, qos, stored, packet);
      SentKeepsFirst(cfg, s, |st.outbox|, sent, written);
    case EnqueueCall(_, _, _, _, _, _) =>
    case SubscribeCall(id, packet, now, written) =>
      PendingKeepsFirst(Store(st, id, MSG_SUBSCRIBE, 0, now, packet).outbox, id, Transmitted);
    case UnsubscribeCall(id, packet, now, written) =>
      PendingKeepsFirst(Store(st, id, MSG_UNSUBSCRIBE, 0, now, packet).outbox, id, Transmitted);
  }

  lemma AckKeepsFirst(cfg: Config, st: State, id: int, kind: int, fate: Fate)
    requires FirstOfItsId(st.outbox)
    ensures FirstOfItsId(Completed(cfg, st, id, kind, fate).outbox)
  {
    var k := First(st.outbox, ByIdAndKind(id, kind));
    if k < |st.outbox| {
      WithoutKeepsFirst(st.outbox, k);
    }
  }

  lemma PassKeepsFirst(cfg: Config, st: State, i: Input)
    requires FirstOfItsId(st.outbox) && i.SendPass? && st.phase == Connected
    ensures FirstOfItsId(Step(cfg, st, i).outbox)
  {
    var k := Choose(cfg, st);
    if k < |st.outbox| {
      SentKeepsFirst(cfg, st, k, i.now, i.written);
    } else {
      SameKeepsFirst(st.outbox, Step(cfg, st, i).outbox);
    }
  }

  /** A state changes at the first item with its id, and a new item is not transmitted yet. */
  lemma StepKeepsFirst(cfg: Config, st: State, i: Input)
    requires FirstOfItsId(st.outbox)
    ensures FirstOfItsId(Step(cfg, st, i).outbox)
  {
    if i.PublishCall? || i.EnqueueCall? || i.SubscribeCall? || i.UnsubscribeCall? {
      CallKeepsFirst(cfg, st, i);
    } else if i.Suback? {
      AckKeepsFirst(cfg, st, i.id, MSG_SUBSCRIBE, Subscribed);
    } else if i.Unsuback? {
      AckKeepsFirst(cfg, st, i.id, MSG_UNSUBSCRIBE, Unsubscribed);
    } else if i.Puback? || i.Pubcomp? {
      AckKeepsFirst(cfg, st, i.id, MSG_PUBLISH, Published);
    } else if i.Pubrec? {
      PendingKeepsFirst(st.outbox, i.id, Acknowledged);
    } else if i.SendPass? && st.phase == Connected {
      PassKeepsFirst(cfg, st, i);
    } else if i.ExpiryPass? {
      ExpireKeepsFirst(cfg, st, i.now);
    } else if i.ConnackAccepted? {
      SameKeepsFirst(st.outbox, Requeued(st.outbox));
    } else if i.Stop? {
      ClearEmpties(cfg, st);
    }
  }

  lemma {:induction false} RunKeepsFirst(cfg: Config, st: State, inputs: seq<Input>)
    requires FirstOfItsId(st.outbox)
    ensures FirstOfItsId(Run(cfg, st, inputs).outbox)
    decreases |inputs|
  {
    if inputs != [] {
      StepKeepsFirst(cfg, st, inputs[0]);
      RunKeepsFirst(cfg, Step(cfg, st, inputs[0]), inputs[1..]);
    }
  }

  /** In every run, whatever ids are shared: each transmitted item is the first with its id, so requeueing ends. */
  lemma RequeueAlwaysEnds(cfg: Config, receiveMax: nat, inputs: seq<Input>)
    ensures var s := Run(cfg, Initial(receiveMax), inputs).outbox;
            FirstOfItsId(s) && RequeueTimes(s, CountPending(s, Transmitted)) == Requeued(s)
  {
    RunKeepsFirst(cfg, Initial(receiveMax), inputs);
    RequeueEnds(Run(cfg, Initial(receiveMax), inputs).outbox);
  }

  // ---------- stored packets stay fit to be sent

  predicate Fit(e: Entry) {
    0 <= e.id < 0x1_0000 && e.data != [] && (e.pending == Acknowledged ==> e.id != 0)
  }

  predicate AllFit(s: seq<Entry>) {
    forall k :: 0 <= k < |s| ==> Fit(s[k])
  }

  lemma StepKeepsFit(cfg: Config, st: State, i: Input)
    requires AllFit(st.outbox) && LegalButId(cfg, st, i)
    ensures AllFit(Step(cfg, st, i).outbox)
  {
    var t := Step(cfg, st, i).outbox;
    StepTraced(cfg, st, i);
    forall k | 0 <= k < |t| ensures Fit(t[k]) {
      if FromOld(st.outbox, t[k], i) {
        var j :| 0 <= j < |st.outbox| && Later(st.outbox[j], t[k], i);
        assert Fit(st.outbox[j]);
      } else {
        assert FromCall(t[k], i, st.next);
      }
    }
  }

  /** In every run, whatever ids are shared, stored packets have ids and bytes as a send needs them. */
  lemma {:induction false} RunKeepsFit(cfg: Config, st: State, inputs: seq<Input>)
    requires AllFit(st.outbox) && LegalButIdsRun(cfg, st, inputs)
    ensures AllFit(Run(cfg, st, inputs).outbox)
    decreases |inputs|
  {
    if inputs != [] {
      StepKeepsFit(cfg, st, inputs[0]);
      RunKeepsFit(cfg, Step(cfg, st, inputs[0]), inputs[1..]);
    }
  }

  // ---------- sending a packet whose id is taken

  /**
   * After a successful send an item that waits for an ack is transmitted if and only if no earlier item has its id.
   * Otherwise the first of those is transmitted, whatever it was before, and the item sent is as it was.
   */
  lemma SentLandsExactly(cfg: Config, st: State, k: nat, now: int)
    requires k < |st.outbox| && st.outbox[k].pending == Queued && !OneShot(st.outbox[k])
    ensures var t := Sent(cfg, st, k, now, true); var j := First(st.outbox, ById(st.outbox[k].id));
            && j <= k && (t.outbox[k].pending == Transmitted <==> j == k)
            && t.outbox == st.outbox[j := st.outbox[j].(tick := now, pending := Transmitted)]
  {
    var e := st.outbox[k];
    assert Matches(e, ById(e.id));
    assert st.outbox[k := e] == st.outbox;
    var j := First(st.outbox, ById(e.id));
    var s := SetTick(st.outbox, e.id, now);
    FirstIs(s, ById(e.id), j);
  }

  /** So a pass that sends the first queued item leaves one less queued if and only if that item's id is not taken. */
  lemma PassSendsOneExactly(cfg: Config, st: State, i: Input)
    requires st.phase == Connected && i.SendPass? && i.written
    requires Choose(cfg, st) == First(st.outbox, ByPending(Queued)) < |st.outbox|
    ensures var k := Choose(cfg, st); var e := st.outbox[k];
            CountPending(Step(cfg, st, i).outbox, Queued) == CountPending(st.outbox, Queued) - 1
            <==> OneShot(e) || First(st.outbox, ById(e.id)) == k
  {
    var k := Choose(cfg, st);
    var e := st.outbox[k];
    if OneShot(e) {
      assert st.outbox[k := e] == st.outbox;
      CountWithout(st.outbox, k, Queued);
    } else {
      SentLandsExactly(cfg, st, k, i.now);
      var j := First(st.outbox, ById(e.id));
      CountUpdate(st.outbox, j, st.outbox[j].(tick := i.now, pending := Transmitted), Queued);
    }
  }

  /** How often these bytes of this packet were written. */
  function Writes(log: Log, serial: nat, bytes: seq<byte>): nat {
    match log
    case Start => 0
    case Then(past, Wrote(s, _, _, _, b, done)) =>
      Writes(past, serial, bytes) + (if s == serial && b == bytes && done then 1 else 0)
    case Then(past, _) => Writes(past, serial, bytes)
  }

  /** The first queued item waits for an ack, and an earlier item has its id. */
  predicate Overlooked(s: seq<Entry>, k: nat) {
    k == First(s, ByPending(Queued)) < |s| && !OneShot(s[k]) && First(s, ById(s[k].id)) < k
  }

  lemma OverlookedStays(cfg: Config, st: State, k: nat, now: int)
    requires Overlooked(st.outbox, k)
    ensures var t := Sent(cfg, st, k, now, true);
            Overlooked(t.outbox, k) && t.outbox[k] == st.outbox[k] && t.phase == st.phase
            && Writes(t.log, st.outbox[k].serial, st.outbox[k].data)
               == Writes(st.log, st.outbox[k].serial, st.outbox[k].data) + 1
  {
    SentLandsExactly(cfg, st, k, now);
    var t := Sent(cfg, st, k, now, true);
    FirstIs(t.outbox, ByPending(Queued), k);
    FirstIs(t.outbox, ById(st.outbox[k].id), First(st.outbox, ById(st.outbox[k].id)));
  }

  /**
   * Without a quota such a packet is written again on every pass, the same bytes each time, so DUP is never added; it
   * stays queued, and nothing behind it is ever sent.
   */
  lemma {:induction false} WrittenOnEveryPass(cfg: Config, st: State, k: nat, passes: seq<Input>)
    requires !cfg.v5 && st.phase == Connected && Overlooked(st.outbox, k)
    requires forall i :: 0 <= i < |passes| ==> passes[i].SendPass? && passes[i].written
    ensures var t := Run(cfg, st, passes); var e := st.outbox[k];
            && t.phase == Connected && Overlooked(t.outbox, k) && t.outbox[k] == e
            && Writes(t.log, e.serial, e.data) == Writes(st.log, e.serial, e.data) + |passes|
    decreases |passes|
  {
    if passes != [] {
      OverlookedStays(cfg, st, k, passes[0].now);
      WrittenOnEveryPass(cfg, Step(cfg, st, passes[0]), k, passes[1..]);
    }
  }

  // ---------- a run in which a packet is written again after its PUBREC

  /** A second packet is queued under the id of an acknowledged one; sending it makes the first transmitted again. */
  function Story(): seq<Input> {
    [ConnackAccepted(2), C.Publishing(1), Pubrec(1), EnqueueCall(1, 2, C.PACKET, 0, true, 0),
     SendPass(0, false, true, true), SendPass(1, true, true, true)]
  }

  const AGAIN: seq<byte> := [0x3C]

  function T1(): State { State(Connected, [], 0, 2, 0, Then(Start, Connack)) }

  function T2(): State { State(Connected, [C.Item(0, 1, Transmitted)], 1, 2, 1, C.Sending(T1().log, 0, 1)) }

  function T3(): State { T2().(outbox := [C.Item(0, 1, Acknowledged)], log := Then(T2().log, PubrecSeen(1))) }

  function T4(): State {
    State(Connected, [C.Item(0, 1, Acknowledged), C.Item(1, 1, Queued)], 1, 2, 2,
          Then(T3().log, Stored(1, 1, C.PACKET)))
  }

  function T5(): State {
    State(Connected, [C.Item(0, 1, Transmitted), C.Item(1, 1, Queued)], 2, 2, 2,
          Then(T4().log, Wrote(1, 1, MSG_PUBLISH, 2, C.PACKET, true)))
  }

  function T6(): State {
    State(Connected, [C.Item(0, 1, Transmitted).(data := AGAIN), C.Item(1, 1, Queued)], 2, 2, 2,
          Then(T5().log, Wrote(0, 1, MSG_PUBLISH, 2, AGAIN, true)))
  }

  lemma FirstHalf()
    ensures Step(C.SETTINGS, Initial(0xFFFF), Story()[0]) == T1() && Step(C.SETTINGS, T1(), Story()[1]) == T2()
    ensures Step(C.SETTINGS, T2(), Story()[2]) == T3() && Step(C.SETTINGS, T3(), Story()[3]) == T4()
  {
    FirstIs([], ByPending(Transmitted), 0);
    C.Publishes(T1(), 1);
    FirstIs(T2().outbox, ById(1), 0);
    assert SetPending(T2().outbox, 1, Acknowledged) == T3().outbox;
    assert T3().outbox + [C.Item(1, 1, Queued)] == T4().outbox;
  }

  lemma SecondHalf()
    ensures Step(C.SETTINGS, T4(), Story()[4]) == T5() && Step(C.SETTINGS, T5(), Story()[5]) == T6()
  {
    FirstIs(T4().outbox, ByPending(Queued), 1);
    FirstIs(T4().outbox, ById(1), 0);
    SentLandsExactly(C.SETTINGS, T4(), 1, 0);
    assert Sent(C.SETTINGS, T4(), 1, 0, true).outbox == T5().outbox;
    FirstIs(T5().outbox, ByPending(Queued), 1);
    FirstIs(T5().outbox, ById(0), 2);
    FirstIs(T5().outbox, ByPending(Transmitted), 0);
    FieldsApart(3, 0, 2, 0);
    assert C.PACKET[0] == 0x34 && C.PACKET[0 := WithDup(0x34)] == AGAIN;
    var s := T5().outbox[0 := Marked(T5().outbox[0])];
    assert s == T6().outbox;
    FirstIs(s, ByPending(Acknowledged), 2);
  }

  /**
   * Six steps, legal but for the id of the fourth, in which a PUBLISH is written again, DUP set, after the PUBREC for
   * that very packet: section 4.3.3 of MQTT 5.0 forbids it.
   */
  lemma WrittenAfterPubrec()
    ensures var st := Run(C.SETTINGS, Initial(0xFFFF), Story());
            && st.log == Extended(Then(T2().log, PubrecSeen(1)),
                                  [Stored(1, 1, C.PACKET), Wrote(1, 1, MSG_PUBLISH, 2, C.PACKET, true),
                                   Wrote(0, 1, MSG_PUBLISH, 2, AGAIN, true)])
            && WrittenBefore(T2().log, 0) && SamePacket(AGAIN, PacketOf(T2().log, 0))
    ensures Legal(C.SETTINGS, Initial(0xFFFF), Story()[0]) && Legal(C.SETTINGS, T1(), Story()[1])
    ensures Legal(C.SETTINGS, T2(), Story()[2]) && LegalButId(C.SETTINGS, T3(), Story()[3])
    ensures Legal(C.SETTINGS, T4(), Story()[4]) && Legal(C.SETTINGS, T5(), Story()[5])
  {
    StoryRuns();
    FirstHalf();
    LogOfStory();
    TheFirstPacket();
  }

  lemma StoryRuns()
    ensures Run(C.SETTINGS, Initial(0xFFFF), Story()) == T6()
  {
    FirstHalf();
    SecondHalf();
    var i := Story();
    RunOne(C.SETTINGS, T5(), i[5], []);
    RunOne(C.SETTINGS, T4(), i[4], [i[5]] + []);
    RunOne(C.SETTINGS, T3(), i[3], [i[4]] + ([i[5]] + []));
    RunOne(C.SETTINGS, T2(), i[2], [i[3]] + ([i[4]] + ([i[5]] + [])));
    RunOne(C.SETTINGS, T1(), i[1], [i[2]] + ([i[3]] + ([i[4]] + ([i[5]] + []))));
    RunOne(C.SETTINGS, Initial(0xFFFF), i[0], [i[1]] + ([i[2]] + ([i[3]] + ([i[4]] + ([i[5]] + [])))));
    assert i == [i[0]] + ([i[1]] + ([i[2]] + ([i[3]] + ([i[4]] + ([i[5]] + [])))));
  }

  lemma LogOfStory()
    ensures T6().log == Extended(T3().log, [Stored(1, 1, C.PACKET), Wrote(1, 1, MSG_PUBLISH, 2, C.PACKET, true),
                                            Wrote(0, 1, MSG_PUBLISH, 2, AGAIN, true)])
  {
    var e := [Stored(1, 1, C.PACKET), Wrote(1, 1, MSG_PUBLISH, 2, C.PACKET, true),
              Wrote(0, 1, MSG_PUBLISH, 2, AGAIN, true)];
    assert e[..2][..1] == [e[0]] && e[..2] == [e[0], e[1]] && [e[0]][..0] == [];
    assert Extended(T3().log, [e[0]]) == T4().log;
    assert Extended(T3().log, e[..2]) == T5().log;
  }

  lemma TheFirstPacket()
    ensures WrittenBefore(T2().log, 0) && SamePacket(AGAIN, PacketOf(T2().log, 0))
    ensures Legal(C.SETTINGS, T1(), Story()[1]) && LegalButId(C.SETTINGS, T3(), Story()[3])
  {
    FieldsApart(3, 0, 2, 0);
    assert C.PACKET[0] == 0x34 && C.PACKET[0 := WithDup(0x34)] == AGAIN;
  }
}
