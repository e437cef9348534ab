/** A run of ten steps in which more packets are in flight than Receive Maximum allows: section 3.3.4 of MQTT 5.0. */
module Counterexample {
  import opened Bytes
  import opened OutboxModel
  import opened Protocol
  import opened Invariants
  import opened Guarantees

  const SETTINGS := Config(true, 0, 16, 0, 0)
  /** A QoS 2 PUBLISH; its contents do not matter. */
  const PACKET: seq<byte> := [0x34]

  function Publishing(id: int): Input {
    PublishCall(id, 2, PACKET, 0, 0, 0, true)
  }

  /**
   * A publish is acknowledged by PUBREC, and the connection is lost before PUBCOMP. On the next connection PUBREL is
   * sent again. The publish is not counted there, but its PUBCOMP is: the place it gives back is another packet's.
   */
  function Story(): seq<Input> {
    [ConnackAccepted(1), Publishing(1), Pubrec(1), Abort, Reconnect, ConnackAccepted(1), SendPass(1, true, true, true),
     Publishing(2), Pubcomp(1), Publishing(3)]
  }

  function Item(serial: nat, id: int, pending: Pending): Entry {
    Entry(serial, id, MSG_PUBLISH, 2, 0, pending, PACKET)
  }

  function Sending(log: Log, serial: nat, id: int): Log {
    Then(Then(log, Stored(serial, id, PACKET)), Wrote(serial, id, MSG_PUBLISH, 2, PACKET, true))
  }

  /** A publish call with room in the quota, its id not in use. */
  lemma Publishes(st: State, id: int)
    requires st.phase == Connected && st.count < st.receiveMax < 0xFFFF
    requires forall k :: 0 <= k < |st.outbox| ==> st.outbox[k].id != id
    ensures Step(SETTINGS, st, Publishing(id))
            == State(Connected, st.outbox + [Item(st.next, id, Transmitted)], st.count + 1, st.receiveMax, st.next + 1,
                     Sending(st.log, st.next, id))
  {
    var k := |st.outbox|;
    var s := Store(st, id, MSG_PUBLISH, 2, 0, PACKET);
    assert s.outbox[k := s.outbox[k]] == s.outbox;
    FirstIs(s.outbox, ById(id), k);
    var t := SetTick(s.outbox, id, 0);
    assert t == s.outbox;
    assert SetPending(t, id, Transmitted) == st.outbox + [Item(st.next, id, Transmitted)];
  }

  /** The step i is legal in st and leads to t. */
  predicate Goes(st: State, i: Input, t: State) {
    Legal(SETTINGS, st, i) && Step(SETTINGS, st, i) == t
  }

  predicate Leads(st: State, inputs: seq<Input>, end: State) {
    LegalRun(SETTINGS, st, inputs) && Run(SETTINGS, st, inputs) == end
  }

  lemma Chain(st: State, i: Input, t: State, rest: seq<Input>, end: State)
    requires Goes(st, i, t) && Leads(t, rest, end)
    ensures Leads(st, [i] + rest, end)
  {
    assert ([i] + rest)[1..] == rest;
  }

  // ---------- the states of the story

  function S1(): State { State(Connected, [], 0, 1, 0, Then(Start, Connack)) }

  function S2(): State { State(Connected, [Item(0, 1, Transmitted)], 1, 1, 1, Sending(S1().log, 0, 1)) }

  function S3(): State { State(Connected, [Item(0, 1, Acknowledged)], 1, 1, 1, Then(S2().log, PubrecSeen(1))) }

  function S4(): State { S3().(phase := WaitReconnect) }

  function S5(): State { S3().(phase := Init) }

  function S6(): State { State(Connected, [Item(0, 1, Acknowledged)], 0, 1, 1, Then(S3().log, Connack)) }

  function S7(): State {
    State(Connected, [Item(0, 1, Acknowledged), Item(1, 2, Transmitted)], 1, 1, 2, Sending(S6().log, 1, 2))
  }

  function S8(): State {
    State(Connected, [Item(1, 2, Transmitted)], 0, 1, 2, Then(S7().log, Removed(0, Published, 1)))
  }

  function S9(): State {
    State(Connected, [Item(1, 2, Transmitted), Item(2, 3, Transmitted)], 1, 1, 3, Sending(S8().log, 2, 3))
  }

  lemma PublishGoes(st: State, id: int, t: State)
    requires st.phase == Connected && st.count < st.receiveMax < 0xFFFF && FreshId(st.outbox, id)
    requires t == State(Connected, st.outbox + [Item(st.next, id, Transmitted)], st.count + 1, st.receiveMax,
                        st.next + 1, Sending(st.log, st.next, id))
    ensures Goes(st, Publishing(id), t)
  {
    Publishes(st, id);
    FieldsApart(3, 0, 2, 0);
    assert PACKET[0] == 0x34;
  }

  lemma ConnackGoes(st: State, t: State)
    requires st.phase == Init && First(st.outbox, ByPending(Transmitted)) == |st.outbox|
    requires t == State(Connected, st.outbox, 0, 1, st.next, Then(st.log, Connack))
    ensures Goes(st, ConnackAccepted(1), t)
  {
    NothingToRequeue(st.outbox);
  }

  lemma PubrecGoes()
    ensures Goes(S2(), Pubrec(1), S3())
  {
    FirstIs(S2().outbox, ById(1), 0);
    assert SetPending(S2().outbox, 1, Acknowledged) == S3().outbox;
  }

  lemma ConnectionLost()
    ensures Goes(S3(), Abort, S4()) && Goes(S4(), Reconnect, S5())
  {
  }

  /** A pass with nothing queued and retransmission due: the PUBREL of the acknowledged packet is written. */
  lemma PubrelGoes()
    ensures Goes(S6(), SendPass(1, true, true, true), S6()) && FirstDue(SETTINGS, S6(), Acknowledged, 1)
  {
    FirstIs(S6().outbox, ByPending(Queued), 1);
    FirstIs(S6().outbox, ByPending(Transmitted), 1);
    FirstIs(S6().outbox, ByPending(Acknowledged), 0);
  }

  lemma PubcompGoes()
    ensures Goes(S7(), Pubcomp(1), S8())
  {
    FirstIs(S7().outbox, ByIdAndKind(1, MSG_PUBLISH), 0);
    assert Without(S7().outbox, 0) == S8().outbox;
  }

  /** The second connection: two more publishes, and the PUBCOMP of the first in between. */
  lemma SecondConnection() returns (rest: seq<Input>)
    ensures rest == [ConnackAccepted(1)] + ([SendPass(1, true, true, true)]
                                            + ([Publishing(2)] + ([Pubcomp(1)] + ([Publishing(3)] + []))))
    ensures Leads(S5(), rest, S9())
  {
    FirstIs(S5().outbox, ByPending(Transmitted), 1);
    ConnackGoes(S5(), S6());
    assert S6().outbox + [Item(1, 2, Transmitted)] == S7().outbox;
    PublishGoes(S6(), 2, S7());
    PubcompGoes();
    assert S8().outbox + [Item(2, 3, Transmitted)] == S9().outbox;
    PublishGoes(S8(), 3, S9());
    rest := [];
    Chain(S8(), Publishing(3), S9(), rest, S9());
    rest := [Publishing(3)] + rest;
    Chain(S7(), Pubcomp(1), S8(), rest, S9());
    rest := [Pubcomp(1)] + rest;
    Chain(S6(), Publishing(2), S7(), rest, S9());
    rest := [Publishing(2)] + rest;
    PubrelGoes();
    Chain(S6(), SendPass(1, true, true, true), S6(), rest, S9());
    rest := [SendPass(1, true, true, true)] + rest;
    Chain(S5(), ConnackAccepted(1), S6(), rest, S9());
    rest := [ConnackAccepted(1)] + rest;
  }

  /** The first connection: one publish, acknowledged once. */
  lemma FirstConnection(second: seq<Input>) returns (all: seq<Input>)
    requires Leads(S5(), second, S9())
    ensures all == [ConnackAccepted(1)] + ([Publishing(1)] + ([Pubrec(1)] + ([Abort] + ([Reconnect] + second))))
    ensures Leads(Initial(0xFFFF), all, S9())
  {
    ConnackGoes(Initial(0xFFFF), S1());
    assert S1().outbox + [Item(0, 1, Transmitted)] == S2().outbox;
    PublishGoes(S1(), 1, S2());
    PubrecGoes();
    ConnectionLost();
    Chain(S4(), Reconnect, S5(), second, S9());
    all := [Reconnect] + second;
    Chain(S3(), Abort, S4(), all, S9());
    all := [Abort] + all;
    Chain(S2(), Pubrec(1), S3(), all, S9());
    all := [Pubrec(1)] + all;
    Chain(S1(), Publishing(1), S2(), all, S9());
    all := [Publishing(1)] + all;
    Chain(Initial(0xFFFF), ConnackAccepted(1), S1(), all, S9());
    all := [ConnackAccepted(1)] + all;
  }

  /** Legal steps of a client and a broker, at the end of which two packets are in flight where one is allowed. */
  lemma OverQuota()
    ensures LegalRun(SETTINGS, Initial(0xFFFF), Story())
    ensures var st := Run(SETTINGS, Initial(0xFFFF), Story());
            st.phase == Connected && st.receiveMax == 1 && InFlight(st) == 2 && Carried(st.log) == 1
  {
    var second := SecondConnection();
    var all := FirstConnection(second);
    assert Story() == all;
    SentThere();
    TwoInFlight();
  }

  lemma TwoInFlight()
    ensures NumSent(S9().outbox, {1, 2}) == 2
  {
    var s := S9().outbox;
    assert s[1..] == [Item(2, 3, Transmitted)] && s[1..][1..] == [];
  }

  lemma SentThere()
    ensures SentHere(S9().log) == {1, 2} && Carried(S9().log) == 1
  {
    assert SentHere(S6().log) == {} && Carried(S6().log) == 0;
    var stored2 := Then(S6().log, Stored(1, 2, PACKET));
    assert SentHere(stored2) == {} && Carried(stored2) == 0;
    assert SentHere(S7().log) == {1} && Carried(S7().log) == 0;
    assert SentHere(S8().log) == {1} && Carried(S8().log) == 1;
    var stored3 := Then(S8().log, Stored(2, 3, PACKET));
    assert SentHere(stored3) == {1} && Carried(stored3) == 1;
  }
}
