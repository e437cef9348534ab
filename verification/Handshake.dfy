/** The exchanges of QoS 1 and 2, of SUBSCRIBE and of UNSUBSCRIBE between two ends, from bytes to bytes. */
module Handshake {
  import opened Bytes
  import opened Packets
  import opened OutboxModel
  import opened Protocol
  import opened Invariants
  import opened Provenance
  import opened Effects
  import C = Client
  import P3 = Parse3
  import P5 = Parse5
  import V = VarInt

  // ---------- received acks, by their bytes

  /** The type nibbles of section 2.1.2 of MQTT 5.0, and the request that each ack ends. */
  predicate Ends(first: byte, kind: int) {
    || (kind == MSG_PUBLISH && first / 16 in {4, 7})
    || (kind == MSG_SUBSCRIBE && first / 16 == 9)
    || (kind == MSG_UNSUBSCRIBE && first / 16 == 11)
  }

  function Received(cfg: Config, st: State, p: seq<byte>): State
    requires p != []
  {
    C.ReceivedStep(cfg, st, Kind(p[0]), C.IdOf(cfg.v5, p))
  }

  /**
   * A packet with the id of a stored request removes it if and only if it is the ack for its kind; then nothing else
   * goes, and the place of a publish is given back.
   */
  lemma AckReceived(cfg: Config, st: State, p: seq<byte>, j: nat)
    requires Inv(cfg, st) && st.phase == Connected && p != [] && j < |st.outbox|
    requires C.IdOf(cfg.v5, p) == st.outbox[j].id != 0
    ensures var t := Received(cfg, st, p);
            && (Gone(t.outbox, st.outbox[j].serial) <==> Ends(p[0], st.outbox[j].kind))
            && (Ends(p[0], st.outbox[j].kind) ==> Removes(cfg, st, j, t))
  {
    assert Wellformed(st.outbox[j]);
    if Ends(p[0], st.outbox[j].kind) {
      AckEnds(cfg, st, C.AckInput(Kind(p[0]), st.outbox[j].id), j);
    } else if Kind(p[0]) == MSG_PUBREC {
      PubrecAcknowledges(cfg, st, Pubrec(st.outbox[j].id), j);
      StaysThere(st.outbox, Received(cfg, st, p).outbox, j);
    } else {
      OtherAck(cfg, st, p, j);
      StaysThere(st.outbox, Received(cfg, st, p).outbox, j);
    }
  }

  /** The j-th item and nothing else goes, and a publish gives its place back. */
  predicate Removes(cfg: Config, st: State, j: nat, t: State)
    requires j < |st.outbox|
  {
    && t == st.(outbox := st.outbox[..j] + st.outbox[j + 1..], count := t.count, log := t.log)
    && t.count == if cfg.v5 && st.outbox[j].kind == MSG_PUBLISH && st.count > 0 then st.count - 1 else st.count
  }

  lemma OtherAck(cfg: Config, st: State, p: seq<byte>, j: nat)
    requires Inv(cfg, st) && p != [] && j < |st.outbox| && C.IdOf(cfg.v5, p) == st.outbox[j].id != 0
    requires !Ends(p[0], st.outbox[j].kind) && Kind(p[0]) != MSG_PUBREC
    ensures Received(cfg, st, p) == st
  {
    var kind := Kind(p[0]);
    if kind in {MSG_SUBACK, MSG_UNSUBACK, MSG_PUBACK, MSG_PUBCOMP} {
      var i := C.AckInput(kind, st.outbox[j].id);
      forall k | 0 <= k < |st.outbox| ensures !(Completes(i, st.outbox[k].kind) && i.id == st.outbox[k].id) {
        assert k < j ==> st.outbox[k].id != st.outbox[j].id;
        assert j < k ==> st.outbox[j].id != st.outbox[k].id;
      }
      AckOfNothing(cfg, st, i);
    }
  }

  /** A PUBREC keeps the publish stored, as acknowledged. */
  lemma PubrecReceived(cfg: Config, st: State, p: seq<byte>, j: nat)
    requires Inv(cfg, st) && st.phase == Connected && p != [] && p[0] / 16 == 5 && j < |st.outbox|
    requires C.IdOf(cfg.v5, p) == st.outbox[j].id != 0
    ensures Received(cfg, st, p) == st.(outbox := st.outbox[j := st.outbox[j].(pending := Acknowledged)],
                                        log := Then(st.log, PubrecSeen(st.outbox[j].id)))
  {
    PubrecAcknowledges(cfg, st, Pubrec(st.outbox[j].id), j);
  }

  /** Where both parsers find the id of an ack: behind a remaining length of one byte, most significant byte first. */
  lemma IdStands(v5: bool, p: seq<byte>)
    requires |p| >= 4 && p[1] < 128 && p[0] / 16 in {4, 5, 6, 7, 8, 9, 10, 11}
    ensures C.IdOf(v5, p) == Join16(p[2], p[3])
  {
    assert p[1..][0] == p[1];
  }

  // ---------- answers, by their bytes

  /** The answer to a packet, when no fragment length was left behind. */
  function Answer(v5: bool, p: seq<byte>): seq<byte>
    requires p != []
  {
    C.AnswerBytes(v5, Kind(p[0]), Qos(p[0]), C.IdOf(v5, p), 0)
  }

  /** An ack with its first byte written out, MQTT 3.1.1 and 5.0. */
  function Ack(v5: bool, first: byte, id: nat): seq<byte>
    requires id < 0x1_0000
  {
    if v5 then [first, 4, id / 0x100, id % 0x100, 0, 0] else [first, 2, id / 0x100, id % 0x100]
  }

  lemma AckReads(v5: bool, first: byte, id: nat)
    requires id < 0x1_0000 && first / 16 in {4, 5, 6, 7}
    ensures C.IdOf(v5, Ack(v5, first, id)) == id
  {
    IdStands(v5, Ack(v5, first, id));
  }

  lemma AckIs(v5: bool, kind: nat, id: nat)
    requires MSG_PUBACK <= kind <= MSG_PUBCOMP && id < 0x1_0000
    ensures C.AckBytes(v5, kind, id, 0)
            == Ack(v5, if kind == MSG_PUBACK then 0x40 else if kind == MSG_PUBREC then 0x50
                       else if kind == MSG_PUBREL then 0x62 else 0x70, id)
  {
    FirstByteIs(kind, 0, if kind == MSG_PUBREL then 1 else 0, 0);
    assert V.Encode(2) == [2] && V.Encode(4) == [4];
  }

  /** The packet reads as a PUBLISH of this QoS and id. */
  predicate Reads(v5: bool, p: seq<byte>, qos: int, id: int) {
    p != [] && Kind(p[0]) == MSG_PUBLISH && Qos(p[0]) == qos && C.IdOf(v5, p) == id
  }

  /** PUBLISH with QoS 1 is answered by PUBACK, with QoS 2 by PUBREC, with QoS 0 by nothing. */
  lemma PublishAnswered(v5: bool, p: seq<byte>, qos: nat, id: nat)
    requires Reads(v5, p, qos, id) && id < 0x1_0000 && qos <= 2
    ensures Answer(v5, p) == if qos == 1 then Ack(v5, 0x40, id) else if qos == 2 then Ack(v5, 0x50, id) else []
  {
    AckIs(v5, if qos == 1 then MSG_PUBACK else MSG_PUBREC, id);
  }

  /** PUBREC is answered by PUBREL, PUBREL by PUBCOMP, and nothing else. */
  lemma AckAnswered(v5: bool, first: byte, id: nat)
    requires id < 0x1_0000 && first in {0x40, 0x50, 0x62, 0x70}
    ensures Answer(v5, Ack(v5, first, id))
            == if first == 0x50 then Ack(v5, 0x62, id) else if first == 0x62 then Ack(v5, 0x70, id) else []
  {
    AckReads(v5, first, id);
    if first in {0x50, 0x62} {
      AckIs(v5, if first == 0x50 then MSG_PUBREL else MSG_PUBCOMP, id);
    }
  }

  // ---------- the handshakes

  /** A publish with QoS 1 that the other end reads is removed by the other end's answer, read in turn. */
  lemma Qos1Completes(cfg: Config, st: State, j: nat, p: seq<byte>)
    requires Inv(cfg, st) && st.phase == Connected && j < |st.outbox|
    requires st.outbox[j].kind == MSG_PUBLISH && st.outbox[j].qos == 1 && Reads(cfg.v5, p, 1, st.outbox[j].id)
    ensures var puback := Answer(cfg.v5, p);
            puback == Ack(cfg.v5, 0x40, st.outbox[j].id) && Removes(cfg, st, j, Received(cfg, st, puback))
  {
    assert Wellformed(st.outbox[j]);
    PublishAnswered(cfg.v5, p, 1, st.outbox[j].id);
    AckReads(cfg.v5, 0x40, st.outbox[j].id);
    AckReceived(cfg, st, Ack(cfg.v5, 0x40, st.outbox[j].id), j);
  }

  /**
   * A publish with QoS 2 that the other end reads is acknowledged, and still stored, when the other end's answer is
   * read; PUBREL and its answer follow, and that removes it.
   */
  lemma Qos2Completes(cfg: Config, st: State, j: nat, p: seq<byte>)
    requires Inv(cfg, st) && st.phase == Connected && j < |st.outbox|
    requires st.outbox[j].kind == MSG_PUBLISH && st.outbox[j].qos == 2 && Reads(cfg.v5, p, 2, st.outbox[j].id)
    ensures var pubrec := Answer(cfg.v5, p);
            var pubrel := Answer(cfg.v5, pubrec);
            var pubcomp := Answer(cfg.v5, pubrel);
            var s := Received(cfg, st, pubrec);
            && pubrec == Ack(cfg.v5, 0x50, st.outbox[j].id) && pubrel == Ack(cfg.v5, 0x62, st.outbox[j].id)
            && pubcomp == Ack(cfg.v5, 0x70, st.outbox[j].id)
            && s.outbox == st.outbox[j := st.outbox[j].(pending := Acknowledged)]
            && Removes(cfg, s, j, Received(cfg, s, pubcomp))
  {
    var id := st.outbox[j].id;
    assert Wellformed(st.outbox[j]);
    PublishAnswered(cfg.v5, p, 2, id);
    AckReads(cfg.v5, 0x50, id);
    AckAnswered(cfg.v5, 0x50, id);
    AckAnswered(cfg.v5, 0x62, id);
    PubrecReceived(cfg, st, Ack(cfg.v5, 0x50, id), j);
    StepKeeps(cfg, st, Pubrec(id));
    AckReads(cfg.v5, 0x70, id);
    AckReceived(cfg, Received(cfg, st, Ack(cfg.v5, 0x50, id)), Ack(cfg.v5, 0x70, id), j);
  }

  // ---------- what the client builds reads as what it is

  /** DUP changes nothing of that. */
  lemma DupReads(v5: bool, p: seq<byte>, qos: int, id: int)
    requires Reads(v5, p, qos, id)
    ensures Reads(v5, p[0 := WithDup(p[0])], qos, id)
  {
    WithDupFields(p[0]);
    var q := p[0 := WithDup(p[0])];
    assert q[1..] == p[1..] && P3.Tail(q) == P3.Tail(p);
  }

  /** The first n bytes of a built PUBLISH, if they hold its header. */
  lemma BuiltReads(topic: seq<byte>, payload: seq<byte>, qos: nat, retain: int, id: nat, n: nat)
    requires topic != [] && |topic| < 0x1_0000 && 0 < id < 0x1_0000 && 1 <= qos <= 2
    requires 4 + |topic| + |payload| < V.LIMIT
    requires var p := Packet(MSG_PUBLISH, qos, retain, Header3(topic, qos, id) + payload);
             |p| - |payload| <= n <= |p|
    ensures Reads(false, Packet(MSG_PUBLISH, qos, retain, Header3(topic, qos, id) + payload)[..n], qos, id)
  {
    var p := Packet(MSG_PUBLISH, qos, retain, Header3(topic, qos, id) + payload);
    P3.PublishReadsBack(topic, payload, qos, retain, id, p, n, n - (|p| - |payload|));
    FirstByteFields(MSG_PUBLISH, 0, qos, retain);
  }

  lemma BuiltReads5(topic: seq<byte>, payload: seq<byte>, qos: nat, retain: int, id: nat, props: Properties,
                    info: seq<byte>, n: nat)
    requires |topic| < 0x1_0000 && 0 < id < 0x1_0000 && 1 <= qos <= 2
    requires Sized(props) && InfoFits(props, info) && |PropertyBytes(props, info)| < 0x1_0000
    requires |Header5(topic, qos, id, PropertyBytes(props, info))| + |payload| < V.LIMIT
    requires var p := Packet(MSG_PUBLISH, qos, retain, Header5(topic, qos, id, PropertyBytes(props, info)) + payload);
             |payload| <= |p| && |p| - |payload| <= n <= |p|
    ensures Reads(true, Packet(MSG_PUBLISH, qos, retain, Header5(topic, qos, id, PropertyBytes(props, info))
                                                         + payload)[..n], qos, id)
  {
    var p := Packet(MSG_PUBLISH, qos, retain, Header5(topic, qos, id, PropertyBytes(props, info)) + payload);
    P5.PublishReadsBack5(topic, payload, qos, retain, id, props, info, p, n, n - (|p| - |payload|));
    FirstByteFields(MSG_PUBLISH, 0, qos, retain);
  }
}
