/** mqtt5_client.c: the topics the broker named with an alias, and what a PUBLISH is delivered under. */
module Aliases {
  import opened Bytes
  import opened Packets

  datatype Named = Named(alias: nat, topic: seq<byte>)

  /** Where an alias stands in the list; |list| if it does not. */
  function Position(list: seq<Named>, alias: nat): (k: nat)
    ensures k <= |list|
    ensures k < |list| ==> list[k].alias == alias
    ensures forall j :: 0 <= j < k ==> list[j].alias != alias
  {
    if list == [] || list[0].alias == alias then 0 else 1 + Position(list[1..], alias)
  }

  function TopicOf(list: seq<Named>, alias: nat): Option<seq<byte>> {
    var k := Position(list, alias);
    if k < |list| then Some(list[k].topic) else None
  }

  /** strncmp: the same up to the first 0 byte, if there is one. */
  predicate SameText(a: seq<byte>, b: seq<byte>)
    requires |a| == |b|
  {
    a == [] || (a[0] == b[0] && (a[0] == 0 || SameText(a[1..], b[1..])))
  }

  lemma {:induction false} SameTextIsSame(a: seq<byte>, b: seq<byte>)
    requires |a| == |b| && 0 !in a
    ensures SameText(a, b) <==> a == b
  {
    if a != [] {
      SameTextIsSame(a[1..], b[1..]);
      assert a == [a[0]] + a[1..] && b == [b[0]] + b[1..];
    }
  }

  /** The comparison takes this topic for the one that is listed. */
  predicate TakenForListed(list: seq<Named>, alias: nat, topic: seq<byte>) {
    var t := TopicOf(list, alias);
    t.Some? && |t.value| == |topic| && SameText(topic, t.value)
  }

  /** The list once a PUBLISH brought alias and topic. */
  function Updated(list: seq<Named>, alias: nat, topic: seq<byte>): seq<Named> {
    var k := Position(list, alias);
    if k == |list| then list + [Named(alias, topic)]
    else if TakenForListed(list, alias, topic) then list
    else list[k := Named(alias, topic)]
  }

  lemma {:induction false} PositionIs(list: seq<Named>, alias: nat, k: nat)
    requires k <= |list| && (k < |list| ==> list[k].alias == alias)
    requires forall j :: 0 <= j < k ==> list[j].alias != alias
    ensures Position(list, alias) == k
  {
    if list != [] && list[0].alias != alias {
      PositionIs(list[1..], alias, k - 1);
    }
  }

  /**
   * The alias stands for the topic that came with it if and only if the comparison did not take another one for it;
   * what the other aliases stand for stays.
   */
  lemma UpdatedExactly(list: seq<Named>, alias: nat, topic: seq<byte>, other: nat)
    ensures TopicOf(Updated(list, alias, topic), alias) == Some(topic)
            <==> !TakenForListed(list, alias, topic) || TopicOf(list, alias) == Some(topic)
    ensures other != alias ==> TopicOf(Updated(list, alias, topic), other) == TopicOf(list, other)
  {
    var t := Updated(list, alias, topic);
    PositionIs(t, alias, Position(list, alias));
    if other != alias {
      var k := Position(list, other);
      PositionIs(t, other, if k == |list| then |t| else k);
    }
  }

  // ---------- over many connections: nothing clears the list

  function Learnt(list: seq<Named>, history: seq<Named>): seq<Named> {
    if history == [] then list
    else Updated(Learnt(list, history[..|history| - 1]), history[|history| - 1].alias, history[|history| - 1].topic)
  }

  function LastNamed(history: seq<Named>, alias: nat): Option<seq<byte>> {
    if history == [] then None
    else if history[|history| - 1].alias == alias then Some(history[|history| - 1].topic)
    else LastNamed(history[..|history| - 1], alias)
  }

  /** Section 1.5.4 of MQTT 5.0: no topic contains the character U+0000. */
  predicate NoZero(history: seq<Named>) {
    forall k :: 0 <= k < |history| ==> 0 !in history[k].topic
  }

  /** Without 0 bytes, an alias stands for the topic that came with it last, on this connection or an earlier one. */
  lemma {:induction false} MeansLastNamed(history: seq<Named>, alias: nat)
    requires NoZero(history)
    ensures TopicOf(Learnt([], history), alias) == LastNamed(history, alias)
  {
    if history != [] {
      var past, last := history[..|history| - 1], history[|history| - 1];
      MeansLastNamed(past, alias);
      MeansLastNamed(past, last.alias);
      UpdatedExactly(Learnt([], past), last.alias, last.topic, alias);
      if TakenForListed(Learnt([], past), last.alias, last.topic) {
        SameTextIsSame(last.topic, TopicOf(Learnt([], past), last.alias).value);
      }
    }
  }

  /** With 0 bytes it may go on standing for an earlier one. */
  lemma ZeroHidesChange(alias: nat)
    ensures var history := [Named(alias, [0x61, 0, 0x62]), Named(alias, [0x61, 0, 0x63])];
            TopicOf(Learnt([], history), alias) == Some([0x61, 0, 0x62])
            && LastNamed(history, alias) == Some([0x61, 0, 0x63])
  {
    var a, b := Named(alias, [0x61, 0, 0x62]), Named(alias, [0x61, 0, 0x63]);
    assert [a, b][..1] == [a] && [a][..0] == [];
    assert Learnt([], [a]) == [a] && TopicOf([a], alias) == Some(a.topic);
    assert SameText(b.topic[1..], a.topic[1..]);
  }

  // ---------- esp_mqtt5_get_publish_data

  /** The topic a PUBLISH is delivered under: its own, or what its alias stands for. */
  function Resolved(list: seq<Named>, maximum: nat, alias: nat, topic: seq<byte>): Option<seq<byte>> {
    if alias > maximum then None
    else if alias != 0 && topic == [] then TopicOf(list, alias)
    else Some(topic)
  }

  function Noticed(list: seq<Named>, maximum: nat, alias: nat, topic: seq<byte>): seq<Named> {
    if 0 < alias <= maximum && topic != [] then Updated(list, alias, topic) else list
  }

  /** Over every history without 0 bytes: no topic under an alias beyond the maximum, and else the one named last. */
  lemma DeliveredUnder(history: seq<Named>, maximum: nat, alias: nat, topic: seq<byte>)
    requires NoZero(history)
    ensures Resolved(Learnt([], history), maximum, alias, topic)
            == if alias > maximum then None
               else if topic == [] && alias > 0 then LastNamed(history, alias)
               else Some(topic)
    ensures Noticed(Learnt([], history), maximum, alias, topic)
            == Learnt([], if 0 < alias <= maximum && topic != [] then history + [Named(alias, topic)] else history)
  {
    MeansLastNamed(history, alias);
    assert (history + [Named(alias, topic)])[..|history|] == history;
  }

  class AliasList {
    var list: seq<Named>

    constructor ()
      ensures list == []
    {
      list := [];
    }

    method Find(alias: nat) returns (k: nat)
      ensures k == Position(list, alias)
    {
      k := 0;
      while k < |list|
        invariant k <= |list| && forall j :: 0 <= j < k ==> list[j].alias != alias
      {
        if list[k].alias == alias { break; }
        k := k + 1;
      }
      PositionIs(list, alias, k);
    }

    /** esp_mqtt5_client_get_topic_alias. */
    method Get(alias: nat) returns (topic: Option<seq<byte>>)
      ensures topic == TopicOf(list, alias)
    {
      var k := Find(alias);
      topic := if k < |list| then Some(list[k].topic) else None;
    }

    /** esp_mqtt5_client_update_topic_alias. */
    method Update(alias: nat, topic: seq<byte>)
      modifies this
      ensures list == Updated(old(list), alias, topic)
    {
      var k := Find(alias);
      if k < |list| {
        if |list[k].topic| != |topic| || !SameText(topic, list[k].topic) {
          list := list[k := Named(alias, topic)];
        }
      } else {
        list := list + [Named(alias, topic)];
      }
    }

    /** The maximum is the one the client told the broker; 0 allows no alias. */
    method Resolve(maximum: nat, alias: nat, topic: seq<byte>) returns (t: Option<seq<byte>>)
      modifies this
      ensures t == Resolved(old(list), maximum, alias, topic)
      ensures list == Noticed(old(list), maximum, alias, topic)
    {
      if alias > maximum { return None; }
      t := Some(topic);
      if alias != 0 {
        if topic == [] {
          t := Get(alias);
        } else {
          Update(alias, topic);
        }
      }
    }
  }
}
