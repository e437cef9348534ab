/** mqtt_client.c: the part of the client that is about stored packets, their states and the quota. */
module Session {
  import opened Bytes
  import opened OutboxModel
  import opened Protocol
  import I = Invariants
  import O = Outbox

  /** Ids are not negative and no packet is empty. */
  predicate Stocked(s: seq<Entry>) {
    forall k :: 0 <= k < |s| ==> s[k].id >= 0 && s[k].data != []
  }

  /** What a completed write makes of the item and the counter. */
  function AfterWrite(cfg: Config, st: State, k: nat, now: int): State
    requires k < |st.outbox|
  {
    var e := st.outbox[k];
    if e.kind == MSG_PUBLISH && e.qos == 0 then Dropped(cfg, st, k, SentQos0)
    else st.(outbox := OutboxModel.SetPending(OutboxModel.SetTick(st.outbox, e.id, now), e.id, Transmitted),
             count := if e.kind == MSG_PUBLISH && cfg.v5 then Incremented(st.count) else st.count)
  }

  lemma SentIsResent(cfg: Config, st: State, k: nat, now: int, written: bool)
    requires k < |st.outbox|
    ensures Sent(cfg, st, k, now, written)
            == if written then AfterWrite(cfg, Resent(st, k, true), k, now) else Resent(st, k, false)
  {
  }

  class Session {
    const cfg: Config
    const outbox: O.Outbox
    var phase: Phase
    var count: nat
    var receiveMax: nat
    /** This object as a state of the protocol machine. */
    ghost var state: State

    ghost predicate Valid()
      reads this, outbox, outbox.items, outbox.buffers
    {
      && outbox.Valid() && outbox.contents == state.outbox
      && phase == state.phase && receiveMax == state.receiveMax && count == state.count < 0x1_0000
    }

    /** Items stored since are new objects, and so are their buffers. */
    twostate predicate Fresh()
      reads outbox
    {
      && (forall i :: i in outbox.items ==> i in old(outbox.items) || fresh(i))
      && (forall b :: b in outbox.buffers ==> b in old(outbox.buffers) || fresh(b))
    }

    constructor (cfg: Config)
      ensures Valid() && fresh(outbox) && this.cfg == cfg && state == Initial(0xFFFF)
      ensures outbox.items == {} && outbox.buffers == {}
    {
      this.cfg := cfg;
      outbox := new O.Outbox();
      phase, count, receiveMax := Init, 0, 0xFFFF;
      state := Initial(0xFFFF);
    }

    /** mqtt_enqueue: what is in the output buffer, and what did not fit it, become an item. */
    method Enqueue(id: int, kind: int, qos: int, data: array<byte>, start: nat, len: nat, remaining: seq<byte>,
                   now: int, ghost packet: seq<byte>)
      requires Valid() && start + len <= data.Length && packet == data[start..start + len] + remaining
      modifies this`state, outbox, outbox.items
      ensures Valid() && Fresh()
      ensures state == Store(old(state), id, kind, qos, now, packet)
    {
      var item := outbox.Enqueue(data, start, len, remaining, id, kind, qos, now, state.next, packet);
      state := Store(state, id, kind, qos, now, packet);
    }

    ghost method Note(e: Event)
      requires Valid()
      modifies this`state
      ensures Valid() && state == Noted(old(state), e)
    {
      state := Noted(state, e);
    }

    /** esp_mqtt_abort_connection. */
    method AbortConnection()
      requires Valid()
      modifies this`phase, this`state
      ensures Valid() && state == Aborted(old(state))
    {
      phase := WaitReconnect;
      state := Aborted(state);
    }

    method SetPending(id: int, p: Pending)
      requires Valid()
      modifies this`state, outbox`contents, outbox.items
      ensures Valid() && state == old(state).(outbox := OutboxModel.SetPending(old(state).outbox, id, p))
    {
      var ok := outbox.SetPending(id, p);
      state := state.(outbox := outbox.contents);
    }

    method SetTick(id: int, now: int)
      requires Valid()
      modifies this`state, outbox`contents, outbox.items
      ensures Valid() && state == old(state).(outbox := OutboxModel.SetTick(old(state).outbox, id, now))
    {
      var ok := outbox.SetTick(id, now);
      state := state.(outbox := outbox.contents);
    }

    /** A packet was written: it counts as sent and waits for its ack. */
    method MarkSent(id: int, publish: bool, now: int)
      requires Valid()
      modifies this`count, this`state, outbox`contents, outbox.items
      ensures Valid()
      ensures state == old(state).(
        outbox := OutboxModel.SetPending(OutboxModel.SetTick(old(state).outbox, id, now), id, Transmitted),
        count := if publish && cfg.v5 then Incremented(old(state).count) else old(state).count)
    {
      SetTick(id, now);
      SetPending(id, Transmitted);
      if publish && cfg.v5 {
        count := (count + 1) % 0x1_0000;
        state := state.(count := count);
      }
    }

    // ---------- acks

    /** remove_initiator_message, and the place in the quota that a completed publish gives back. */
    method Complete(id: int, kind: int, fate: Fate) returns (found: bool)
      requires Valid()
      modifies this`count, this`state, outbox, outbox.items
      ensures Valid() && outbox.items == old(outbox.items) && outbox.buffers == old(outbox.buffers)
      ensures state == Completed(cfg, old(state), id, kind, fate)
      ensures found <==> First(old(state).outbox, ByIdAndKind(id, kind)) < |old(state).outbox|
    {
      found := outbox.Delete(id, kind);
      if found {
        state := Dropped(cfg, state, First(state.outbox, ByIdAndKind(id, kind)), fate);
        if fate == Published && cfg.v5 && count > 0 {
          count := count - 1;
        }
      }
    }

    /** PUBREC: whatever reason code it carries, the packet with that id is acknowledged. */
    method Acknowledge(id: int)
      requires Valid()
      modifies this`state, outbox`contents, outbox.items
      ensures Valid()
      ensures state == Noted(old(state), PubrecSeen(id)).(
        outbox := OutboxModel.SetPending(old(state).outbox, id, Acknowledged))
    {
      SetPending(id, Acknowledged);
      Note(PubrecSeen(id));
    }

    // ---------- expiry and stop

    /** One overdue item at a time, each reported under its id. */
    method DeleteExpiredOneByOne(now: int)
      requires Valid() && Stocked(state.outbox)
      modifies this`state, outbox, outbox.items
      ensures Valid() && outbox.items == old(outbox.items) && outbox.buffers == old(outbox.buffers)
      ensures state == ExpireAll(cfg, old(state), now)
    {
      while true
        invariant Valid() && outbox.items == old(outbox.items) && outbox.buffers == old(outbox.buffers)
        invariant Stocked(state.outbox) && ExpireAll(cfg, state, now) == ExpireAll(cfg, old(state), now)
        decreases |state.outbox|
      {
        ExpirePass(cfg, state, now);
        var id := DeleteOneExpired(now);
        if id < 0 { return; }
      }
    }

    static lemma ExpirePass(cfg: Config, st: State, now: int)
      requires Stocked(st.outbox)
      ensures var k := First(st.outbox, Overdue(now, cfg.expiry));
              if k < |st.outbox| then
                var t := Dropped(cfg, st, k, Expired);
                Stocked(t.outbox) && |t.outbox| < |st.outbox| && ExpireAll(cfg, t, now) == ExpireAll(cfg, st, now)
              else ExpireAll(cfg, st, now) == st
    {
    }

    method DeleteOneExpired(now: int) returns (id: int)
      requires Valid() && Stocked(state.outbox)
      modifies this`state, outbox, outbox.items
      ensures Valid() && outbox.items == old(outbox.items) && outbox.buffers == old(outbox.buffers)
      ensures var k := First(old(state).outbox, Overdue(now, cfg.expiry));
              if k < |old(state).outbox| then id >= 0 && state == Dropped(cfg, old(state), k, Expired)
              else id < 0 && state == old(state)
    {
      ghost var k := First(state.outbox, Overdue(now, cfg.expiry));
      id := outbox.DeleteSingleExpired(now, cfg.expiry);
      if id >= 0 {
        state := Dropped(cfg, state, k, Expired);
      }
    }

    /** All overdue items in one walk, unreported. */
    method DeleteExpired(now: int)
      requires Valid()
      modifies this`state, outbox, outbox.items
      ensures Valid() && outbox.items == old(outbox.items) && outbox.buffers == old(outbox.buffers)
      ensures state == ExpireAll(cfg, old(state), now)
    {
      var n := outbox.DeleteExpired(now, cfg.expiry);
      I.ExpireLeaves(cfg, state, now);
      I.ExpireFrame(cfg, state, now);
      state := ExpireAll(cfg, state, now);
    }

    /** The end of the task: everything goes, and the client is disconnected. */
    method Clear()
      requires Valid()
      modifies this`phase, this`state, outbox, outbox.items
      ensures Valid() && outbox.items == old(outbox.items) && outbox.buffers == old(outbox.buffers)
      ensures state == ClearAll(cfg, old(state)).(phase := Disconnected)
    {
      outbox.DeleteAllItems();
      I.ClearFrame(cfg, state);
      phase := Disconnected;
      state := ClearAll(cfg, state).(phase := Disconnected);
    }

    // ---------- CONNACK

    method RequeueFirst() returns (more: bool)
      requires Valid() && Stocked(state.outbox)
      modifies this`state, outbox`contents, outbox.items, outbox.buffers
      ensures Valid() && state == old(state).(outbox := RequeueOnce(old(state).outbox))
      ensures more <==> First(old(state).outbox, ByPending(Transmitted)) < |old(state).outbox|
    {
      var item := outbox.Dequeue(Transmitted);
      if item == null { return false; }
      ghost var k := First(state.outbox, ByPending(Transmitted));
      assert state.outbox[k] == item.View();
      MarkAt(item, k);
      SetPending(item.id, Queued);
      return true;
    }

    /** DUP on a stored publish with QoS > 0; nothing on any other packet. */
    method MarkAt(item: O.Item, ghost k: nat)
      requires Valid() && k < |outbox.spine| && outbox.spine[k] == item && item.buffer.Length > 0
      modifies this`state, outbox`contents, item.buffer
      ensures Valid() && state == old(state).(outbox := old(state).outbox[k := Marked(old(state).outbox[k])])
    {
      ghost var e := state.outbox[k];
      assert e == item.View();
      if item.kind == MSG_PUBLISH && item.qos > 0 {
        outbox.MarkDup(item, k);
      }
      state := state.(outbox := state.outbox[k := Marked(e)]);
    }

    static lemma RequeuePass(s: seq<Entry>)
      requires Stocked(s) && FirstOfItsId(s)
      ensures var t := RequeueOnce(s);
              && Stocked(t) && FirstOfItsId(t) && Requeued(t) == Requeued(s)
              && if First(s, ByPending(Transmitted)) < |s|
                 then CountPending(t, Transmitted) < CountPending(s, Transmitted)
                 else t == s == Requeued(s)
    {
      if First(s, ByPending(Transmitted)) < |s| {
        RequeueOnceProgress(s);
      } else {
        NothingToRequeue(s);
      }
    }

    /** mqtt_requeue_transmitted_messages. Each pass requeues one item: see OutboxModel.RequeueTerminatesExactly. */
    method Requeue()
      requires Valid() && Stocked(state.outbox) && FirstOfItsId(state.outbox)
      modifies this`state, outbox`contents, outbox.items, outbox.buffers
      ensures Valid() && state == old(state).(outbox := Requeued(old(state).outbox))
    {
      while true
        invariant Valid() && Stocked(state.outbox) && FirstOfItsId(state.outbox)
        invariant state == old(state).(outbox := state.outbox) && Requeued(state.outbox) == Requeued(old(state).outbox)
        decreases CountPending(state.outbox, Transmitted)
      {
        RequeuePass(state.outbox);
        var more := RequeueFirst();
        if !more { return; }
      }
    }

    /** A CONNACK that accepts: a new quota, an empty count, and what was in flight is to be sent again. */
    method ConnackAccepted(announced: nat)
      requires Valid() && Stocked(state.outbox) && (cfg.v5 ==> FirstOfItsId(state.outbox)) && phase == Init
      modifies this, outbox`contents, outbox.items, outbox.buffers
      ensures Valid() && state == Step(cfg, old(state), Input.ConnackAccepted(announced))
    {
      if cfg.v5 {
        SetQuota(announced);
        Requeue();
      }
      Open();
    }

    method Open()
      requires Valid()
      modifies this`phase, this`state
      ensures Valid() && state == Noted(old(state), Connack).(phase := Connected)
    {
      phase := Connected;
      state := Noted(state, Connack).(phase := Connected);
    }

    method SetQuota(announced: nat)
      requires Valid()
      modifies this`receiveMax, this`count, this`state
      ensures Valid() && state == old(state).(receiveMax := announced, count := 0)
    {
      receiveMax, count := announced, 0;
      state := state.(receiveMax := announced, count := 0);
    }

    method ConnackRefused(announced: nat)
      requires Valid() && phase == Init
      modifies this`phase, this`receiveMax, this`state
      ensures Valid() && state == Step(cfg, old(state), Input.ConnackRefused(announced))
    {
      if cfg.v5 {
        receiveMax := announced;
        state := state.(receiveMax := announced);
      }
      AbortConnection();
    }

    // ---------- sending what is queued

    method GetQueuedQos0() returns (item: O.Item?)
      requires Valid()
      ensures item == O.At(outbox.spine, QueuedQos0(state.outbox))
    {
      item := outbox.Get(0);
      if item != null {
        assert state.outbox[First(state.outbox, ById(0))] == item.View();
        if !(item.pending == Queued && item.kind == MSG_PUBLISH && item.qos == 0) {
          item := null;
        }
      }
    }

    /** The item a pass sends next: the first queued one, unless the quota is used up and it would count. */
    method ChooseQueued() returns (item: O.Item?)
      requires Valid()
      ensures item == O.At(outbox.spine, Choose(cfg, state))
    {
      item := outbox.Dequeue(Queued);
      if item != null {
        assert state.outbox[First(state.outbox, ByPending(Queued))] == item.View();
        if cfg.v5 && count >= receiveMax && item.kind == MSG_PUBLISH && item.qos > 0 {
          item := GetQueuedQos0();
        }
      }
    }

    /** After a queued item was written: a QoS 0 publish is done with, anything else waits for its ack. */
    method Finish(item: O.Item, ghost k: nat, now: int)
      requires Valid() && k < |outbox.spine| && outbox.spine[k] == item
      modifies this`count, this`state, outbox, outbox.items
      ensures Valid() && outbox.items == old(outbox.items) && outbox.buffers == old(outbox.buffers)
      ensures state == AfterWrite(cfg, old(state), k, now)
    {
      assert state.outbox[k] == item.View();
      if item.kind == MSG_PUBLISH && item.qos == 0 {
        var ok := outbox.DeleteItem(item);
        state := Dropped(cfg, state, k, SentQos0);
      } else {
        MarkSent(item.id, item.kind == MSG_PUBLISH, now);
      }
    }
  }
}
