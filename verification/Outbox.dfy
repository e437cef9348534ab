/** The outbox: a singly linked tail queue of stored packets, and the total of their lengths. */
module Outbox {
  import opened Bytes
  import opened OutboxModel

  class Item {
    const buffer: array<byte>
    const id: int
    const kind: int
    const qos: int
    ghost const serial: nat
    var tick: int
    var pending: Pending
    var next: Item?

    constructor (buffer: array<byte>, id: int, kind: int, qos: int, tick: int, ghost serial: nat)
      ensures this.buffer == buffer && this.id == id && this.kind == kind && this.qos == qos && this.serial == serial
      ensures this.tick == tick && pending == Queued && next == null
    {
      this.buffer, this.id, this.kind, this.qos, this.tick, this.serial := buffer, id, kind, qos, tick, serial;
      pending, next := Queued, null;
    }

    ghost function View(): Entry
      reads this, buffer
    {
      Entry(serial, id, kind, qos, tick, pending, buffer[..])
    }
  }

  function Lengths(items: seq<Item>): nat {
    if items == [] then 0 else items[0].buffer.Length + Lengths(items[1..])
  }

  lemma {:induction false} LengthsAppend(a: seq<Item>, b: seq<Item>)
    ensures Lengths(a + b) == Lengths(a) + Lengths(b)
  {
    if a == [] {
      assert a + b == b;
    } else {
      assert (a + b)[1..] == a[1..] + b;
      LengthsAppend(a[1..], b);
    }
  }

  lemma {:induction false} LengthsDrop(a: seq<Item>, k: nat)
    requires k < |a|
    ensures Lengths(Drop(a, k)) == Lengths(a) - a[k].buffer.Length
  {
    if k == 0 {
      assert Drop(a, 0) == a[1..];
    } else {
      assert Drop(a, k)[1..] == Drop(a[1..], k - 1);
      LengthsDrop(a[1..], k - 1);
    }
  }

  lemma {:induction false} SizeIsLengths(items: seq<Item>, s: seq<Entry>)
    requires |s| == |items| && forall k :: 0 <= k < |s| ==> |s[k].data| == items[k].buffer.Length
    ensures Size(s) == Lengths(items)
  {
    if items != [] {
      SizeIsLengths(items[1..], s[1..]);
    }
  }

  /** The k-th item, or null past the end. */
  function At(items: seq<Item>, k: nat): Item? {
    if k < |items| then items[k] else null
  }

  /** No item and no buffer twice. */
  predicate Distinct(items: seq<Item>) {
    forall i, j :: 0 <= i < j < |items| ==> items[i] != items[j] && items[i].buffer != items[j].buffer
  }

  function Drop(items: seq<Item>, k: nat): (r: seq<Item>)
    requires k < |items|
    ensures |r| == |items| - 1
    ensures forall j :: 0 <= j < k ==> r[j] == items[j]
    ensures forall j :: k <= j < |r| ==> r[j] == items[j + 1]
  {
    items[..k] + items[k + 1..]
  }

  lemma DistinctDrop(items: seq<Item>, k: nat)
    requires k < |items| && Distinct(items)
    ensures Distinct(Drop(items, k)) && items[k] !in Drop(items, k)
    ensures forall i | i in Drop(items, k) :: i in items
  {
  }

  class Outbox {
    var first: Item?
    /** The item whose next field the tail pointer addresses; null when it addresses the list head. */
    var last: Item?
    var size: nat
    ghost var spine: seq<Item>
    /** What is stored: the view of each item, in list order. */
    ghost var contents: seq<Entry>
    /** The heap the list owns: its items, past and present, and their buffers. */
    ghost var items: set<Item>
    ghost var buffers: set<array<byte>>

    ghost predicate Covered()
      reads this`spine, this`items, this`buffers
    {
      forall k :: 0 <= k < |spine| ==> spine[k] in items && spine[k].buffer in buffers
    }

    ghost predicate Linked()
      reads this`first, this`last, this`spine, this`items, this`buffers, items`next
    {
      && Covered()
      && first == At(spine, 0)
      && last == (if spine == [] then null else spine[|spine| - 1])
      && (forall k {:trigger spine[k].next} :: 0 <= k < |spine| ==> spine[k].next == At(spine, k + 1))
      && Distinct(spine)
    }

    ghost predicate Mirrored()
      requires Covered()
      reads this`spine, this`contents, this`items, this`buffers, items, buffers
    {
      |contents| == |spine| && forall k :: 0 <= k < |spine| ==> contents[k] == spine[k].View()
    }

    ghost predicate Valid()
      reads this, items, buffers
    {
      && Linked()
      && size == Lengths(spine)
      && Mirrored()
    }

    constructor ()
      ensures Valid() && spine == [] && contents == [] && items == {} && buffers == {}
    {
      first, last, size, spine, contents, items, buffers := null, null, 0, [], [], {}, {};
    }

    /** The size reported is the sum of the stored packets' lengths. */
    function GetSize(): (n: nat)
      requires Valid()
      reads this, items, buffers
      ensures n == Size(contents)
    {
      SizeIsLengths(spine, contents);
      size
    }

    // ---------- STAILQ

    method InsertTail(elm: Item)
      requires Linked() && elm !in items && elm.buffer !in buffers
      modifies this`first, this`last, this`spine, this`items, this`buffers, elm`next, items
      ensures items == old(items) + {elm} && buffers == old(buffers) + {elm.buffer}
      ensures elm.tick == old(elm.tick) && elm.pending == old(elm.pending)
      ensures Linked() && spine == old(spine) + [elm]
      ensures forall i | i in old(spine) :: i.tick == old(i.tick) && i.pending == old(i.pending)
    {
      elm.next := null;
      if last == null {
        first := elm;
      } else {
        last.next := elm;
      }
      last := elm;
      spine, items, buffers := spine + [elm], items + {elm}, buffers + {elm.buffer};
    }

    method RemoveHead()
      requires Linked() && spine != []
      modifies this`first, this`last, this`spine
      ensures Linked() && spine == Drop(old(spine), 0)
    {
      first := first.next;
      if first == null {
        last := null;
      }
      DistinctDrop(spine, 0);
      spine := Drop(spine, 0);
    }

    method RemoveAfter(elm: Item, ghost k: nat)
      requires Linked() && k + 1 < |spine| && spine[k] == elm
      modifies this`last, this`spine, elm`next
      ensures Linked() && spine == Drop(old(spine), k + 1)
    {
      ghost var was := spine;
      elm.next := elm.next.next;
      if elm.next == null {
        last := elm;
      }
      DistinctDrop(was, k + 1);
      spine := Drop(was, k + 1);
      Relinked(was, k);
    }

    /** The item after the k-th was taken out of the links. */
    static lemma Relinked(was: seq<Item>, k: nat)
      requires k + 1 < |was| && was[k].next == At(was, k + 2)
      requires forall j {:trigger was[j].next} :: 0 <= j < |was| && j != k ==> was[j].next == At(was, j + 1)
      ensures var s := Drop(was, k + 1);
              forall j {:trigger s[j].next} :: 0 <= j < |s| ==> s[j].next == At(s, j + 1)
    {
      var s := Drop(was, k + 1);
      forall j | 0 <= j < |s| ensures s[j].next == At(s, j + 1) {
        assert s[j] == was[if j <= k then j else j + 1];
      }
    }

    method Remove(elm: Item, ghost k: nat)
      requires Linked() && k < |spine| && spine[k] == elm
      modifies this`first, this`last, this`spine, items
      ensures Linked() && spine == Drop(old(spine), k)
      ensures forall i | i in old(spine) :: i.tick == old(i.tick) && i.pending == old(i.pending)
    {
      if first == elm {
        RemoveHead();
      } else {
        var cur := first;
        ghost var j := 0;
        while cur.next != elm
          invariant 0 <= j < k && cur == spine[j]
          decreases k - j
        {
          cur := cur.next;
          j := j + 1;
        }
        RemoveAfter(cur, j);
      }
    }

    // ---------- the outbox functions

    method Enqueue(data: array<byte>, start: nat, len: nat, remaining: seq<byte>, id: int, kind: int, qos: int,
                   tick: int, ghost serial: nat, ghost packet: seq<byte>) returns (item: Item)
      requires Valid() && start + len <= data.Length && packet == data[start..start + len] + remaining
      modifies this, items
      ensures Valid() && fresh(item) && fresh(item.buffer) && spine == old(spine) + [item]
      ensures items == old(items) + {item} && buffers == old(buffers) + {item.buffer}
      ensures contents == old(contents) + [Entry(serial, id, kind, qos, tick, Queued, packet)]
    {
      item := NewItem(data, start, len, remaining, id, kind, qos, tick, serial);
      Append(item);
      size := size + len + |remaining|;
    }

    /** The packet is copied into a buffer of the item's own. */
    static method NewItem(data: array<byte>, start: nat, len: nat, remaining: seq<byte>, id: int, kind: int, qos: int,
                          tick: int, ghost serial: nat) returns (item: Item)
      requires start + len <= data.Length
      ensures fresh(item) && fresh(item.buffer) && item.buffer.Length == len + |remaining|
      ensures item.View() == Entry(serial, id, kind, qos, tick, Queued, data[start..start + len] + remaining)
    {
      var total := len + |remaining|;
      var buffer := new byte[total](k requires 0 <= k < total reads data =>
        if k < len then data[start + k] else remaining[k - len]);
      item := new Item(buffer, id, kind, qos, tick, serial);
      assert item.buffer[..] == data[start..start + len] + remaining;
    }

    method Append(item: Item)
      requires Valid() && item !in items && item.buffer !in buffers
      modifies this`first, this`last, this`spine, this`contents, this`items, this`buffers, item`next, items
      ensures items == old(items) + {item} && buffers == old(buffers) + {item.buffer}
      ensures Linked() && spine == old(spine) + [item] && Lengths(spine) == old(Lengths(spine)) + item.buffer.Length
      ensures contents == old(contents) + [old(item.View())]
      ensures Mirrored()
    {
      ghost var elements := spine;
      LengthsAppend(elements, [item]);
      InsertTail(item);
      contents := contents + [item.View()];
      forall j | 0 <= j < |elements| ensures contents[j] == spine[j].View() {
        assert spine[j] in elements;
      }
    }

    method Get(id: int) returns (item: Item?)
      requires Valid()
      ensures var k := First(contents, ById(id)); item == At(spine, k)
    {
      item := first;
      ghost var k := 0;
      while item != null
        invariant 0 <= k <= |spine| && item == At(spine, k)
        invariant forall j :: 0 <= j < k ==> spine[j].id != id
        decreases |spine| - k
      {
        if item.id == id { break; }
        item := item.next;
        k := k + 1;
      }
      FirstIs(contents, ById(id), k);
    }

    method Dequeue(pending: Pending) returns (item: Item?)
      requires Valid()
      ensures var k := First(contents, ByPending(pending)); item == At(spine, k)
    {
      item := first;
      ghost var k := 0;
      while item != null
        invariant 0 <= k <= |spine| && item == At(spine, k)
        invariant forall j :: 0 <= j < k ==> spine[j].pending != pending
        decreases |spine| - k
      {
        if item.pending == pending { break; }
        item := item.next;
        k := k + 1;
      }
      FirstIs(contents, ByPending(pending), k);
    }

    method Unlink(item: Item, ghost k: nat)
      requires Valid() && k < |spine| && spine[k] == item
      modifies this, items
      ensures Valid() && spine == Drop(old(spine), k)
      ensures items == old(items) && buffers == old(buffers)
      ensures contents == Without(old(contents), k)
    {
      LengthsDrop(spine, k);
      Detach(item, k);
      size := size - item.buffer.Length;
    }

    method Detach(item: Item, ghost k: nat)
      requires Linked() && Mirrored() && k < |spine| && spine[k] == item
      modifies this`first, this`last, this`spine, this`contents, items
      ensures Linked() && Mirrored() && spine == Drop(old(spine), k) && contents == Without(old(contents), k)
    {
      ghost var elements := spine;
      Remove(item, k);
      contents := Without(contents, k);
      forall j | 0 <= j < |spine| ensures contents[j] == spine[j].View() {
        assert spine[j] == elements[if j < k then j else j + 1];
      }
    }

    method DeleteItem(handle: Item) returns (ok: bool)
      requires Valid()
      modifies this, items
      ensures Valid() && ok == (handle in old(spine)) && items == old(items) && buffers == old(buffers)
      ensures !ok ==> spine == old(spine) && contents == old(contents)
      ensures forall k :: 0 <= k < old(|spine|) && old(spine)[k] == handle ==>
        contents == Without(old(contents), k) && spine == Drop(old(spine), k)
    {
      var item := first;
      ghost var k := 0;
      while item != null
        invariant 0 <= k <= |spine| && item == At(spine, k)
        invariant forall j :: 0 <= j < k ==> spine[j] != handle
        decreases |spine| - k
      {
        if item == handle {
          Unlink(item, k);
          return true;
        }
        item := item.next;
        k := k + 1;
      }
      return false;
    }

    method Delete(id: int, kind: int) returns (ok: bool)
      requires Valid()
      modifies this, items
      ensures Valid() && contents == DeleteFirst(old(contents), ByIdAndKind(id, kind))
      ensures ok == (First(old(contents), ByIdAndKind(id, kind)) < old(|spine|))
      ensures items == old(items) && buffers == old(buffers)
    {
      var item := first;
      ghost var k := 0;
      while item != null
        invariant 0 <= k <= |spine| && item == At(spine, k)
        invariant forall j :: 0 <= j < k ==> !Matches(spine[j].View(), ByIdAndKind(id, kind))
        decreases |spine| - k
      {
        if item.id == id && item.kind % 0x100 == kind {
          FirstIs(contents, ByIdAndKind(id, kind), k);
          Unlink(item, k);
          return true;
        }
        item := item.next;
        k := k + 1;
      }
      FirstIs(contents, ByIdAndKind(id, kind), k);
      return false;
    }

    method WritePending(item: Item, ghost k: nat, pending: Pending)
      requires Valid() && k < |spine| && spine[k] == item
      modifies this`contents, item`pending
      ensures Valid() && contents == old(contents)[k := old(contents)[k].(pending := pending)]
    {
      item.pending := pending;
      contents := contents[k := contents[k].(pending := pending)];
    }

    method WriteTick(item: Item, ghost k: nat, tick: int)
      requires Valid() && k < |spine| && spine[k] == item
      modifies this`contents, item`tick
      ensures Valid() && contents == old(contents)[k := old(contents)[k].(tick := tick)]
    {
      item.tick := tick;
      contents := contents[k := contents[k].(tick := tick)];
    }

    method SetPending(id: int, pending: Pending) returns (ok: bool)
      requires Valid()
      modifies this`contents, items
      ensures Valid() && spine == old(spine) && contents == OutboxModel.SetPending(old(contents), id, pending)
      ensures ok == (First(old(contents), ById(id)) < |spine|)
    {
      var item := Get(id);
      if item != null {
        WritePending(item, First(contents, ById(id)), pending);
        return true;
      }
      return false;
    }

    method SetTick(id: int, tick: int) returns (ok: bool)
      requires Valid()
      modifies this`contents, items
      ensures Valid() && spine == old(spine) && contents == OutboxModel.SetTick(old(contents), id, tick)
      ensures ok == (First(old(contents), ById(id)) < |spine|)
    {
      var item := Get(id);
      if item != null {
        WriteTick(item, First(contents, ById(id)), tick);
        return true;
      }
      return false;
    }

    /** mqtt_set_dup on an item's own buffer. */
    method MarkDup(item: Item, ghost k: nat)
      requires Valid() && k < |spine| && spine[k] == item && item.buffer.Length > 0
      modifies this`contents, item.buffer
      ensures Valid() && contents == old(contents)[k := WithDupSet(old(contents)[k])]
    {
      item.buffer[0] := WithDup(item.buffer[0]);
      contents := contents[k := WithDupSet(contents[k])];
    }

    /** Deletes the first overdue item and reports its id; -1 when none is overdue. */
    method DeleteSingleExpired(now: int, timeout: int) returns (id: int)
      requires Valid()
      modifies this, items
      ensures Valid() && contents == DeleteFirst(old(contents), Overdue(now, timeout))
      ensures var k := First(old(contents), Overdue(now, timeout));
              id == if k < old(|spine|) then old(contents)[k].id else -1
      ensures items == old(items) && buffers == old(buffers)
    {
      var item := first;
      ghost var k := 0;
      while item != null
        invariant 0 <= k <= |spine| && item == At(spine, k)
        invariant forall j :: 0 <= j < k ==> !Matches(spine[j].View(), Overdue(now, timeout))
        decreases |spine| - k
      {
        if now - item.tick > timeout {
          FirstIs(contents, Overdue(now, timeout), k);
          id := item.id;
          Unlink(item, k);
          return;
        }
        item := item.next;
        k := k + 1;
      }
      FirstIs(contents, Overdue(now, timeout), k);
      id := -1;
    }

    /** Deletes every overdue item in one walk. */
    method DeleteIfExpired(item: Item, ghost k: nat, now: int, timeout: int) returns (gone: bool)
      requires Valid() && k < |spine| && spine[k] == item
      modifies this, items
      ensures Valid() && items == old(items) && buffers == old(buffers)
      ensures At(spine, if gone then k else k + 1) == old(item.next)
      ensures |spine| == old(|spine|) - if gone then 1 else 0
      ensures Walked(contents, if gone then k else k + 1, Overdue(now, timeout))
              == Walked(old(contents), k, Overdue(now, timeout))
    {
      KeepStep(contents, k, Overdue(now, timeout));
      gone := now - item.tick > timeout;
      assert gone == Matches(contents[k], Overdue(now, timeout));
      if gone {
        Unlink(item, k);
      }
    }

    method DeleteExpired(now: int, timeout: int) returns (deleted: nat)
      requires Valid()
      modifies this, items
      ensures Valid() && contents == Keep(old(contents), Overdue(now, timeout))
      ensures deleted == old(|spine|) - |spine|
      ensures items == old(items) && buffers == old(buffers)
    {
      deleted := 0;
      var item := first;
      ghost var k, s, q := 0, contents, Overdue(now, timeout);
      Walks(s, q);
      while item != null
        invariant Valid() && 0 <= k <= |spine| && item == At(spine, k)
        invariant items == old(items) && buffers == old(buffers)
        invariant deleted == old(|spine|) - |spine|
        invariant Walked(contents, k, q) == Keep(s, q)
        decreases |spine| - k
      {
        var next := item.next;
        var gone := DeleteIfExpired(item, k, now, timeout);
        if gone {
          deleted := deleted + 1;
        } else {
          k := k + 1;
        }
        item := next;
      }
      Walks(contents, q);
    }

    method DeleteAllItems()
      requires Valid()
      modifies this, items
      ensures Valid() && contents == [] && size == 0 && items == old(items) && buffers == old(buffers)
    {
      var item := first;
      while item != null
        invariant Valid() && item == first
        invariant items == old(items) && buffers == old(buffers)
        decreases |spine|
      {
        var next := item.next;
        Unlink(item, 0);
        item := next;
      }
    }
  }
}
