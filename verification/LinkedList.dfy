/** The doubly linked list with head, tail and count, proved against the sequence of its items. */
module LinkedList {

  class Item<T> {
    var previous: Item?<T>
    var next: Item?<T>
    const data: T

    constructor (data: T)
      ensures this.data == data && previous == null && next == null
    {
      this.data, previous, next := data, null, null;
    }
  }

  ghost function ItemAt<T>(items: seq<Item<T>>, i: int): Item?<T> {
    if 0 <= i < |items| then items[i] else null
  }

  ghost predicate LinkAt<T>(items: seq<Item<T>>, i: int)
    requires 0 <= i < |items|
    reads items[i]
  {
    items[i].next == ItemAt(items, i + 1) && items[i].previous == ItemAt(items, i - 1)
  }

  class SLPList<T> {
    var head: Item?<T>
    var tail: Item?<T>
    var count: int
    ghost var items: seq<Item<T>>

    ghost predicate Valid()
      reads this, items
    {
      && head == ItemAt(items, 0) && tail == ItemAt(items, |items| - 1) && count == |items|
      && (forall i {:trigger LinkAt(items, i)} :: 0 <= i < |items| ==> LinkAt(items, i))
      && (forall i, j :: 0 <= i < j < |items| ==> items[i] != items[j])
    }

    constructor ()
      ensures Valid() && items == []
    {
      head, tail, count, items := null, null, 0, [];
    }

    /** `SLPListUnlink`: takes entry `k` out of the list; its own links stay as they were. */
    method Unlink(item: Item<T>, ghost k: nat)
      requires Valid() && k < |items| && items[k] == item
      modifies this, items
      ensures Valid() && items == old(items)[..k] + old(items)[k + 1..]
    {
      assert LinkAt(items, k);
      assert k > 0 ==> LinkAt(items, k - 1);
      assert k + 1 < |items| ==> LinkAt(items, k + 1);
      ghost var before, after := items, items[..k] + items[k + 1..];
      if item.previous != null {
        item.previous.next := item.next;
      }
      if item.next != null {
        item.next.previous := item.previous;
      }
      if item == head {
        head := item.next;
      }
      if item == tail {
        tail := item.previous;
      }
      count := count - 1;
      items := after;
      forall i | 0 <= i < |after| ensures LinkAt(after, i) {
        assert old(LinkAt(before, if i < k then i else i + 1));
      }
    }

    /** `SLPListLinkHead`. */
    method LinkHead(item: Item<T>)
      requires Valid() && item !in items
      modifies this, items, item
      ensures Valid() && items == [item] + old(items)
    {
      ghost var before, after := items, [item] + items;
      assert items != [] ==> LinkAt(items, 0);
      item.previous := null;
      item.next := head;
      if head != null {
        head.previous := item;
      }
      head := item;
      if tail == null {
        tail := item;
      }
      count := count + 1;
      items := after;
      forall i | 0 <= i < |after| ensures LinkAt(after, i) {
        assert i > 0 ==> old(LinkAt(before, i - 1));
      }
    }

    /** `SLPListLinkTail`. */
    method LinkTail(item: Item<T>)
      requires Valid() && item !in items
      modifies this, items, item
      ensures Valid() && items == old(items) + [item]
    {
      ghost var before, after := items, items + [item];
      assert items != [] ==> LinkAt(items, |items| - 1);
      item.previous := tail;
      item.next := null;
      if tail != null {
        tail.next := item;
      }
      tail := item;
      if head == null {
        head := item;
      }
      count := count + 1;
      items := after;
      forall i | 0 <= i < |after| ensures LinkAt(after, i) {
        assert i < |before| ==> old(LinkAt(before, i));
      }
    }
  }
}
