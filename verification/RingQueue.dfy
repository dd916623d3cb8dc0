/** The growing ring buffer behind each priority (`sendItemQueue`, writer.go), proved to be a
    first-in first-out sequence. */
module RingQueue {

  /** A frame waiting to be written. `stamp` numbers the frames a writer accepted; `control` says
      that it travels on the control channel; `size` is its length in bytes. */
  datatype Item = Item(stamp: nat, priority: nat, control: bool, size: nat)

  const NO_ITEM := Item(0, 0, false, 0)

  /** Position `i` of a ring of `n` slots, counted from `head`. */
  function Slot(head: nat, i: nat, n: nat): nat
    requires i <= n && head < n
  {
    if head + i < n then head + i else head + i - n
  }

  lemma SlotIsRemainder(head: nat, i: nat, n: nat)
    requires i <= n && head < n
    ensures (head + i) % n == Slot(head, i, n) < n
  {
    assert head + i < n ==> (head + i) % n == head + i;
    assert head + i >= n ==> (head + i) % n == head + i - n;
  }

  /** The index expression of the ring. */
  method Index(head: nat, i: nat, n: nat) returns (at: nat)
    requires i <= n && head < n
    ensures at == Slot(head, i, n) < n
  {
    SlotIsRemainder(head, i, n);
    at := (head + i) % n;
  }

  class SendItemQueue {
    var items: array<Item>
    var head: nat
    var size: nat
    ghost var contents: seq<Item>

    ghost predicate Valid()
      reads this, items
    {
      && size <= items.Length
      && (if items.Length == 0 then head == 0 else head < items.Length)
      && |contents| == size
      && forall i :: 0 <= i < size ==> contents[i] == items[Slot(head, i, items.Length)]
    }

    constructor (capacity: nat)
      ensures Valid() && fresh(items) && contents == []
    {
      items := new Item[capacity](_ => NO_ITEM);
      head, size, contents := 0, 0, [];
    }

    /** The buffer is doubled, or gets 64 slots, and the contents move to its front. */
    method Grow()
      requires Valid() && size == items.Length
      modifies this
      ensures Valid() && fresh(items) && size < items.Length
      ensures contents == old(contents) && size == old(size)
    {
      var capacity := if items.Length == 0 then 64 else items.Length * 2;
      var bigger := new Item[capacity](_ => NO_ITEM);
      var i := 0;
      while i < size
        modifies bigger
        invariant i <= size && Valid()
        invariant forall j :: 0 <= j < i ==> bigger[j] == contents[j]
      {
        var at := Index(head, i, items.Length);
        bigger[i] := items[at];
        i := i + 1;
      }
      items := bigger;
      head := 0;
    }

    method Push(item: Item)
      requires Valid()
      modifies this, items
      ensures Valid() && (items == old(items) || fresh(items))
      ensures contents == old(contents) + [item]
    {
      if size == items.Length {
        Grow();
      }
      var at := Index(head, size, items.Length);
      items[at] := item;
      size := size + 1;
      contents := contents + [item];
    }

    method Pop() returns (item: Item, ok: bool)
      requires Valid()
      modifies this, items
      ensures Valid() && items == old(items)
      ensures ok <==> old(contents) != []
      ensures contents == (if ok then old(contents)[1..] else [])
      ensures ok ==> item == old(contents)[0]
    {
      if size == 0 {
        return NO_ITEM, false;
      }
      item, ok := items[head], true;
      items[head] := NO_ITEM;
      head := Index(head, 1, items.Length);
      size := size - 1;
      contents := contents[1..];
      if size == 0 {
        head := 0;
      }
    }
  }
}
