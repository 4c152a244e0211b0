/** spdlog's ring buffer (circular_q.h): a bounded sequence that overruns its oldest item. */
module CircularQueue {

  /** What a push leaves of `items` when there is room for `capacity`. */
  function Pushed<T>(items: seq<T>, item: T, capacity: nat): (r: seq<T>)
    ensures |items| <= capacity ==> |r| <= capacity
  {
    if |items| < capacity then items + [item] else (items + [item])[|items| + 1 - capacity..]
  }

  function PushedAll<T>(items: seq<T>, xs: seq<T>, capacity: nat): seq<T>
    decreases |xs|
  {
    if xs == [] then items else PushedAll(Pushed(items, xs[0], capacity), xs[1..], capacity)
  }

  /** The last n items, or all of them. */
  function Newest<T>(items: seq<T>, n: nat): seq<T> {
    if |items| <= n then items else items[|items| - n..]
  }

  /** Whatever is pushed, the newest items are kept in order, as many as there is room for. */
  lemma {:induction false} NewestKept<T>(items: seq<T>, xs: seq<T>, capacity: nat)
    requires |items| <= capacity
    ensures PushedAll(items, xs, capacity) == Newest(items + xs, capacity)
    decreases |xs|
  {
    if xs == [] {
      assert items + xs == items;
    } else {
      NewestKept(Pushed(items, xs[0], capacity), xs[1..], capacity);
      PushedFirst(items, xs, capacity);
    }
  }

  lemma PushedFirst<T>(items: seq<T>, xs: seq<T>, capacity: nat)
    requires |items| <= capacity && xs != []
    ensures Newest(Pushed(items, xs[0], capacity) + xs[1..], capacity) == Newest(items + xs, capacity)
  {
    var all := items + xs;
    assert all == items + [xs[0]] + xs[1..];
    if |items| == capacity {
      assert (items + [xs[0]])[1..] + xs[1..] == all[1..];
      NewestTail(all, capacity);
    }
  }

  lemma NewestTail<T>(all: seq<T>, n: nat)
    requires |all| > n
    ensures Newest(all[1..], n) == Newest(all, n)
  {
  }

  /** The stretch of the ring from head up to tail, wrapping at the end of the storage. */
  function Stretch<T>(cells: seq<T>, head: nat, tail: nat): seq<T>
    requires head <= |cells| && tail <= |cells|
  {
    if tail >= head then cells[head..tail] else cells[head..] + cells[..tail]
  }

  function Next(i: nat, size: nat): (j: nat)
    requires i < size
  {
    if i + 1 == size then 0 else i + 1
  }

  lemma WrapAround(i: nat, size: nat)
    requires 0 < size && i < 2 * size
    ensures i % size == if i < size then i else i - size
  {
  }

  method Advance(i: nat, size: nat) returns (j: nat)
    requires i < size
    ensures j == Next(i, size)
  {
    WrapAround(i + 1, size);
    j := (i + 1) % size;
  }

  lemma StretchGrows<T>(cells: seq<T>, head: nat, tail: nat, item: T)
    requires head < |cells| && tail < |cells| && Next(tail, |cells|) != head
    ensures Stretch(cells[tail := item], head, Next(tail, |cells|)) == Stretch(cells, head, tail) + [item]
  {
    var after := cells[tail := item];
    if tail < head {
      assert after[head..] == cells[head..] && after[..tail + 1] == cells[..tail] + [item];
    } else if tail + 1 < |cells| {
      assert after[head..tail + 1] == cells[head..tail] + [item];
    } else {
      assert after[head..] == cells[head..tail] + [item] && after[..0] == [];
    }
  }

  lemma StretchShifts<T>(cells: seq<T>, head: nat, tail: nat, item: T)
    requires head < |cells| && tail < |cells| && Next(tail, |cells|) == head
    ensures Stretch(cells[tail := item], Next(head, |cells|), head) == (Stretch(cells, head, tail) + [item])[1..]
  {
    var after := cells[tail := item];
    if |cells| == 1 {
      assert Stretch(cells, head, tail) == [] && Stretch(after, 0, 0) == [];
    } else if head == 0 {
      assert after[1..] == cells[1..tail] + [item] && after[..0] == [];
      assert (cells[0..tail] + [item])[1..] == cells[1..tail] + [item];
    } else {
      assert after[..head] == cells[..tail] + [item] && after[head + 1..] == cells[head + 1..];
      assert (cells[head..] + cells[..tail] + [item])[1..] == cells[head + 1..] + (cells[..tail] + [item]);
    }
  }

  /** How many items lie between head and tail. */
  function Span(head: nat, tail: nat, size: nat): nat {
    if tail >= head then tail - head
    else if head - tail <= size then size - (head - tail) else 0
  }

  lemma SpanPushed(head: nat, tail: nat, size: nat)
    requires head < size && tail < size
    ensures var next := Next(tail, size);
            if next == head then Span(head, tail, size) == size - 1 == Span(Next(head, size), next, size)
            else Span(head, tail, size) < size - 1 && Span(head, next, size) == Span(head, tail, size) + 1
  {
  }

  /** A store at the tail, and the head moved on if the tail runs into it, is a bounded push. */
  lemma StretchPushed<T>(cells: seq<T>, head: nat, tail: nat, item: T)
    requires head < |cells| && tail < |cells|
    ensures var next := Next(tail, |cells|);
            var first := if next == head then Next(head, |cells|) else head;
            Stretch(cells[tail := item], first, next) == Pushed(Stretch(cells, head, tail), item, |cells| - 1)
  {
    if Next(tail, |cells|) == head {
      StretchShifts(cells, head, tail, item);
    } else {
      StretchGrows(cells, head, tail, item);
    }
  }

  lemma StretchPopped<T>(cells: seq<T>, head: nat, tail: nat)
    requires head < |cells| && tail < |cells| && head != tail
    ensures Stretch(cells, Next(head, |cells|), tail) == Stretch(cells, head, tail)[1..]
    ensures Span(Next(head, |cells|), tail, |cells|) == Span(head, tail, |cells|) - 1
  {
    if tail < head {
      assert (cells[head..] + cells[..tail])[1..] == cells[head + 1..] + cells[..tail];
    }
  }

  class CircularQ<T(0)> {
    var maxItems: nat      // capacity + 1; 0 for a disabled queue
    var head: nat
    var tail: nat
    var overruns: nat
    var v: array<T>

    // History of the object, for the conservation law only.
    ghost var pushes: nat
    ghost var pops: nat

    ghost predicate Valid()
      reads this
    {
      && v.Length == maxItems
      && (maxItems == 0 ==> head == 0 && tail == 0)
      && (maxItems > 0 ==> head < maxItems && tail < maxItems)
      && pushes == pops + Count() + overruns
    }

    ghost function Count(): nat
      reads this
    {
      Span(head, tail, maxItems)
    }

    ghost predicate Enabled()
      reads this
    {
      maxItems > 0
    }

    ghost function Capacity(): nat
      reads this
      requires Enabled()
    {
      maxItems - 1
    }

    /** The abstract value: the stored items, oldest first. */
    ghost function Contents(): (s: seq<T>)
      reads this, v
      requires Valid()
      ensures |s| == Count()
    {
      Stretch(v[..], head, tail)
    }

    constructor Disabled()
      ensures Valid() && !Enabled() && fresh(v) && Contents() == [] && overruns == 0
    {
      maxItems, head, tail, overruns := 0, 0, 0, 0;
      pushes, pops := 0, 0;
      v := new T[0];
    }

    constructor (capacity: nat)
      ensures Valid() && Enabled() && Capacity() == capacity
      ensures fresh(v) && Contents() == [] && overruns == 0
    {
      maxItems, head, tail, overruns := capacity + 1, 0, 0, 0;
      pushes, pops := 0, 0;
      v := new T[capacity + 1];
    }

    /** push_back: a disabled queue ignores the item. */
    method PushBack(item: T)
      requires Valid()
      modifies this, v
      ensures Valid() && maxItems == old(maxItems) && v == old(v) && pops == old(pops)
      ensures !Enabled() ==> Contents() == old(Contents()) && overruns == old(overruns)
      ensures Enabled() ==> Contents() == Pushed(old(Contents()), item, Capacity())
      ensures Enabled() ==> pushes == old(pushes) + 1
      ensures Enabled() ==>
                overruns == old(overruns) + if old(Count()) == Capacity() then 1 else 0
    {
      if maxItems > 0 {
        ghost var cells, at := v[..], tail;
        v[tail] := item;
        assert v[..] == cells[at := item];
        StretchPushed(cells, head, at, item);
        SpanPushed(head, at, maxItems);
        tail := Advance(tail, maxItems);
        if tail == head {
          head := Advance(head, maxItems);
          overruns := overruns + 1;
        }
        pushes := pushes + 1;
      }
    }

    /** pop_front; the source leaves it undefined on an empty queue. */
    method PopFront()
      requires Valid() && Count() > 0
      modifies this
      ensures Valid() && maxItems == old(maxItems) && v == old(v) && overruns == old(overruns)
      ensures Contents() == old(Contents())[1..]
      ensures pushes == old(pushes) && pops == old(pops) + 1
    {
      StretchPopped(v[..], head, tail);
      head := Advance(head, maxItems);
      pops := pops + 1;
    }

    method Front() returns (item: T)
      requires Valid() && Count() > 0
      ensures item == Contents()[0]
    {
      item := v[head];
    }

    method At(i: nat) returns (item: T)
      requires Valid() && i < Count()
      ensures item == Contents()[i]
    {
      WrapAround(head + i, maxItems);
      item := v[(head + i) % maxItems];
    }

    method Size() returns (n: nat)
      requires Valid()
      ensures n == |Contents()|
    {
      if tail >= head { n := tail - head; } else { n := maxItems - (head - tail); }
    }

    method Empty() returns (b: bool)
      requires Valid()
      ensures b <==> Contents() == []
    {
      b := tail == head;
    }

    method Full() returns (b: bool)
      requires Valid()
      ensures b <==> Enabled() && |Contents()| == Capacity()
    {
      if maxItems > 0 { WrapAround(tail + 1, maxItems); b := (tail + 1) % maxItems == head; } else { b := false; }
    }

    /**
     * copy_moveable: the target takes over the value, the source becomes disabled. A queue
     * moved onto itself ends up disabled.
     */
    method MoveFrom(other: CircularQ<T>)
      requires Valid() && other.Valid()
      modifies this, other
      ensures Valid() && other.Valid() && !other.Enabled() && fresh(other.v) && other.Contents() == []
      ensures other != this ==>
                && maxItems == old(other.maxItems) && v == old(other.v) && overruns == old(other.overruns)
                && Contents() == old(other.Contents())
    {
      maxItems, head, tail, overruns, v := other.maxItems, other.head, other.tail, other.overruns, other.v;
      pushes, pops := other.pushes, other.pops;
      other.Disable();
    }

    /** The state of a default-constructed queue. */
    method Disable()
      modifies this
      ensures Valid() && !Enabled() && fresh(v) && Contents() == [] && overruns == 0
    {
      maxItems, head, tail, overruns := 0, 0, 0, 0;
      pushes, pops := 0, 0;
      v := new T[0];
    }
  }
}
