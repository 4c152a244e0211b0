/**
 * The three posting policies of spdlog's blocking queue (mpmc_blocking_q.h) on the ring
 * buffer. A method is what runs under the mutex once the wait predicate holds.
 */
module BlockingQueue {
  import opened CircularQueue

  class MpmcBlockingQueue<T(0)> {
    const q: CircularQ<T>
    var discards: nat
    ghost var offered: nat   // history: items given to any of the three policies

    ghost predicate Valid()
      reads this, q
    {
      q.Valid() && q.Enabled() && offered == q.pushes + discards
    }

    ghost function Items(): seq<T>
      reads this, q, q.v
      requires Valid()
    {
      q.Contents()
    }

    ghost function Capacity(): nat
      reads this, q
      requires Valid()
    {
      q.Capacity()
    }

    constructor (capacity: nat)
      ensures Valid() && fresh(q) && fresh(q.v) && Items() == [] && Capacity() == capacity && discards == 0
    {
      q := new CircularQ(capacity);
      discards, offered := 0, 0;
      new;
      offered := q.pushes;
    }

    /** enqueue, woken with room: nothing is ever overrun. */
    method Enqueue(item: T)
      requires Valid() && |Items()| < Capacity()
      modifies this, q, q.v
      ensures Valid() && q.v == old(q.v) && Capacity() == old(Capacity())
      ensures Items() == old(Items()) + [item]
      ensures q.overruns == old(q.overruns) && discards == old(discards)
      ensures offered == old(offered) + 1 && q.pops == old(q.pops)
    {
      q.PushBack(item);
      offered := offered + 1;
    }

    /** enqueue_nowait: overruns the oldest item when full. */
    method EnqueueNowait(item: T)
      requires Valid()
      modifies this, q, q.v
      ensures Valid() && q.v == old(q.v) && Capacity() == old(Capacity())
      ensures Items() == Pushed(old(Items()), item, Capacity())
      ensures q.overruns == old(q.overruns) + (if old(|Items()| == Capacity()) then 1 else 0)
      ensures discards == old(discards) && offered == old(offered) + 1 && q.pops == old(q.pops)
    {
      q.PushBack(item);
      offered := offered + 1;
    }

    /** enqueue_if_have_room: discards the new item when full. */
    method EnqueueIfHaveRoom(item: T)
      requires Valid()
      modifies this, q, q.v
      ensures Valid() && q.v == old(q.v) && Capacity() == old(Capacity())
      ensures Items() == if old(|Items()| == Capacity()) then old(Items()) else old(Items()) + [item]
      ensures discards == old(discards) + (if old(|Items()| == Capacity()) then 1 else 0)
      ensures q.overruns == old(q.overruns) && offered == old(offered) + 1 && q.pops == old(q.pops)
    {
      var full := q.Full();
      if !full {
        q.PushBack(item);
      } else {
        discards := discards + 1;
      }
      offered := offered + 1;
    }

    /** dequeue, woken with an item: the oldest one leaves. */
    method Dequeue() returns (item: T)
      requires Valid() && Items() != []
      modifies this, q
      ensures Valid() && q.v == old(q.v) && Capacity() == old(Capacity())
      ensures old(Items()) == [item] + Items()
      ensures q.overruns == old(q.overruns) && discards == old(discards)
      ensures offered == old(offered) && q.pops == old(q.pops) + 1
    {
      item := q.Front();
      q.PopFront();
    }

    /** Whatever the mix of policies, every item offered is accounted for. */
    lemma Conservation()
      requires Valid()
      ensures offered == q.pops + |Items()| + q.overruns + discards
      ensures |Items()| <= Capacity()
    {
    }
  }
}
