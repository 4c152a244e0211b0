/** The growing read buffer of a session (MessageBuffer.hpp). */
module MessageBuffers {
  import opened Bytes
  import opened BigEndian

  const INITIAL_SIZE: nat := 4096
  const MIN_FREE: nat := 512

  function Max(a: nat, b: nat): nat { if a > b then a else b }

  class MessageBuffer {
    var wpos: nat
    var rpos: nat
    var storage: ByteSeq
    ghost var peak: nat   // history: the largest active size so far

    ghost predicate Valid()
      reads this
    {
      rpos <= wpos <= |storage| && wpos - rpos <= peak
    }

    /** The bytes received and not yet consumed. */
    ghost function Active(): ByteSeq
      reads this
      requires Valid()
    {
      storage[rpos..wpos]
    }

    /** The bound that a session's use of the buffer keeps. */
    ghost predicate Bounded()
      reads this
    {
      |storage| <= Max(4096, peak + 2 * 512 - 1)
    }

    constructor (size: nat)
      ensures Valid() && Active() == [] && RemainingSpace() == |storage| == size && peak == 0
    {
      wpos, rpos, peak := 0, 0, 0;
      storage := Zeros(size);
    }

    function ActiveSize(): nat
      reads this
      requires Valid()
    {
      wpos - rpos
    }

    function RemainingSpace(): nat
      reads this
      requires Valid()
    {
      |storage| - wpos
    }

    method Clear()
      modifies this
      ensures Valid() && Active() == [] && storage == [] && peak == old(peak)
    {
      wpos, rpos := 0, 0;
      storage := [];
    }

    /** The socket stores data at write_ptr; nothing becomes active yet. */
    method Store(data: ByteSeq)
      requires Valid() && |data| <= RemainingSpace()
      modifies this`storage
      ensures Valid() && Active() == old(Active()) && |storage| == old(|storage|)
      ensures storage[wpos..wpos + |data|] == data
    {
      storage := storage[..wpos] + data + storage[wpos + |data|..];
    }

    /** write_completed: false where the source throws. */
    method WriteCompleted(n: nat) returns (ok: bool)
      requires Valid()
      modifies this`wpos, this`peak
      ensures Valid() && ok == (n <= old(RemainingSpace()))
      ensures ok ==> Active() == old(Active()) + storage[old(wpos)..old(wpos) + n]
      ensures !ok ==> wpos == old(wpos)
      ensures peak == Max(old(peak), |Active()|)
    {
      ok := n <= RemainingSpace();
      if ok {
        wpos := wpos + n;
        peak := Max(peak, wpos - rpos);
      }
    }

    /** read_completed: false where the source throws. */
    method ReadCompleted(n: nat) returns (ok: bool)
      requires Valid()
      modifies this`rpos
      ensures Valid() && ok == (n <= old(|Active()|))
      ensures Active() == if ok then old(Active())[n..] else old(Active())
    {
      ok := n <= ActiveSize();
      if ok { rpos := rpos + n; }
    }

    /** normalize: the active bytes move to the front. */
    method Normalize()
      requires Valid()
      modifies this`wpos, this`rpos, this`storage
      ensures Valid() && Active() == old(Active()) && rpos == 0 && |storage| == old(|storage|)
    {
      if rpos != 0 {
        if rpos != wpos {
          storage := storage[rpos..wpos] + storage[wpos - rpos..];
        }
        wpos := wpos - rpos;
        rpos := 0;
      }
    }

    /** ensure_free_space: at least minFree bytes of room, and storage grows only when it must. */
    method EnsureFreeSpace(minFree: nat)
      requires Valid()
      modifies this`wpos, this`rpos, this`storage
      ensures Valid() && Active() == old(Active())
      ensures RemainingSpace() >= minFree
      ensures |storage| == old(|storage|) ||
              (|storage| == old(|storage|) + minFree && old(|storage|) < |Active()| + minFree)
      ensures minFree == MIN_FREE && old(Bounded()) ==> Bounded()
    {
      if RemainingSpace() < minFree {
        Normalize();
        if RemainingSpace() < minFree {
          storage := storage + Zeros(minFree);
        }
      }
    }
  }
}
