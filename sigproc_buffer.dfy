/** SigProc's older circular buffer. The layout is the same as SPCore's, but
    `push` answers whether it stored the element instead of raising, `newest`
    and `oldest` check only the index against the fill count, `pop` has no
    emptiness check of its own, and `to_ary` is an unimplemented stub. */
module SigProcBuffer {
  import opened Wrappers
  import opened RingSpec

  class CircularBuffer<T(0)> {
    var buffer: array<T>
    var oldest: nat
    var newest: nat
    var fillCount: nat
    var fifo: bool
    var overrideWhenFull: bool

    /** The held elements, oldest first. */
    ghost var Contents: seq<T>

    /** As for SPCore's buffer: the k-th oldest element sits at
        `(oldest + k) mod size`, and `newest` is the next slot to write. */
    ghost predicate Valid()
      reads this, buffer
    {
      && fillCount <= buffer.Length
      && |Contents| == fillCount
      && (buffer.Length == 0 ==> oldest == 0 && newest == 0)
      && (buffer.Length > 0 ==>
            && oldest < buffer.Length
            && newest == Slot(oldest, fillCount, buffer.Length))
      && Layout(buffer[..], Contents, oldest)
    }

    constructor (size: nat, fifo: bool := true, overrideWhenFull: bool := true)
      ensures Valid() && fresh(buffer)
      ensures buffer.Length == size && Contents == []
      ensures this.fifo == fifo && this.overrideWhenFull == overrideWhenFull
    {
      buffer := new T[size];
      oldest, newest, fillCount := 0, 0, 0;
      this.fifo := fifo;
      this.overrideWhenFull := overrideWhenFull;
      Contents := [];
    }

    /** The buffer size, which bounds the number of held elements. */
    function Size(): (n: nat)
      requires Valid()
      reads this, buffer
      ensures |Contents| <= n
    {
      buffer.Length
    }

    predicate IsEmpty()
      requires Valid()
      reads this, buffer
      ensures IsEmpty() <==> Contents == []
    {
      fillCount == 0
    }

    predicate IsFull()
      requires Valid()
      reads this, buffer
      ensures IsFull() <==> |Contents| == Size()
    {
      fillCount == Size()
    }

    /** A new size allocates an empty backing array and answers true; the
        current size changes nothing and answers false. */
    method Resize(size: nat) returns (changed: bool)
      requires Valid()
      modifies this`buffer, this`oldest, this`newest, this`fillCount, this`Contents
      ensures Valid()
      ensures changed <==> size != old(buffer.Length)
      ensures changed ==> fresh(buffer) && buffer.Length == size && Contents == []
      ensures !changed ==> buffer == old(buffer) && Contents == old(Contents)
      ensures !changed ==> oldest == old(oldest) && newest == old(newest) && fillCount == old(fillCount)
    {
      changed := false;
      if size != buffer.Length {
        changed := true;
        buffer := new T[size];
        oldest := 0;
        newest := 0;
        fillCount := 0;
        Contents := [];
      }
    }

    /** Unimplemented in this generation: it always raises. */
    method ToAry() returns (r: Result<seq<T>>)
      ensures r == Err(NotImplemented)
    {
      r := Err(NotImplemented);
    }

    /** Store one element, answering whether it was stored. A full buffer that
        may not override answers false and changes nothing; one that may
        override advances both cursors and keeps its fill count. */
    method Push(element: T) returns (stored: bool)
      requires Valid()
      requires Size() > 0 || !overrideWhenFull
      modifies this`oldest, this`newest, this`fillCount, this`Contents, buffer
      ensures Valid()
      ensures stored <==> !old(IsFull()) || overrideWhenFull
      ensures !stored ==>
                Contents == old(Contents) && buffer[..] == old(buffer[..])
                && oldest == old(oldest) && newest == old(newest) && fillCount == old(fillCount)
      ensures !old(IsFull()) ==> Contents == old(Contents) + [element] && fillCount == old(fillCount) + 1
      ensures old(IsFull()) && overrideWhenFull ==>
                Contents == old(Contents)[1..] + [element] && fillCount == old(fillCount)
      ensures AfterPush(old(Contents), element, Size(), overrideWhenFull) ==
                (if stored then Some(Contents) else None)
    {
      ghost var b0, c0, o0 := buffer[..], Contents, oldest;
      stored := false;
      if fillCount != buffer.Length {
        stored := true;
        buffer[newest] := element;
        newest := newest + 1;
        fillCount := fillCount + 1;
        Contents := Contents + [element];
        assert buffer[..] == b0[Slot(o0, |c0|, |b0|) := element];
        LayoutAppend(b0, c0, o0, element);
      } else if overrideWhenFull {
        stored := true;
        buffer[newest] := element;
        newest := newest + 1;
        oldest := oldest + 1;
        Contents := Contents[1..] + [element];
        assert buffer[..] == b0[o0 := element];
        LayoutOverride(b0, c0, o0, element);
      }

      if stored {
        if oldest >= buffer.Length {
          oldest := 0;
        }
        if newest >= buffer.Length {
          newest := 0;
        }
      }
    }

    /** The `k`-th most recent element; raises exactly when `k` reaches the
        fill count, which includes every index into an empty buffer. */
    method Newest(relativeIndex: nat := 0) returns (r: Result<T>)
      requires Valid()
      ensures r.Err? <==> relativeIndex >= |Contents|
      ensures r.Err? ==> r.error == IndexTooLarge
      ensures r.Ok? ==> r.value == Contents[|Contents| - 1 - relativeIndex]
    {
      if relativeIndex >= fillCount {
        return Err(IndexTooLarge);
      }
      var newestIdx: int := newest - 1;
      if newestIdx < 0 {
        newestIdx := newestIdx + buffer.Length;
      }
      var absIdx := newestIdx - relativeIndex;
      if absIdx < 0 {
        absIdx := absIdx + buffer.Length;
      }
      assert absIdx == Slot(oldest, fillCount - 1 - relativeIndex, buffer.Length);
      r := Ok(buffer[absIdx]);
    }

    /** The `k`-th oldest element; raises exactly when `k` reaches the fill count. */
    method Oldest(relativeIndex: nat := 0) returns (r: Result<T>)
      requires Valid()
      ensures r.Err? <==> relativeIndex >= |Contents|
      ensures r.Err? ==> r.error == IndexTooLarge
      ensures r.Ok? ==> r.value == Contents[relativeIndex]
    {
      if relativeIndex >= fillCount {
        return Err(IndexTooLarge);
      }
      var absIdx := oldest + relativeIndex;
      if absIdx >= buffer.Length {
        absIdx := absIdx - buffer.Length;
      }
      r := Ok(buffer[absIdx]);
    }

    /** Pop's FIFO cursor step: advance `oldest`, wrapping at the end. */
    method DropOldest()
      requires Valid() && Contents != []
      modifies this`oldest, this`fillCount, this`Contents
      ensures Valid()
      ensures Contents == old(Contents)[1..] && fillCount == old(fillCount) - 1
    {
      LayoutDropOldest(buffer[..], Contents, oldest);
      oldest := oldest + 1;
      if oldest >= buffer.Length {
        oldest := 0;
      }
      fillCount := fillCount - 1;
      Contents := Contents[1..];
    }

    /** Pop's FILO cursor step: move `newest` back one slot, wrapping at the
        start. */
    method DropNewest()
      requires Valid() && Contents != []
      modifies this`newest, this`fillCount, this`Contents
      ensures Valid()
      ensures Contents == old(Contents)[..|old(Contents)| - 1] && fillCount == old(fillCount) - 1
    {
      LayoutDropNewest(buffer[..], Contents, oldest);
      if newest > 0 {
        newest := newest - 1;
      } else {
        newest := buffer.Length - 1;
      }
      fillCount := fillCount - 1;
      Contents := Contents[..fillCount];
    }

    /** Remove and answer the oldest element (FIFO) or the newest (FILO). On an
        empty buffer the read raises before any cursor moves. */
    method Pop() returns (r: Result<T>)
      requires Valid()
      modifies this`oldest, this`newest, this`fillCount, this`Contents
      ensures Valid()
      ensures old(Contents) == [] ==>
                r == Err(IndexTooLarge) && Contents == old(Contents)
                && oldest == old(oldest) && newest == old(newest) && fillCount == old(fillCount)
      ensures old(Contents) != [] ==> fillCount == old(fillCount) - 1
      ensures old(Contents) != [] && fifo ==> r == Ok(old(Contents)[0]) && Contents == old(Contents)[1..]
      ensures old(Contents) != [] && !fifo ==>
                r == Ok(old(Contents)[|old(Contents)| - 1]) && Contents == old(Contents)[..|old(Contents)| - 1]
    {
      if fifo {
        r := Oldest();
        if r.Err? {
          return;
        }
        DropOldest();
      } else {
        r := Newest();
        if r.Err? {
          return;
        }
        DropNewest();
      }
    }
  }
}
