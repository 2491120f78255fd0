/** SPCore's circular buffer: a backing array, `oldest`/`newest` cursors and an
    explicit fill count. Pushing on a full buffer either overrides the oldest
    element or raises; `pop` removes the oldest (FIFO) or the newest (FILO)
    element and raises on an empty buffer. */
module SpCoreBuffer {
  import opened Wrappers
  import opened RingSpec

  class CircularBuffer<T(0)> {
    var buffer: array<T>
    var oldest: nat
    var newest: nat
    var fillCount: nat
    var fifo: bool
    var overrideWhenFull: bool

    /** The held elements, oldest first. */
    ghost var Contents: seq<T>

    /** The cursors and the fill count locate `Contents` in the backing array:
        the k-th oldest element sits at `(oldest + k) mod size` and `newest` is
        the slot the next push writes. */
    ghost predicate Valid()
      reads this, buffer
    {
      && fillCount <= buffer.Length
      && |Contents| == fillCount
      && (buffer.Length == 0 ==> oldest == 0 && newest == 0)
      && (buffer.Length > 0 ==>
            && oldest < buffer.Length
            && newest == Slot(oldest, fillCount, buffer.Length))
      && Layout(buffer[..], Contents, oldest)
    }

    constructor (size: nat, fifo: bool := true, overrideWhenFull: bool := true)
      ensures Valid() && fresh(buffer)
      ensures buffer.Length == size && Contents == []
      ensures this.fifo == fifo && this.overrideWhenFull == overrideWhenFull
      ensures IsEmpty() && (size == 0 ==> IsFull())
    {
      buffer := new T[size];
      oldest, newest, fillCount := 0, 0, 0;
      this.fifo := fifo;
      this.overrideWhenFull := overrideWhenFull;
      Contents := [];
    }

    /** The buffer size, which bounds the number of held elements. */
    function Size(): (n: nat)
      requires Valid()
      reads this, buffer
      ensures |Contents| <= n
    {
      buffer.Length
    }

    predicate IsEmpty()
      requires Valid()
      reads this, buffer
      ensures IsEmpty() <==> Contents == []
    {
      fillCount == 0
    }

    predicate IsFull()
      requires Valid()
      reads this, buffer
      ensures IsFull() <==> |Contents| == Size()
    {
      fillCount == Size()
    }

    /** A size different from the current one allocates a new, empty backing
        array and answers true; the same size changes nothing and answers false. */
    method Resize(size: nat) returns (changed: bool)
      requires Valid()
      modifies this`buffer, this`oldest, this`newest, this`fillCount, this`Contents
      ensures Valid()
      ensures changed <==> size != old(buffer.Length)
      ensures changed ==> fresh(buffer) && buffer.Length == size && Contents == []
      ensures !changed ==> buffer == old(buffer) && Contents == old(Contents)
      ensures !changed ==> oldest == old(oldest) && newest == old(newest) && fillCount == old(fillCount)
    {
      changed := false;
      if size != buffer.Length {
        changed := true;
        buffer := new T[size];
        oldest := 0;
        newest := 0;
        fillCount := 0;
        Contents := [];
      }
    }

    /** The held elements laid out contiguously, oldest first: one slice when
        they do not wrap, two joined slices when they do. */
    method ToAry() returns (r: seq<T>)
      requires Valid()
      ensures r == Contents
    {
      if fillCount == 0 {
        return [];
      }
      var newestIdx: int := newest - 1;
      if newestIdx < 0 {
        newestIdx := newestIdx + buffer.Length;
      }
      if newestIdx >= oldest {
        r := buffer[oldest..newestIdx + 1];
        assert |r| == fillCount;
      } else {
        r := buffer[oldest..buffer.Length] + buffer[0..newestIdx + 1];
        assert |r| == fillCount;
      }
      forall k | 0 <= k < fillCount
        ensures r[k] == Contents[k]
      {
      }
    }

    /** Push one element. A full buffer that may not override raises before
        any field changes; one that may override evicts its oldest element. */
    method Push(element: T) returns (r: Outcome)
      requires Valid()
      requires Size() > 0 || !overrideWhenFull
      modifies this`oldest, this`newest, this`fillCount, this`Contents, buffer
      ensures Valid()
      ensures old(IsFull()) && !overrideWhenFull ==>
                r == Fail(BufferFull) && Contents == old(Contents) && buffer[..] == old(buffer[..])
                && oldest == old(oldest) && newest == old(newest) && fillCount == old(fillCount)
      ensures !old(IsFull()) ==> r == Pass && Contents == old(Contents) + [element]
      ensures old(IsFull()) && overrideWhenFull ==>
                r == Pass && Contents == old(Contents)[1..] + [element] && fillCount == old(fillCount)
      ensures AfterPush(old(Contents), element, Size(), overrideWhenFull) ==
                (if r.Pass? then Some(Contents) else None)
    {
      ghost var b0, c0, o0 := buffer[..], Contents, oldest;
      if fillCount == buffer.Length {
        if !overrideWhenFull {
          return Fail(BufferFull);
        }
        buffer[newest] := element;
        newest := newest + 1;
        oldest := oldest + 1;
        Contents := Contents[1..] + [element];
        assert buffer[..] == b0[o0 := element];
        LayoutOverride(b0, c0, o0, element);
      } else {
        buffer[newest] := element;
        newest := newest + 1;
        fillCount := fillCount + 1;
        Contents := Contents + [element];
        assert buffer[..] == b0[Slot(o0, |c0|, |b0|) := element];
        LayoutAppend(b0, c0, o0, element);
      }

      if oldest >= buffer.Length {
        oldest := 0;
      }
      if newest >= buffer.Length {
        newest := 0;
      }
      r := Pass;
    }

    /** Push every element of `ary` in order; the first refused push raises,
        leaving the earlier pushes in place. */
    method PushAry(ary: seq<T>) returns (r: Outcome)
      requires Valid()
      requires Size() > 0 || !overrideWhenFull
      modifies this`oldest, this`newest, this`fillCount, this`Contents, buffer
      ensures Valid()
      ensures (Contents, r.Pass?) == PushAll(old(Contents), ary, Size(), overrideWhenFull)
      ensures r.Fail? ==> r.error == BufferFull
    {
      var i := 0;
      while i < |ary|
        invariant 0 <= i <= |ary|
        invariant Valid()
        invariant PushAll(old(Contents), ary[..i], Size(), overrideWhenFull) == (Contents, true)
      {
        PushAllSnoc(old(Contents), ary[..i], ary[i], Size(), overrideWhenFull);
        assert ary[..i + 1] == ary[..i] + [ary[i]];
        var o := Push(ary[i]);
        if o.Fail? {
          PushAllPrefixFails(old(Contents), ary, i + 1, Size(), overrideWhenFull);
          return o;
        }
        i := i + 1;
      }
      assert ary[..i] == ary;
      r := Pass;
    }

    /** The `k`-th most recent element (`k == 0` is the newest). */
    method Newest(relativeIndex: nat := 0) returns (r: Result<T>)
      requires Valid()
      ensures Contents == [] ==> r == Err(BufferEmpty)
      ensures Contents != [] && relativeIndex >= |Contents| ==> r == Err(IndexTooLarge)
      ensures relativeIndex < |Contents| ==> r == Ok(Contents[|Contents| - 1 - relativeIndex])
    {
      if fillCount == 0 {
        return Err(BufferEmpty);
      }
      if relativeIndex >= fillCount {
        return Err(IndexTooLarge);
      }
      var newestIdx: int := newest - 1;
      if newestIdx < 0 {
        newestIdx := newestIdx + buffer.Length;
      }
      var absIdx := newestIdx - relativeIndex;
      if absIdx < 0 {
        absIdx := absIdx + buffer.Length;
      }
      assert absIdx == Slot(oldest, fillCount - 1 - relativeIndex, buffer.Length);
      r := Ok(buffer[absIdx]);
    }

    /** The `k`-th oldest element (`k == 0` is the oldest). */
    method Oldest(relativeIndex: nat := 0) returns (r: Result<T>)
      requires Valid()
      ensures Contents == [] ==> r == Err(BufferEmpty)
      ensures Contents != [] && relativeIndex >= |Contents| ==> r == Err(IndexTooLarge)
      ensures relativeIndex < |Contents| ==> r == Ok(Contents[relativeIndex])
    {
      if fillCount == 0 {
        return Err(BufferEmpty);
      }
      if relativeIndex >= fillCount {
        return Err(IndexTooLarge);
      }
      var absIdx := oldest + relativeIndex;
      if absIdx >= buffer.Length {
        absIdx := absIdx - buffer.Length;
      }
      r := Ok(buffer[absIdx]);
    }

    /** Pop's FIFO cursor step: advance `oldest`, wrapping at the end. */
    method DropOldest()
      requires Valid() && Contents != []
      modifies this`oldest, this`fillCount, this`Contents
      ensures Valid()
      ensures Contents == old(Contents)[1..] && fillCount == old(fillCount) - 1
    {
      LayoutDropOldest(buffer[..], Contents, oldest);
      oldest := oldest + 1;
      if oldest >= buffer.Length {
        oldest := 0;
      }
      fillCount := fillCount - 1;
      Contents := Contents[1..];
    }

    /** Pop's FILO cursor step: move `newest` back one slot, wrapping at the
        start. */
    method DropNewest()
      requires Valid() && Contents != []
      modifies this`newest, this`fillCount, this`Contents
      ensures Valid()
      ensures Contents == old(Contents)[..|old(Contents)| - 1] && fillCount == old(fillCount) - 1
    {
      LayoutDropNewest(buffer[..], Contents, oldest);
      if newest > 0 {
        newest := newest - 1;
      } else {
        newest := buffer.Length - 1;
      }
      fillCount := fillCount - 1;
      Contents := Contents[..fillCount];
    }

    /** Remove and answer the oldest element (FIFO) or the newest (FILO). */
    method Pop() returns (r: Result<T>)
      requires Valid()
      modifies this`oldest, this`newest, this`fillCount, this`Contents
      ensures Valid()
      ensures old(Contents) == [] ==>
                r == Err(BufferEmpty) && Contents == old(Contents)
                && oldest == old(oldest) && newest == old(newest) && fillCount == old(fillCount)
      ensures old(Contents) != [] ==> fillCount == old(fillCount) - 1
      ensures old(Contents) != [] && fifo ==> r == Ok(old(Contents)[0]) && Contents == old(Contents)[1..]
      ensures old(Contents) != [] && !fifo ==>
                r == Ok(old(Contents)[|old(Contents)| - 1]) && Contents == old(Contents)[..|old(Contents)| - 1]
    {
      if fillCount == 0 {
        return Err(BufferEmpty);
      }
      if fifo {
        r := Oldest();
        DropOldest();
      } else {
        r := Newest();
        DropNewest();
      }
    }
  }

  /** Once a push in the run is refused, the whole run reports failure and
      stops at the contents reached just before it. */
  lemma {:induction false} PushAllPrefixFails<T>(c: seq<T>, xs: seq<T>, n: nat, size: nat, overrideWhenFull: bool)
    requires |c| <= size
    requires size > 0 || !overrideWhenFull
    requires n <= |xs|
    requires !PushAll(c, xs[..n], size, overrideWhenFull).1
    ensures PushAll(c, xs, size, overrideWhenFull) == PushAll(c, xs[..n], size, overrideWhenFull)
    decreases n
  {
    assert n > 0;
    assert xs[..n][0] == xs[0];
    assert xs[..n][1..] == xs[1..][..n - 1];
    match AfterPush(c, xs[0], size, overrideWhenFull)
    case None =>
    case Some(c') =>
      PushAllPrefixFails(c', xs[1..], n - 1, size, overrideWhenFull);
  }
}
