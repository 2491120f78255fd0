/** The abstract behaviour shared by both circular buffers: where the k-th
    oldest element lives in the backing array, and what a push does to the
    sequence of held elements (oldest first). */
module RingSpec {
  import opened Wrappers

  /** Backing-array index of the k-th oldest element, computed the way the
      source does: add, then subtract the size once if the sum ran off the end. */
  function Slot(oldest: nat, k: nat, size: nat): nat
    requires oldest < size && k <= size
  {
    if oldest + k < size then oldest + k else oldest + k - size
  }

  /** The cursor arithmetic is arithmetic modulo the buffer size: this is the
      invariant `newest == (oldest + fill_count) mod size`. */
  lemma SlotIsRemainder(oldest: nat, k: nat, size: nat)
    requires oldest < size && k <= size
    ensures Slot(oldest, k, size) < size
    ensures Slot(oldest, k, size) == (oldest + k) % size
  {
    if oldest + k < size {
      assert (oldest + k) % size == oldest + k;
    } else {
      assert oldest + k == 1 * size + (oldest + k - size);
    }
  }

  /** Distinct relative positions within one lap occupy distinct slots. */
  lemma SlotInjective(oldest: nat, j: nat, k: nat, size: nat)
    requires oldest < size && j < size && k < size && j != k
    ensures Slot(oldest, j, size) != Slot(oldest, k, size)
  {
  }

  /** The k-th held element sits at slot `Slot(oldest, k)` of the backing
      sequence `b`. */
  ghost predicate Layout<T>(b: seq<T>, c: seq<T>, oldest: nat)
  {
    && |c| <= |b|
    && (|b| > 0 ==> oldest < |b| && forall k :: 0 <= k < |c| ==> c[k] == b[Slot(oldest, k, |b|)])
  }

  /** Writing `x` into the first free slot lays out the held elements
      followed by `x`. */
  lemma LayoutAppend<T>(b: seq<T>, c: seq<T>, oldest: nat, x: T)
    requires |c| < |b| && Layout(b, c, oldest)
    ensures Layout(b[Slot(oldest, |c|, |b|) := x], c + [x], oldest)
  {
    var b' := b[Slot(oldest, |c|, |b|) := x];
    forall k | 0 <= k < |c| + 1
      ensures (c + [x])[k] == b'[Slot(oldest, k, |b|)]
    {
      if k < |c| {
        SlotInjective(oldest, k, |c|, |b|);
      }
    }
  }

  /** Overwriting the oldest slot of a full ring and advancing `oldest` by
      one lays out the held elements without the first, followed by `x`. */
  lemma LayoutOverride<T>(b: seq<T>, c: seq<T>, oldest: nat, x: T)
    requires 0 < |b| && |c| == |b| && Layout(b, c, oldest)
    ensures Layout(b[oldest := x], c[1..] + [x], Slot(oldest, 1, |b|))
  {
    var n := |b|;
    var o := Slot(oldest, 1, n);
    var b' := b[oldest := x];
    forall k | 0 <= k < n
      ensures (c[1..] + [x])[k] == b'[Slot(o, k, n)]
    {
      assert Slot(o, k, n) == Slot(oldest, k + 1, n);
      if k < n - 1 {
        SlotInjective(oldest, k + 1, 0, n);
      }
    }
  }

  /** Advancing `oldest` by one drops the oldest held element. */
  lemma LayoutDropOldest<T>(b: seq<T>, c: seq<T>, oldest: nat)
    requires 0 < |c| && Layout(b, c, oldest)
    ensures Layout(b, c[1..], Slot(oldest, 1, |b|))
    ensures Slot(Slot(oldest, 1, |b|), |c| - 1, |b|) == Slot(oldest, |c|, |b|)
  {
    var o := Slot(oldest, 1, |b|);
    forall k | 0 <= k < |c| - 1
      ensures c[1..][k] == b[Slot(o, k, |b|)]
    {
      assert Slot(o, k, |b|) == Slot(oldest, k + 1, |b|);
    }
  }

  /** Forgetting the last held element keeps the layout of the rest. */
  lemma LayoutDropNewest<T>(b: seq<T>, c: seq<T>, oldest: nat)
    requires 0 < |c| && Layout(b, c, oldest)
    ensures Layout(b, c[..|c| - 1], oldest)
    ensures Slot(oldest, |c| - 1, |b|) ==
              if Slot(oldest, |c|, |b|) > 0 then Slot(oldest, |c|, |b|) - 1 else |b| - 1
  {
  }

  /** The held elements after pushing `x`, or None when the push is refused
      because the buffer is full and may not override. When it overrides, the
      oldest element is evicted. */
  function AfterPush<T>(c: seq<T>, x: T, size: nat, overrideWhenFull: bool): (r: Option<seq<T>>)
    requires |c| <= size
    requires size > 0 || !overrideWhenFull
    ensures r.None? <==> |c| == size && !overrideWhenFull
    ensures r.Some? ==> 1 <= |r.value| <= size && r.value[|r.value| - 1] == x
    ensures r.Some? && |c| < size ==> |r.value| == |c| + 1 && r.value[..|c|] == c
    ensures r.Some? && |c| == size ==> |r.value| == size && r.value[..size - 1] == c[1..]
  {
    if |c| < size then Some(c + [x])
    else if overrideWhenFull then Some(c[1..] + [x])
    else None
  }

  /** Pushing each element of `xs` in turn: the contents reached and whether
      every push succeeded (the first refused push stops the sequence, as a
      raise would). */
  function PushAll<T>(c: seq<T>, xs: seq<T>, size: nat, overrideWhenFull: bool): (r: (seq<T>, bool))
    requires |c| <= size
    requires size > 0 || !overrideWhenFull
    ensures |r.0| <= size
    decreases |xs|
  {
    if xs == [] then (c, true)
    else
      match AfterPush(c, xs[0], size, overrideWhenFull)
      case None => (c, false)
      case Some(c') => PushAll(c', xs[1..], size, overrideWhenFull)
  }

  /** Pushing one more element after a successful run of pushes. */
  lemma {:induction false} PushAllSnoc<T>(c: seq<T>, xs: seq<T>, x: T, size: nat, overrideWhenFull: bool)
    requires |c| <= size
    requires size > 0 || !overrideWhenFull
    requires PushAll(c, xs, size, overrideWhenFull).1
    ensures var mid := PushAll(c, xs, size, overrideWhenFull).0;
            PushAll(c, xs + [x], size, overrideWhenFull) ==
              match AfterPush(mid, x, size, overrideWhenFull)
              case None => (mid, false)
              case Some(c') => (c', true)
    decreases |xs|
  {
    if xs == [] {
      assert [x][1..] == [];
      assert xs + [x] == [x];
    } else {
      assert (xs + [x])[0] == xs[0];
      assert (xs + [x])[1..] == xs[1..] + [x];
      var c' := AfterPush(c, xs[0], size, overrideWhenFull).value;
      PushAllSnoc(c', xs[1..], x, size, overrideWhenFull);
    }
  }

  /** A run of pushes that fits in the free space appends exactly those
      elements; in particular an empty buffer then holds exactly `xs`. */
  lemma {:induction false} PushAllFits<T>(c: seq<T>, xs: seq<T>, size: nat, overrideWhenFull: bool)
    requires |c| + |xs| <= size
    requires size > 0 || !overrideWhenFull
    ensures PushAll(c, xs, size, overrideWhenFull) == (c + xs, true)
    decreases |xs|
  {
    if xs == [] {
      assert c + xs == c;
    } else {
      assert c + xs == (c + [xs[0]]) + xs[1..];
      PushAllFits(c + [xs[0]], xs[1..], size, overrideWhenFull);
    }
  }

  /** The last `n` elements of `s` (all of `s` when it is shorter). */
  function Last<T>(s: seq<T>, n: nat): (r: seq<T>)
    ensures |r| == if |s| < n then |s| else n
    ensures forall i :: 0 <= i < |r| ==> r[i] == s[|s| - |r| + i]
  {
    if |s| <= n then s else s[|s| - n..]
  }

  /** With overriding on, pushes never fail and the buffer keeps the most
      recent `size` elements of everything it was given. */
  lemma {:induction false} PushAllOverride<T>(c: seq<T>, xs: seq<T>, size: nat)
    requires size > 0 && |c| <= size
    ensures PushAll(c, xs, size, true) == (Last(c + xs, size), true)
    decreases |xs|
  {
    if xs == [] {
      assert c + xs == c;
    } else {
      var c' := Last(c + [xs[0]], size);
      PushAllOverrideStep(c, xs, size);
      PushAllOverride(c', xs[1..], size);
      LastAfterFirst(c, xs, size);
    }
  }

  /** With overriding on, the first push of a run leaves the last `size`
      elements of the contents followed by that element. */
  lemma PushAllOverrideStep<T>(c: seq<T>, xs: seq<T>, size: nat)
    requires size > 0 && |c| <= size && xs != []
    ensures PushAll(c, xs, size, true) == PushAll(Last(c + [xs[0]], size), xs[1..], size, true)
  {
    AfterPushOverride(c, xs[0], size);
  }

  /** Keeping the last `size` after the first element, then after the rest,
      keeps the last `size` of the whole. */
  lemma LastAfterFirst<T>(c: seq<T>, xs: seq<T>, size: nat)
    requires xs != []
    ensures Last(Last(c + [xs[0]], size) + xs[1..], size) == Last(c + xs, size)
  {
    FirstSplit(c, xs);
    LastOfLast(c + [xs[0]], xs[1..], size);
  }

  /** Appending `xs` is appending its first element, then the rest. */
  lemma FirstSplit<T>(c: seq<T>, xs: seq<T>)
    requires xs != []
    ensures c + xs == (c + [xs[0]]) + xs[1..]
  {
    assert xs == [xs[0]] + xs[1..];
  }

  /** With overriding on, one push keeps the last `size` elements of the
      contents followed by the new one. */
  lemma AfterPushOverride<T>(c: seq<T>, x: T, size: nat)
    requires size > 0 && |c| <= size
    ensures AfterPush(c, x, size, true) == Some(Last(c + [x], size))
  {
    if |c| == size {
      assert (c + [x])[|c| + 1 - size..] == c[1..] + [x];
    }
  }

  /** Keeping the last `n` twice is keeping the last `n` once. */
  lemma LastOfLast<T>(s: seq<T>, t: seq<T>, n: nat)
    ensures Last(Last(s, n) + t, n) == Last(s + t, n)
  {
    var a := Last(Last(s, n) + t, n);
    var b := Last(s + t, n);
    assert |a| == |b|;
    forall i | 0 <= i < |a|
      ensures a[i] == b[i]
    {
    }
  }

  /** One more push onto a history at least `n` long slides its last-`n`
      window along by one. */
  lemma LastSnoc<T>(s: seq<T>, x: T, n: nat)
    requires 0 < n <= |s|
    ensures Last(s + [x], n) == Last(s, n)[1..] + [x]
  {
    assert Last(s + [x], n) == (s + [x])[|s| + 1 - n..];
    assert Last(s, n) == s[|s| - n..];
  }
}
