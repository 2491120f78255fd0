/** SPCore's `Features`: the extrema scan returned as three maps, with an
    option that drops the inner records (positive minima and negative
    maxima), six accessors over it, and `top_n`, which keeps the greatest
    values seen in one pass. */
module Features {
  import opened Wrappers
  import ExtremaAnalysis

  /** The hash `extrema_hash` returns, one field per key. */
  datatype ExtremaHash = ExtremaHash(minima: map<nat, real>, maxima: map<nat, real>, extrema: map<nat, real>)

  /** `keep_if {|idx, val| val <= 0}` on the minima. */
  function KeepNonPositive(m: map<nat, real>): map<nat, real>
  {
    map k | k in m && m[k] <= 0.0 :: m[k]
  }

  /** `keep_if {|idx, val| val >= 0}` on the maxima. */
  function KeepNonNegative(m: map<nat, real>): map<nat, real>
  {
    map k | k in m && m[k] >= 0.0 :: m[k]
  }

  /** The scan of `Extrema.new`, then, with `removeInner`, the records on
      the wrong side of zero are dropped; `extrema` merges the two maps, the
      maximum winning on a shared key as `Hash#merge` does. */
  method ExtremaHashOf(samples: seq<real>, removeInner: bool := false) returns (r: Result<ExtremaHash>)
    ensures r.Err? <==> |samples| < 2
    ensures r.Err? ==> r.error == TooFewSamples
    ensures r.Ok? && !removeInner ==>
              r.value.minima == ExtremaAnalysis.Minima(samples) && r.value.maxima == ExtremaAnalysis.Maxima(samples)
    ensures r.Ok? && removeInner ==>
              r.value.minima == KeepNonPositive(ExtremaAnalysis.Minima(samples))
              && r.value.maxima == KeepNonNegative(ExtremaAnalysis.Maxima(samples))
    ensures r.Ok? ==> r.value.extrema == r.value.minima + r.value.maxima
  {
    var scan := ExtremaAnalysis.ScanExtrema(samples);
    if scan.Err? {
      return Err(scan.error);
    }
    var minima := scan.value.0;
    var maxima := scan.value.1;
    if removeInner {
      minima := KeepNonPositive(minima);
      maxima := KeepNonNegative(maxima);
    }
    r := Ok(ExtremaHash(minima, maxima, minima + maxima));
  }

  /** `Features.extrema`: every record. */
  method Extrema(samples: seq<real>) returns (r: Result<map<nat, real>>)
    ensures r.Err? <==> |samples| < 2
    ensures r.Ok? ==> r.value == ExtremaAnalysis.Merged(samples)
  {
    var h := ExtremaHashOf(samples, false);
    r := if h.Ok? then Ok(h.value.extrema) else Err(h.error);
  }

  /** `Features.outer_extrema`: minima at or below zero and maxima at or
      above it. */
  method OuterExtrema(samples: seq<real>) returns (r: Result<map<nat, real>>)
    ensures r.Err? <==> |samples| < 2
    ensures r.Ok? ==> r.value == KeepNonPositive(ExtremaAnalysis.Minima(samples))
                                 + KeepNonNegative(ExtremaAnalysis.Maxima(samples))
  {
    var h := ExtremaHashOf(samples, true);
    r := if h.Ok? then Ok(h.value.extrema) else Err(h.error);
  }

  /** `Features.minima`. */
  method Minima(samples: seq<real>) returns (r: Result<map<nat, real>>)
    ensures r.Err? <==> |samples| < 2
    ensures r.Ok? ==> r.value == ExtremaAnalysis.Minima(samples)
  {
    var h := ExtremaHashOf(samples, false);
    r := if h.Ok? then Ok(h.value.minima) else Err(h.error);
  }

  /** `Features.negative_minima`. */
  method NegativeMinima(samples: seq<real>) returns (r: Result<map<nat, real>>)
    ensures r.Err? <==> |samples| < 2
    ensures r.Ok? ==> r.value == KeepNonPositive(ExtremaAnalysis.Minima(samples))
  {
    var h := ExtremaHashOf(samples, true);
    r := if h.Ok? then Ok(h.value.minima) else Err(h.error);
  }

  /** `Features.maxima`. */
  method Maxima(samples: seq<real>) returns (r: Result<map<nat, real>>)
    ensures r.Err? <==> |samples| < 2
    ensures r.Ok? ==> r.value == ExtremaAnalysis.Maxima(samples)
  {
    var h := ExtremaHashOf(samples, false);
    r := if h.Ok? then Ok(h.value.maxima) else Err(h.error);
  }

  /** `Features.positive_maxima`. */
  method PositiveMaxima(samples: seq<real>) returns (r: Result<map<nat, real>>)
    ensures r.Err? <==> |samples| < 2
    ensures r.Ok? ==> r.value == KeepNonNegative(ExtremaAnalysis.Maxima(samples))
  {
    var h := ExtremaHashOf(samples, true);
    r := if h.Ok? then Ok(h.value.maxima) else Err(h.error);
  }

  /** Dropping the inner records keeps exactly the records whose sample lies
      on the named side of zero, at their own index, with their own value. */
  lemma OuterRecords(s: seq<real>)
    requires |s| >= 2
    ensures forall k :: k in KeepNonPositive(ExtremaAnalysis.Minima(s)) <==> k in ExtremaAnalysis.Minima(s) && s[k] <= 0.0
    ensures forall k :: k in KeepNonNegative(ExtremaAnalysis.Maxima(s)) <==> k in ExtremaAnalysis.Maxima(s) && s[k] >= 0.0
    ensures forall k :: k in KeepNonPositive(ExtremaAnalysis.Minima(s)) ==> KeepNonPositive(ExtremaAnalysis.Minima(s))[k] == s[k]
    ensures forall k :: k in KeepNonNegative(ExtremaAnalysis.Maxima(s)) ==> KeepNonNegative(ExtremaAnalysis.Maxima(s))[k] == s[k]
  {
    ExtremaAnalysis.MapsHoldSamples(s);
  }

  /** A signal above zero throughout has no negative minima and keeps all its
      maxima. */
  lemma PositiveSignalOuter(s: seq<real>)
    requires |s| >= 2
    requires forall i :: 0 <= i < |s| ==> s[i] > 0.0
    ensures KeepNonPositive(ExtremaAnalysis.Minima(s)) == map[]
    ensures KeepNonNegative(ExtremaAnalysis.Maxima(s)) == ExtremaAnalysis.Maxima(s)
  {
    ExtremaAnalysis.MapsHoldSamples(s);
  }

  // top_n

  /** Ascending order, the order `Array#sort` leaves numbers in. */
  predicate Ascending(s: seq<real>)
  {
    forall i, j :: 0 <= i < j < |s| ==> s[i] <= s[j]
  }

  /** Places `x` into an ascending sequence. */
  function Insert(x: real, s: seq<real>): (r: seq<real>)
    requires Ascending(s)
    ensures Ascending(r)
    ensures multiset(r) == multiset(s) + multiset{x}
  {
    if |s| == 0 then [x]
    else if x <= s[0] then [x] + s
    else
      var rest := Insert(x, s[1..]);
      InsertBehindHead(s, x, rest);
      [s[0]] + rest
  }

  /** The head of an ascending sequence stays in front of the tail with a
      larger element inserted. */
  lemma InsertBehindHead(s: seq<real>, x: real, rest: seq<real>)
    requires Ascending(s) && |s| > 0 && s[0] < x
    requires Ascending(rest) && multiset(rest) == multiset(s[1..]) + multiset{x}
    ensures Ascending([s[0]] + rest)
    ensures multiset([s[0]] + rest) == multiset(s) + multiset{x}
  {
    assert s == [s[0]] + s[1..];
    forall k | 0 <= k < |rest|
      ensures s[0] <= rest[k]
    {
      assert rest[k] in multiset(rest);
      if rest[k] != x {
        assert rest[k] in s[1..];
      }
    }
  }

  /** `Array#sort` on numbers, as an insertion sort. */
  function Sort(s: seq<real>): (r: seq<real>)
    ensures Ascending(r)
    ensures multiset(r) == multiset(s)
  {
    if |s| == 0 then []
    else
      assert s == s[..|s| - 1] + [s[|s| - 1]];
      Insert(s[|s| - 1], Sort(s[..|s| - 1]))
  }

  /** `top_n.select {|x| x < value}`. */
  function Smaller(kept: seq<real>, v: real): (r: seq<real>)
    ensures forall x :: x in r <==> x in kept && x < v
  {
    if |kept| == 0 then []
    else (if kept[0] < v then [kept[0]] else []) + Smaller(kept[1..], v)
  }

  /** `Array#min` of a non-empty sequence. */
  function MinOf(s: seq<real>): (r: real)
    requires |s| > 0
    ensures r in s
    ensures forall x :: x in s ==> r <= x
  {
    if |s| == 1 then s[0]
    else
      var m := MinOf(s[1..]);
      assert s == [s[0]] + s[1..];
      if s[0] <= m then s[0] else m
  }

  /** `Array#delete`: removes every element equal to `m`. */
  function DeleteAll(kept: seq<real>, m: real): (r: seq<real>)
    ensures forall x :: x in r <==> x in kept && x != m
    ensures m in kept ==> |r| < |kept|
    ensures m !in kept ==> r == kept
    ensures multiset(r) == multiset(kept)[m := 0]
  {
    if |kept| == 0 then []
    else
      assert kept == [kept[0]] + kept[1..];
      (if kept[0] == m then [] else [kept[0]]) + DeleteAll(kept[1..], m)
  }

  /** Removes only the first element equal to `m`. */
  function DeleteFirst(kept: seq<real>, m: real): (r: seq<real>)
    ensures m in kept ==> multiset(r) + multiset{m} == multiset(kept)
    ensures m !in kept ==> r == kept
    ensures forall x :: x in r ==> x in kept
  {
    if |kept| == 0 then []
    else
      assert kept == [kept[0]] + kept[1..];
      if kept[0] == m then kept[1..] else [kept[0]] + DeleteFirst(kept[1..], m)
  }

  /** One iteration of `top_n`'s loop over `kept`. `everyCopy` selects
      `Array#delete`, which removes every copy of the smallest value below
      `v`; otherwise one copy goes. */
  function Step(kept: seq<real>, v: real, n: int, everyCopy: bool): seq<real>
  {
    if |kept| < n then kept + [v]
    else
      var smaller := Smaller(kept, v);
      if |smaller| > 0 then
        (if everyCopy then DeleteAll(kept, MinOf(smaller)) else DeleteFirst(kept, MinOf(smaller))) + [v]
      else kept
  }

  /** What `top_n` holds after the values of `vs`, before the final sort. */
  function Kept(vs: seq<real>, n: int, everyCopy: bool): seq<real>
  {
    if |vs| == 0 then []
    else Step(Kept(vs[..|vs| - 1], n, everyCopy), vs[|vs| - 1], n, everyCopy)
  }

  /** The value one iteration of the one-copy pass lets go, if any: the
      smallest kept value below `v`, or `v` itself when none is below it. */
  function StepDropped(kept: seq<real>, v: real, n: int): seq<real>
  {
    if |kept| < n then []
    else
      var smaller := Smaller(kept, v);
      if |smaller| > 0 then [MinOf(smaller)] else [v]
  }

  /** The values the one-copy pass has let go, in the order it let them go. */
  function Dropped(vs: seq<real>, n: int): seq<real>
  {
    if |vs| == 0 then []
    else Dropped(vs[..|vs| - 1], n) + StepDropped(Kept(vs[..|vs| - 1], n, false), vs[|vs| - 1], n)
  }

  /** Either pass keeps only values it was given, and no more than `n`. */
  lemma {:induction false} KeptFromValues(vs: seq<real>, n: int, everyCopy: bool)
    ensures forall x :: x in Kept(vs, n, everyCopy) ==> x in vs
    ensures |Kept(vs, n, everyCopy)| <= |vs|
    ensures n >= 0 ==> |Kept(vs, n, everyCopy)| <= n
  {
    if |vs| > 0 {
      var p := vs[..|vs| - 1];
      KeptFromValues(p, n, everyCopy);
      StepFromValues(Kept(p, n, everyCopy), vs[|vs| - 1], n, everyCopy);
      assert forall x :: x in p ==> x in vs;
    }
  }

  /** One iteration holds only what it held and the new value, grows by at
      most one, and never grows past `n`. */
  lemma StepFromValues(kept: seq<real>, v: real, n: int, everyCopy: bool)
    ensures forall x :: x in Step(kept, v, n, everyCopy) ==> x in kept || x == v
    ensures |Step(kept, v, n, everyCopy)| <= |kept| + 1
    ensures n >= 0 && |kept| <= n ==> |Step(kept, v, n, everyCopy)| <= n
  {
    if |kept| >= n {
      var smaller := Smaller(kept, v);
      if |smaller| > 0 {
        var m := MinOf(smaller);
        assert m in kept;
        if !everyCopy {
          assert |DeleteFirst(kept, m)| == |kept| - 1 by {
            assert |multiset(DeleteFirst(kept, m))| + 1 == |multiset(kept)|;
          }
        }
      }
    }
  }

  /** One iteration of the one-copy pass neither loses nor invents a value. */
  lemma StepSplit(kept: seq<real>, v: real, n: int)
    ensures multiset(Step(kept, v, n, false)) + multiset(StepDropped(kept, v, n)) == multiset(kept) + multiset{v}
  {
    if |kept| >= n {
      var smaller := Smaller(kept, v);
      if |smaller| > 0 {
        assert MinOf(smaller) in kept;
      }
    }
  }

  /** One iteration keeps every dropped value at most every kept one. */
  lemma StepDominates(kept: seq<real>, dropped: seq<real>, v: real, n: int)
    requires forall x, y :: x in dropped && y in kept ==> x <= y
    requires |kept| < n ==> |dropped| == 0
    ensures forall x, y :: x in dropped + StepDropped(kept, v, n) && y in Step(kept, v, n, false) ==> x <= y
  {
    if |kept| >= n {
      var smaller := Smaller(kept, v);
      if |smaller| > 0 {
        var m := MinOf(smaller);
        var rest := DeleteFirst(kept, m);
        assert m in kept && m < v;
        forall x, y | x in dropped + [m] && y in rest + [v]
          ensures x <= y
        {
          if y in rest {
            assert y in kept;
            if y < v {
              assert y in smaller;
            }
          }
        }
      }
    }
  }

  /** The one-copy pass neither loses nor invents a value. */
  lemma {:induction false} KeptSplit(vs: seq<real>, n: int)
    ensures multiset(Kept(vs, n, false)) + multiset(Dropped(vs, n)) == multiset(vs)
  {
    if |vs| > 0 {
      var p := vs[..|vs| - 1];
      assert vs == p + [vs[|vs| - 1]];
      KeptSplit(p, n);
      StepSplit(Kept(p, n, false), vs[|vs| - 1], n);
    }
  }

  /** The one-copy pass keeps `min(n, |vs|)` values. */
  lemma {:induction false} KeptSize(vs: seq<real>, n: int)
    requires n >= 0
    ensures |Kept(vs, n, false)| == if n < |vs| then n else |vs|
  {
    if |vs| > 0 {
      var p := vs[..|vs| - 1];
      KeptSize(p, n);
      var kept := Kept(p, n, false);
      if |kept| >= n {
        var smaller := Smaller(kept, vs[|vs| - 1]);
        if |smaller| > 0 {
          var m := MinOf(smaller);
          assert m in kept;
          assert |multiset(DeleteFirst(kept, m))| + 1 == |multiset(kept)|;
        }
      }
    }
  }

  /** Every value the one-copy pass drops is at most every value it keeps. */
  lemma {:induction false} KeptGreatest(vs: seq<real>, n: int)
    requires n >= 0
    ensures forall x, y :: x in Dropped(vs, n) && y in Kept(vs, n, false) ==> x <= y
  {
    if |vs| > 0 {
      var p := vs[..|vs| - 1];
      KeptGreatest(p, n);
      KeptSize(p, n);
      KeptSplit(p, n);
      assert |Kept(p, n, false)| + |Dropped(p, n)| == |p| by {
        assert |multiset(Kept(p, n, false)) + multiset(Dropped(p, n))| == |multiset(p)|;
      }
      StepDominates(Kept(p, n, false), Dropped(p, n), vs[|vs| - 1], n);
    }
  }

  /** Elements that occur once each. */
  predicate Distinct(s: seq<real>)
  {
    forall i, j :: 0 <= i < j < |s| ==> s[i] != s[j]
  }

  /** In a sequence without repeats the two deletions agree. */
  lemma {:induction false} DeleteOnce(kept: seq<real>, m: real)
    requires Distinct(kept)
    ensures DeleteAll(kept, m) == DeleteFirst(kept, m)
  {
    if |kept| > 0 {
      assert kept == [kept[0]] + kept[1..];
      assert Distinct(kept[1..]);
      if kept[0] == m {
        assert m !in kept[1..];
      } else {
        DeleteOnce(kept[1..], m);
      }
    }
  }

  /** Removing one element keeps a sequence free of repeats. */
  lemma {:induction false} DeleteFirstDistinct(kept: seq<real>, m: real)
    requires Distinct(kept)
    ensures Distinct(DeleteFirst(kept, m))
  {
    if |kept| > 0 {
      assert kept == [kept[0]] + kept[1..];
      assert Distinct(kept[1..]);
      if kept[0] != m {
        DeleteFirstDistinct(kept[1..], m);
        var r := DeleteFirst(kept[1..], m);
        assert kept[0] !in r;
      }
    }
  }

  /** On values without repeats `Array#delete` removes one copy only, so
      `top_n` as written keeps what the one-copy pass keeps. */
  lemma {:induction false} DistinctValuesAgree(vs: seq<real>, n: int)
    requires Distinct(vs)
    ensures Kept(vs, n, true) == Kept(vs, n, false)
    ensures Distinct(Kept(vs, n, false))
  {
    if |vs| > 0 {
      var p := vs[..|vs| - 1];
      var v := vs[|vs| - 1];
      assert Distinct(p);
      DistinctValuesAgree(p, n);
      KeptFromValues(p, n, false);
      var kept := Kept(p, n, false);
      assert v !in kept by {
        assert v !in p;
      }
      StepDistinct(kept, v, n);
    }
  }

  /** Without repeats, and with a new value not yet held, both kinds of
      iteration agree and leave no repeats. */
  lemma StepDistinct(kept: seq<real>, v: real, n: int)
    requires Distinct(kept) && v !in kept
    ensures Step(kept, v, n, true) == Step(kept, v, n, false)
    ensures Distinct(Step(kept, v, n, false))
  {
    if |kept| < n {
      DistinctSnoc(kept, v);
    } else {
      var smaller := Smaller(kept, v);
      if |smaller| > 0 {
        var m := MinOf(smaller);
        DeleteOnce(kept, m);
        DeleteFirstDistinct(kept, m);
        assert v !in DeleteFirst(kept, m);
        DistinctSnoc(DeleteFirst(kept, m), v);
      }
    }
  }

  /** Appending a value not yet held keeps a sequence free of repeats. */
  lemma DistinctSnoc(s: seq<real>, v: real)
    requires Distinct(s) && v !in s
    ensures Distinct(s + [v])
  {
  }

  /** `top_n` as written: one pass, then `sort`. */
  method TopN(values: seq<real>, n: int) returns (r: seq<real>)
    ensures r == Sort(Kept(values, n, true))
    ensures Ascending(r)
    ensures forall x :: x in r ==> x in values
    ensures n >= 0 ==> |r| <= n
  {
    var topN: seq<real> := [];
    for i := 0 to |values|
      invariant topN == Kept(values[..i], n, true)
    {
      assert values[..i + 1][..i] == values[..i];
      var value := values[i];
      if |topN| < n {
        topN := topN + [value];
      } else {
        var smaller := Smaller(topN, value);
        if |smaller| > 0 {
          topN := DeleteAll(topN, MinOf(smaller));
          topN := topN + [value];
        }
      }
    }
    assert values[..|values|] == values;
    KeptFromValues(values, n, true);
    r := Sort(topN);
    assert forall x :: x in r ==> x in multiset(topN);
  }

  /** Taking away what was added gives back the rest. */
  lemma MultisetCancel(a: multiset<real>, b: multiset<real>)
    ensures (a + b) - a == b
    ensures a <= a + b
  {
  }

  /** What the one-copy pass returns after its sort: the values it keeps,
      ascending, `min(n, |vs|)` of them, none below a value it drops. */
  lemma TopNCorrectedGreatest(vs: seq<real>, n: int)
    requires n >= 0
    ensures multiset(Sort(Kept(vs, n, false))) <= multiset(vs)
    ensures |Sort(Kept(vs, n, false))| == if n < |vs| then n else |vs|
    ensures forall x, y :: x in multiset(vs) - multiset(Sort(Kept(vs, n, false))) && y in Sort(Kept(vs, n, false)) ==> x <= y
  {
    var kept := Kept(vs, n, false);
    var dropped := Dropped(vs, n);
    var r := Sort(kept);
    KeptSplit(vs, n);
    KeptSize(vs, n);
    KeptGreatest(vs, n);
    MultisetCancel(multiset(kept), multiset(dropped));
    assert |multiset(r)| == |multiset(kept)|;
    forall x, y | x in multiset(vs) - multiset(r) && y in r
      ensures x <= y
    {
      assert x in multiset(dropped);
      assert y in multiset(kept);
      assert x in dropped && y in kept;
    }
  }

  /** `top_n` with one copy of the smallest kept value dropped per
      replacement: the `min(n, |values|)` greatest values, ascending. */
  method TopNCorrected(values: seq<real>, n: int) returns (r: seq<real>)
    requires n >= 0
    ensures r == Sort(Kept(values, n, false))
    ensures Ascending(r)
    ensures multiset(r) <= multiset(values)
    ensures |r| == if n < |values| then n else |values|
    ensures forall x, y :: x in multiset(values) - multiset(r) && y in r ==> x <= y
  {
    var topN: seq<real> := [];
    for i := 0 to |values|
      invariant topN == Kept(values[..i], n, false)
    {
      assert values[..i + 1][..i] == values[..i];
      var value := values[i];
      if |topN| < n {
        topN := topN + [value];
      } else {
        var smaller := Smaller(topN, value);
        if |smaller| > 0 {
          topN := DeleteFirst(topN, MinOf(smaller));
          topN := topN + [value];
        }
      }
    }
    assert values[..|values|] == values;
    r := Sort(topN);
    TopNCorrectedGreatest(values, n);
  }

  /** On values without repeats `top_n` as written returns the
      `min(n, |vs|)` greatest values, ascending. */
  lemma TopNDistinctGreatest(vs: seq<real>, n: int)
    requires n >= 0
    requires Distinct(vs)
    ensures |Sort(Kept(vs, n, true))| == if n < |vs| then n else |vs|
    ensures multiset(Sort(Kept(vs, n, true))) <= multiset(vs)
    ensures forall x, y :: x in multiset(vs) - multiset(Sort(Kept(vs, n, true))) && y in Sort(Kept(vs, n, true)) ==> x <= y
  {
    DistinctValuesAgree(vs, n);
    TopNCorrectedGreatest(vs, n);
  }

  /** With a repeated value `top_n` as written loses both copies: from
      `[1, 1, 2]` it keeps `[2]` where the two greatest are `[1, 2]`. */
  lemma DuplicateCounterexample()
    ensures Sort(Kept([1.0, 1.0, 2.0], 2, true)) == [2.0]
    ensures Sort(Kept([1.0, 1.0, 2.0], 2, false)) == [1.0, 2.0]
  {
    KeptGrowing([1.0, 1.0], 2, true);
    KeptGrowing([1.0, 1.0], 2, false);
    var vs := [1.0, 1.0, 2.0];
    assert vs[..2] == [1.0, 1.0];
    assert Smaller([1.0, 1.0], 2.0) == [1.0, 1.0];
    assert DeleteAll([1.0, 1.0], 1.0) == [];
    assert DeleteFirst([1.0, 1.0], 1.0) == [1.0];
    assert Kept(vs, 2, true) == [2.0];
    assert Kept(vs, 2, false) == [1.0, 2.0];
    assert Sort([1.0, 2.0]) == Insert(2.0, Sort([1.0]));
  }

  /** The pass over `vs + [v]` is the pass over `vs` and one more step. */
  lemma KeptSnoc(vs: seq<real>, v: real, n: int, everyCopy: bool)
    ensures Kept(vs + [v], n, everyCopy) == Step(Kept(vs, n, everyCopy), v, n, everyCopy)
  {
    assert (vs + [v])[..|vs|] == vs;
  }

  /** Until `n` values are held every value is appended. */
  lemma {:induction false} KeptGrowing(vs: seq<real>, n: int, everyCopy: bool)
    requires |vs| <= n
    ensures Kept(vs, n, everyCopy) == vs
  {
    if |vs| > 0 {
      KeptGrowing(vs[..|vs| - 1], n, everyCopy);
      assert vs == vs[..|vs| - 1] + [vs[|vs| - 1]];
    }
  }

  /** No value below `v` is held: the step changes nothing. */
  lemma NoneSmaller(kept: seq<real>, v: real, n: int, everyCopy: bool)
    requires n <= |kept|
    requires forall i :: 0 <= i < |kept| ==> kept[i] >= v
    ensures Step(kept, v, n, everyCopy) == kept
  {
    var smaller := Smaller(kept, v);
    if |smaller| > 0 {
      assert smaller[0] in smaller;
    }
  }

  /** An insertion past every held value appends. */
  lemma {:induction false} InsertLast(x: real, s: seq<real>)
    requires Ascending(s)
    requires forall i :: 0 <= i < |s| ==> s[i] <= x
    ensures Insert(x, s) == s + [x]
  {
    if |s| > 0 && s[0] < x {
      InsertPastHead(x, s);
      InsertLast(x, s[1..]);
    } else if |s| > 0 {
      InsertAmongEqual(x, s);
    }
  }

  /** Inserting past the head of an ascending sequence whose elements are
      all at most `x` keeps the head and inserts into the tail. */
  lemma InsertPastHead(x: real, s: seq<real>)
    requires Ascending(s) && |s| > 0 && s[0] < x
    requires forall i :: 0 <= i < |s| ==> s[i] <= x
    ensures Ascending(s[1..]) && forall i :: 0 <= i < |s[1..]| ==> s[1..][i] <= x
    ensures Insert(x, s) == [s[0]] + Insert(x, s[1..])
    ensures s + [x] == [s[0]] + (s[1..] + [x])
  {
    assert s == [s[0]] + s[1..];
  }

  /** Inserting `x` in front of an ascending sequence whose elements are all
      at most `x`, starting with `x`, is appending it. */
  lemma InsertAmongEqual(x: real, s: seq<real>)
    requires Ascending(s) && |s| > 0 && x <= s[0]
    requires forall i :: 0 <= i < |s| ==> s[i] <= x
    ensures Insert(x, s) == s + [x]
  {
    assert forall i :: 0 <= i < |s| ==> s[i] == x;
    assert [x] + s == s + [x];
  }

  /** Sorting an ascending sequence leaves it as it is. */
  lemma {:induction false} SortAscending(s: seq<real>)
    requires Ascending(s)
    ensures Sort(s) == s
  {
    if |s| > 0 {
      var p := s[..|s| - 1];
      SortLastStep(s);
      SortAscending(p);
      InsertLast(s[|s| - 1], p);
    }
  }

  /** Sorting a non-empty ascending sequence inserts its last element into
      its sorted front, whose elements are all at most that last one. */
  lemma SortLastStep(s: seq<real>)
    requires Ascending(s) && |s| > 0
    ensures var p := s[..|s| - 1];
            Ascending(p) && (forall i :: 0 <= i < |p| ==> p[i] <= s[|s| - 1])
            && s == p + [s[|s| - 1]] && Sort(s) == Insert(s[|s| - 1], Sort(p))
  {
  }

  /** One value held with `n = 1`: a greater one replaces it, a smaller one
      changes nothing. */
  lemma GreatestOfThree(a: real, b: real, c: real)
    requires a < c < b
    ensures Sort(Kept([a, b, c], 1, true)) == [b]
  {
    KeptGrowing([a], 1, true);
    KeptSnoc([a], b, 1, true);
    assert [a][1..] == [];
    assert Smaller([a], b) == [a];
    assert DeleteAll([a], a) == [];
    assert [a] + [b] == [a, b];
    KeptSnoc([a, b], c, 1, true);
    NoneSmaller([b], c, 1, true);
    assert [a, b] + [c] == [a, b, c];
    assert Sort([b]) == [b];
  }

  /** The third documented case: the greatest of three values, two of them
      negative. */
  lemma TopNExampleSingle()
    ensures Sort(Kept([-11.0, 21.0, -4.0], 1, true)) == [21.0]
  {
    GreatestOfThree(-11.0, 21.0, -4.0);
  }
}
