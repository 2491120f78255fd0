/** SPCore's extrema scan. One pass records the step between neighbouring
    samples and the first index of the global minimum and maximum; a second
    pass follows the sign of those steps with an `is_positive` flag and
    records a local maximum where a rise ends and a local minimum where a
    fall ends. Both maps send an index to the sample there. */
module ExtremaAnalysis {
  import opened Wrappers

  /** The scan's `diffs[i]`: the step from sample `i` to sample `i + 1`. */
  function Diff(s: seq<real>, i: nat): real
    requires i + 1 < |s|
  {
    s[i + 1] - s[i]
  }

  /** The index the global-minimum scan over the first `n` samples settles
      on: a smallest sample, the earliest one on a tie (the test is `<`). */
  function FirstMinIndex(s: seq<real>, n: nat): (i: nat)
    requires 1 <= n <= |s|
    ensures i < n
  {
    if n == 1 then 0
    else
      var p := FirstMinIndex(s, n - 1);
      if s[n - 1] < s[p] then n - 1 else p
  }

  /** The scan's minimum is a smallest sample and no earlier sample ties it. */
  lemma {:induction false} FirstMinIndexLeast(s: seq<real>, n: nat)
    requires 1 <= n <= |s|
    ensures var i := FirstMinIndex(s, n);
            (forall j :: 0 <= j < n ==> s[i] <= s[j]) && (forall j :: 0 <= j < i ==> s[j] > s[i])
  {
    if n > 1 {
      FirstMinIndexLeast(s, n - 1);
    }
  }

  /** The same for the global maximum (the test is `>`). */
  function FirstMaxIndex(s: seq<real>, n: nat): (i: nat)
    requires 1 <= n <= |s|
    ensures i < n
  {
    if n == 1 then 0
    else
      var p := FirstMaxIndex(s, n - 1);
      if s[n - 1] > s[p] then n - 1 else p
  }

  /** The scan's maximum is a largest sample and no earlier sample ties it. */
  lemma {:induction false} FirstMaxIndexGreatest(s: seq<real>, n: nat)
    requires 1 <= n <= |s|
    ensures var i := FirstMaxIndex(s, n);
            (forall j :: 0 <= j < n ==> s[i] >= s[j]) && (forall j :: 0 <= j < i ==> s[j] < s[i])
  {
    if n > 1 {
      FirstMaxIndexGreatest(s, n - 1);
    }
  }

  /** A rising step followed by one that does not rise: where the scan
      records a local maximum. */
  predicate PeakAt(s: seq<real>, i: nat)
  {
    1 <= i && i + 1 < |s| && Diff(s, i - 1) > 0.0 && Diff(s, i) <= 0.0
  }

  /** A step that does not rise followed by a rising one: where the scan
      records a local minimum. */
  predicate ValleyAt(s: seq<real>, i: nat)
  {
    1 <= i && i + 1 < |s| && Diff(s, i - 1) <= 0.0 && Diff(s, i) > 0.0
  }

  /** The minima the scan reports: the global minimum and every valley. */
  function Minima(s: seq<real>): (m: map<nat, real>)
    requires |s| >= 2
  {
    map k: nat | k < |s| && (k == FirstMinIndex(s, |s|) || ValleyAt(s, k)) :: s[k]
  }

  /** The maxima the scan reports: the global maximum and every peak. */
  function Maxima(s: seq<real>): (m: map<nat, real>)
    requires |s| >= 2
  {
    map k: nat | k < |s| && (k == FirstMaxIndex(s, |s|) || PeakAt(s, k)) :: s[k]
  }

  /** Every recorded value is the sample at its key; local records lie
      strictly inside the signal; the global minimum comes first among equal
      smallest samples, and likewise the global maximum. */
  lemma MapsHoldSamples(s: seq<real>)
    requires |s| >= 2
    ensures forall k :: k in Minima(s) ==> k < |s| && Minima(s)[k] == s[k]
    ensures forall k :: k in Maxima(s) ==> k < |s| && Maxima(s)[k] == s[k]
    ensures forall k :: k in Minima(s) && k != FirstMinIndex(s, |s|) ==> 1 <= k <= |s| - 2
    ensures forall k :: k in Maxima(s) && k != FirstMaxIndex(s, |s|) ==> 1 <= k <= |s| - 2
    ensures var g := FirstMinIndex(s, |s|); g in Minima(s) && forall j :: 0 <= j < |s| ==> s[g] <= s[j]
    ensures var g := FirstMaxIndex(s, |s|); g in Maxima(s) && forall j :: 0 <= j < |s| ==> s[g] >= s[j]
  {
    FirstMinIndexLeast(s, |s|);
    FirstMaxIndexGreatest(s, |s|);
  }

  /** A local record of the kind a map collects: a valley for the minima,
      a peak for the maxima. */
  predicate LocalAt(s: seq<real>, k: nat, lows: bool)
  {
    if lows then ValleyAt(s, k) else PeakAt(s, k)
  }

  /** A map as the second pass has built it before index `n`: the global
      record `g` and the local records to its left of `n`. */
  function RecordsUpTo(s: seq<real>, g: nat, n: nat, lows: bool): (m: map<nat, real>)
  {
    map k: nat | k < |s| && (k == g || (k < n && LocalAt(s, k, lows))) :: s[k]
  }

  /** One more step of the second pass adds at most the record at `n`. */
  lemma RecordsStep(s: seq<real>, g: nat, n: nat, lows: bool)
    requires n < |s|
    ensures LocalAt(s, n, lows) ==> RecordsUpTo(s, g, n + 1, lows) == RecordsUpTo(s, g, n, lows)[n := s[n]]
    ensures !LocalAt(s, n, lows) ==> RecordsUpTo(s, g, n + 1, lows) == RecordsUpTo(s, g, n, lows)
  {
  }

  /** The pass stops one short of the end, where no local record can be. */
  lemma RecordsComplete(s: seq<real>)
    requires |s| >= 2
    ensures Minima(s) == RecordsUpTo(s, FirstMinIndex(s, |s|), |s| - 1, true)
    ensures Maxima(s) == RecordsUpTo(s, FirstMaxIndex(s, |s|), |s| - 1, false)
  {
  }

  /** `minima.merge(maxima)`: both maps, a maximum winning a shared key. */
  function Merged(s: seq<real>): (m: map<nat, real>)
    requires |s| >= 2
  {
    Minima(s) + Maxima(s)
  }

  /** The merged map holds every recorded index, each with its sample. */
  lemma MergedHoldsBoth(s: seq<real>)
    requires |s| >= 2
    ensures Merged(s).Keys == Minima(s).Keys + Maxima(s).Keys
    ensures forall k :: k in Maxima(s) ==> Merged(s)[k] == Maxima(s)[k]
    ensures forall k :: k in Merged(s) ==> Merged(s)[k] == s[k]
  {
  }

  /** A fall that is later followed by a rise contains the end of a fall:
      a valley somewhere after the fall, at or before the rise. */
  lemma {:induction false} ValleyBetween(s: seq<real>, a: nat, b: nat)
    requires a < b && b + 1 < |s|
    requires Diff(s, a) <= 0.0 && Diff(s, b) > 0.0
    ensures exists k :: a < k <= b && ValleyAt(s, k)
    decreases b - a
  {
    if Diff(s, b - 1) <= 0.0 {
      assert ValleyAt(s, b);
    } else {
      ValleyBetween(s, a, b - 1);
    }
  }

  /** A rise that is later followed by a fall contains a peak. */
  lemma {:induction false} PeakBetween(s: seq<real>, a: nat, b: nat)
    requires a < b && b + 1 < |s|
    requires Diff(s, a) > 0.0 && Diff(s, b) <= 0.0
    ensures exists k :: a < k <= b && PeakAt(s, k)
    decreases b - a
  {
    if Diff(s, b - 1) > 0.0 {
      assert PeakAt(s, b);
    } else {
      PeakBetween(s, a, b - 1);
    }
  }

  /** Local records alternate: between two local maxima there is a local
      minimum, and between two local minima a local maximum. */
  lemma LocalRecordsAlternate(s: seq<real>, i: nat, j: nat)
    requires i < j
    ensures PeakAt(s, i) && PeakAt(s, j) ==> exists k :: i < k < j && ValleyAt(s, k)
    ensures ValleyAt(s, i) && ValleyAt(s, j) ==> exists k :: i < k < j && PeakAt(s, k)
  {
    if PeakAt(s, i) && PeakAt(s, j) {
      ValleyBetween(s, i, j - 1);
    }
    if ValleyAt(s, i) && ValleyAt(s, j) {
      PeakBetween(s, i, j - 1);
    }
  }

  /** The first pass: the steps between neighbouring samples and the first
      indices of the global minimum and maximum. */
  method ScanSteps(samples: seq<real>) returns (diffs: seq<real>, globalMinIdx: nat, globalMaxIdx: nat)
    requires |samples| >= 1
    ensures |diffs| == |samples| - 1
    ensures forall k :: 0 <= k < |diffs| ==> diffs[k] == Diff(samples, k)
    ensures globalMinIdx == FirstMinIndex(samples, |samples|)
    ensures globalMaxIdx == FirstMaxIndex(samples, |samples|)
  {
    globalMinIdx, globalMaxIdx := 0, 0;
    var globalMinVal := samples[0];
    var globalMaxVal := samples[0];
    diffs := [];
    for i := 1 to |samples|
      invariant |diffs| == i - 1
      invariant forall k :: 0 <= k < i - 1 ==> diffs[k] == Diff(samples, k)
      invariant globalMinIdx == FirstMinIndex(samples, i) && globalMinVal == samples[globalMinIdx]
      invariant globalMaxIdx == FirstMaxIndex(samples, i) && globalMaxVal == samples[globalMaxIdx]
    {
      diffs := diffs + [samples[i] - samples[i - 1]];
      if samples[i] < globalMinVal {
        globalMinIdx := i;
        globalMinVal := samples[i];
      }
      if samples[i] > globalMaxVal {
        globalMaxIdx := i;
        globalMaxVal := samples[i];
      }
    }
  }

  /** The scan shared by `Extrema.new` and `Features.extrema_hash`. Fewer
      than two samples leave `diffs` empty, and `diffs.first > 0.0` then
      fails on nil. */
  method ScanExtrema(samples: seq<real>) returns (r: Result<(map<nat, real>, map<nat, real>)>)
    ensures r.Err? <==> |samples| < 2
    ensures r.Err? ==> r.error == TooFewSamples
    ensures r.Ok? ==> r.value.0 == Minima(samples) && r.value.1 == Maxima(samples)
  {
    if |samples| < 2 {
      return Err(TooFewSamples);
    }
    var diffs, globalMinIdx, globalMaxIdx := ScanSteps(samples);
    var minima: map<nat, real> := map[globalMinIdx := samples[globalMinIdx]];
    var maxima: map<nat, real> := map[globalMaxIdx := samples[globalMaxIdx]];
    assert minima == RecordsUpTo(samples, globalMinIdx, 1, true);
    assert maxima == RecordsUpTo(samples, globalMaxIdx, 1, false);

    var isPositive := diffs[0] > 0.0;
    for i := 1 to |diffs|
      invariant isPositive <==> diffs[i - 1] > 0.0
      invariant minima == RecordsUpTo(samples, globalMinIdx, i, true)
      invariant maxima == RecordsUpTo(samples, globalMaxIdx, i, false)
    {
      assert diffs[i - 1] == Diff(samples, i - 1) && diffs[i] == Diff(samples, i);
      ghost var lowAt, highAt := ValleyAt(samples, i), PeakAt(samples, i);
      assert lowAt <==> !isPositive && diffs[i] > 0.0;
      assert highAt <==> isPositive && diffs[i] <= 0.0;
      RecordsStep(samples, globalMinIdx, i, true);
      RecordsStep(samples, globalMaxIdx, i, false);
      if isPositive {
        if diffs[i] <= 0.0 {
          maxima := maxima[i := samples[i]];
          isPositive := false;
        }
      } else {
        if diffs[i] > 0.0 {
          minima := minima[i := samples[i]];
          isPositive := true;
        }
      }
    }
    RecordsComplete(samples);
    r := Ok((minima, maxima));
  }

  /** `Extrema`: the scan's maps, kept for reading. */
  class Extrema {
    const minima: map<nat, real>
    const maxima: map<nat, real>
    const extrema: map<nat, real>

    constructor (minima: map<nat, real>, maxima: map<nat, real>)
      ensures this.minima == minima && this.maxima == maxima && extrema == minima + maxima
    {
      this.minima := minima;
      this.maxima := maxima;
      extrema := minima + maxima;
    }

    /** `Extrema.new(samples)`: fails on fewer than two samples. */
    static method New(samples: seq<real>) returns (r: Result<Extrema>)
      ensures r.Err? <==> |samples| < 2
      ensures r.Err? ==> r.error == TooFewSamples
      ensures r.Ok? ==> fresh(r.value)
      ensures r.Ok? ==> r.value.minima == Minima(samples) && r.value.maxima == Maxima(samples)
      ensures r.Ok? ==> r.value.extrema == Merged(samples)
    {
      var scan := ScanExtrema(samples);
      if scan.Err? {
        return Err(scan.error);
      }
      var e := new Extrema(scan.value.0, scan.value.1);
      r := Ok(e);
    }
  }

  /** A sample strictly below every other one is the global minimum. */
  lemma StrictMinimum(s: seq<real>, i: nat)
    requires i < |s|
    requires forall j :: 0 <= j < |s| && j != i ==> s[i] < s[j]
    ensures FirstMinIndex(s, |s|) == i
  {
    var g := FirstMinIndex(s, |s|);
    FirstMinIndexLeast(s, |s|);
    if g != i {
      assert false;
    }
  }

  /** A sample strictly above every other one is the global maximum. */
  lemma StrictMaximum(s: seq<real>, i: nat)
    requires i < |s|
    requires forall j :: 0 <= j < |s| && j != i ==> s[i] > s[j]
    ensures FirstMaxIndex(s, |s|) == i
  {
    var g := FirstMaxIndex(s, |s|);
    FirstMaxIndexGreatest(s, |s|);
    if g != i {
      assert false;
    }
  }

  /** Two maps with the same keys and the same values are equal. */
  lemma SameMap(m: map<nat, real>, n: map<nat, real>)
    requires forall k :: k in m <==> k in n
    requires forall k :: k in m ==> m[k] == n[k]
    ensures m == n
  {
  }

  /** The recorded indices of the first documented signal. */
  lemma RecordsFalling(s: seq<real>)
    requires s == [3.8, 3.0, 2.9, 2.95, 3.6, 3.4, 2.8, 2.3, 2.1, 2.0, 2.5]
    ensures FirstMinIndex(s, |s|) == 9 && FirstMaxIndex(s, |s|) == 0
    ensures forall k: nat :: k < |s| ==> (ValleyAt(s, k) <==> k == 2 || k == 9) && (PeakAt(s, k) <==> k == 4)
  {
    forall k: nat | k < |s|
      ensures (k != 9 ==> s[9] < s[k]) && (k != 0 ==> s[0] > s[k])
      ensures (ValleyAt(s, k) <==> k == 2 || k == 9) && (PeakAt(s, k) <==> k == 4)
    {
      if k == 0 {} else if k == 1 {} else if k == 2 {} else if k == 3 {} else if k == 4 {}
      else if k == 5 {} else if k == 6 {} else if k == 7 {} else if k == 8 {} else if k == 9 {}
    }
    StrictMinimum(s, 9);
    StrictMaximum(s, 0);
  }

  /** The recorded maps of the first signal, key by key. */
  lemma FallingKeys(s: seq<real>)
    requires s == [3.8, 3.0, 2.9, 2.95, 3.6, 3.4, 2.8, 2.3, 2.1, 2.0, 2.5]
    ensures forall k :: k in Minima(s) <==> k == 2 || k == 9
    ensures forall k :: k in Maxima(s) <==> k == 0 || k == 4
  {
    RecordsFalling(s);
  }

  /** The first documented signal: a fall, a rise to 3.6, a fall to 2.0 and
      a last rise. The global minimum at 9 is also a local one. */
  lemma ExtremaExampleFalling(s: seq<real>)
    requires s == [3.8, 3.0, 2.9, 2.95, 3.6, 3.4, 2.8, 2.3, 2.1, 2.0, 2.5]
    ensures Minima(s) == map[2 := 2.9, 9 := 2.0]
    ensures Maxima(s) == map[0 := 3.8, 4 := 3.6]
  {
    FallingKeys(s);
    SameMap(Minima(s), map[2 := 2.9, 9 := 2.0]);
    SameMap(Maxima(s), map[0 := 3.8, 4 := 3.6]);
  }

  /** The recorded indices of the second documented signal. */
  lemma RecordsZigzag(s: seq<real>)
    requires s == [3.2, 3.5, 2.9, 2.7, 2.8, 2.7, 2.5, 2.2, 2.4, 2.3, 2.0]
    ensures FirstMinIndex(s, |s|) == 10 && FirstMaxIndex(s, |s|) == 1
    ensures forall k: nat :: k < |s| ==>
              (ValleyAt(s, k) <==> k == 3 || k == 7) && (PeakAt(s, k) <==> k == 1 || k == 4 || k == 8)
  {
    forall k: nat | k < |s|
      ensures (k != 10 ==> s[10] < s[k]) && (k != 1 ==> s[1] > s[k])
      ensures (ValleyAt(s, k) <==> k == 3 || k == 7) && (PeakAt(s, k) <==> k == 1 || k == 4 || k == 8)
    {
      if k == 0 {} else if k == 1 {} else if k == 2 {} else if k == 3 {} else if k == 4 {}
      else if k == 5 {} else if k == 6 {} else if k == 7 {} else if k == 8 {} else if k == 9 {}
    }
    StrictMinimum(s, 10);
    StrictMaximum(s, 1);
  }

  /** The recorded maps of the second signal, key by key. */
  lemma ZigzagKeys(s: seq<real>)
    requires s == [3.2, 3.5, 2.9, 2.7, 2.8, 2.7, 2.5, 2.2, 2.4, 2.3, 2.0]
    ensures forall k :: k in Minima(s) <==> k == 3 || k == 7 || k == 10
    ensures forall k :: k in Maxima(s) <==> k == 1 || k == 4 || k == 8
  {
    RecordsZigzag(s);
  }

  /** The second documented signal, with three local maxima and two local
      minima besides the global one at the end. */
  lemma ExtremaExampleZigzag(s: seq<real>)
    requires s == [3.2, 3.5, 2.9, 2.7, 2.8, 2.7, 2.5, 2.2, 2.4, 2.3, 2.0]
    ensures Minima(s) == map[3 := 2.7, 7 := 2.2, 10 := 2.0]
    ensures Maxima(s) == map[1 := 3.5, 4 := 2.8, 8 := 2.4]
  {
    ZigzagKeys(s);
    SameMap(Minima(s), map[3 := 2.7, 7 := 2.2, 10 := 2.0]);
    SameMap(Maxima(s), map[1 := 3.5, 4 := 2.8, 8 := 2.4]);
  }

  /** The `extrema` map the tests give for the first documented signal. */
  lemma MergedExampleFalling(s: seq<real>)
    requires s == [3.8, 3.0, 2.9, 2.95, 3.6, 3.4, 2.8, 2.3, 2.1, 2.0, 2.5]
    ensures Merged(s) == map[0 := 3.8, 2 := 2.9, 4 := 3.6, 9 := 2.0]
  {
    var lows, highs := map[2 := 2.9, 9 := 2.0], map[0 := 3.8, 4 := 3.6];
    ExtremaExampleFalling(s);
    assert Merged(s) == lows + highs;
    SameMap(lows + highs, map[0 := 3.8, 2 := 2.9, 4 := 3.6, 9 := 2.0]);
  }

  /** The `extrema` map the tests give for the second documented signal. */
  lemma MergedExampleZigzag(s: seq<real>)
    requires s == [3.2, 3.5, 2.9, 2.7, 2.8, 2.7, 2.5, 2.2, 2.4, 2.3, 2.0]
    ensures Merged(s) == map[1 := 3.5, 3 := 2.7, 4 := 2.8, 7 := 2.2, 8 := 2.4, 10 := 2.0]
  {
    var lows, highs := map[3 := 2.7, 7 := 2.2, 10 := 2.0], map[1 := 3.5, 4 := 2.8, 8 := 2.4];
    ExtremaExampleZigzag(s);
    assert Merged(s) == lows + highs;
    SameMap(lows + highs, map[1 := 3.5, 3 := 2.7, 4 := 2.8, 7 := 2.2, 8 := 2.4, 10 := 2.0]);
  }
}
