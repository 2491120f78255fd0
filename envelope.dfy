/** SPCore's `Envelope`: the envelope of a whole signal. Its anchor points
    are the minima at or below zero and the maxima at or above zero that
    `Extrema` finds, plus the first and last samples, each taking the
    magnitude of its sample; every other sample is filled in by linear
    interpolation between the anchors on either side of it.

    The filling only looks at the anchor map (`points`), so it is stated
    for any map whose keys include both ends of the signal; `Points` then
    gives the map `Envelope#initialize` builds from a signal. */
module Envelopes {
  import opened Wrappers
  import ExtremaAnalysis
  import Interpolation
  import Limits

  /** An anchor map for a signal of `n` samples: its keys are sample
      indices, and the first and the last index are among them. */
  predicate Spans(points: map<nat, real>, n: nat)
  {
    n >= 2 && 0 in points && n - 1 in points && forall k :: k in points ==> k < n
  }

  /** The keys of `points` below `k`, in ascending order. */
  function KeysBelow(points: map<nat, real>, k: nat): seq<nat>
  {
    if k == 0 then []
    else KeysBelow(points, k - 1) + (if k - 1 in points then [k - 1] else [])
  }

  /** `points.keys.sort`, restricted to the keys below `k`: exactly those
      keys, strictly ascending. */
  lemma {:induction false} KeysBelowSorted(points: map<nat, real>, k: nat)
    ensures forall x: nat :: x in KeysBelow(points, k) <==> x < k && x in points
    ensures forall p, q :: 0 <= p < q < |KeysBelow(points, k)| ==> KeysBelow(points, k)[p] < KeysBelow(points, k)[q]
  {
    if k > 0 {
      var b := KeysBelow(points, k - 1);
      KeysBelowSorted(points, k - 1);
      forall p | 0 <= p < |b|
        ensures b[p] < k - 1
      {
        assert b[p] in b;
      }
    }
  }

  /** Two neighbours among the sorted keys are keys, ascending, and no key
      lies strictly between them. */
  lemma KeysGap(points: map<nat, real>, n: nat, i: nat)
    requires Spans(points, n)
    requires 0 < i < |KeysBelow(points, n)|
    ensures var a := KeysBelow(points, n);
            a[i - 1] in points && a[i] in points && a[i - 1] < a[i] < n
            && forall j :: a[i - 1] < j < a[i] ==> j !in points
  {
    var a := KeysBelow(points, n);
    KeysBelowSorted(points, n);
    assert a[i - 1] in a && a[i] in a;
  }

  /** The sorted keys start at the first index and end at the last. */
  lemma KeysEnds(points: map<nat, real>, n: nat)
    requires Spans(points, n)
    ensures var a := KeysBelow(points, n);
            |a| >= 2 && a[0] == 0 && a[|a| - 1] == n - 1
  {
    var a := KeysBelow(points, n);
    KeysBelowSorted(points, n);
    assert 0 in a && n - 1 in a;
    var m :| 0 <= m < |a| && a[m] == 0;
    var z :| 0 <= z < |a| && a[z] == n - 1;
    assert m < z;
    if m > 0 {
      assert false;
    }
    assert a[|a| - 1] in a;
    if z < |a| - 1 {
      assert false;
    }
  }

  /** The nearest key at or before `j` (the first index always is one). */
  function PrevKey(points: map<nat, real>, j: nat): (p: nat)
    requires 0 in points
    ensures p <= j && p in points
  {
    if j in points then j else PrevKey(points, j - 1)
  }

  /** The nearest key at or after `j` (the last index always is one). */
  function NextKey(points: map<nat, real>, n: nat, j: nat): (q: nat)
    requires n > 0 && n - 1 in points && j < n
    ensures j <= q < n && q in points
    decreases n - j
  {
    if j in points then j else NextKey(points, n, j + 1)
  }

  /** The key before `j` is the key `l` when none lies after it up to `j`. */
  lemma {:induction false} PrevKeyIs(points: map<nat, real>, l: nat, j: nat)
    requires 0 in points && l <= j && l in points
    requires forall m :: l < m <= j ==> m !in points
    ensures PrevKey(points, j) == l
    decreases j - l
  {
    if j > l {
      PrevKeyIs(points, l, j - 1);
    }
  }

  /** The key after `j` is the key `r` when none lies before it down to `j`. */
  lemma {:induction false} NextKeyIs(points: map<nat, real>, n: nat, r: nat, j: nat)
    requires n > 0 && n - 1 in points && j <= r < n && r in points
    requires forall m :: j <= m < r ==> m !in points
    ensures NextKey(points, n, j) == r
    decreases r - j
  {
    if j < r {
      NextKeyIs(points, n, r, j + 1);
    }
  }

  /** No key lies after the previous key up to `j`. */
  lemma {:induction false} PrevKeyGap(points: map<nat, real>, j: nat, m: nat)
    requires 0 in points && PrevKey(points, j) < m <= j
    ensures m !in points
  {
    if j !in points && m < j {
      PrevKeyGap(points, j - 1, m);
    }
  }

  /** No key lies before the next key down to `j`. */
  lemma {:induction false} NextKeyGap(points: map<nat, real>, n: nat, j: nat, m: nat)
    requires n > 0 && n - 1 in points && j < n && j <= m < NextKey(points, n, j)
    ensures m !in points
    decreases n - j
  {
    if j !in points && j < m {
      NextKeyGap(points, n, j + 1, m);
    }
  }

  /** `(j - l) / (r - l)` for `l < j < r` lies strictly inside `(0, 1)`. */
  lemma FractionInside(a: nat, b: nat)
    requires 0 < a < b
    ensures 0.0 < a as real / b as real < 1.0
  {
    var x := a as real / b as real;
    assert x * b as real == a as real;
    if x >= 1.0 {
      assert false;
    }
  }

  /** The value at `j`, strictly between anchors `l` and `r` holding `lv`
      and `rv`: `Interpolation.linear` at `(j - l) / (r - l)`, which is
      always inside the unit interval, so it never fails; the value lies
      between the two anchor values. */
  function Interpolated(lv: real, rv: real, l: nat, r: nat, j: nat): (v: real)
    requires l < j < r
    ensures lv <= rv ==> lv <= v <= rv
    ensures rv <= lv ==> rv <= v <= lv
  {
    var x := (j - l) as real / (r - l) as real;
    FractionInside(j - l, r - l);
    Interpolation.LinearBetween(lv, rv, x);
    Interpolation.Linear(lv, rv, x).value
  }

  /** The filled-in value at index `j`: the anchor's own value at a key, and
      the interpolation between the neighbouring keys elsewhere. */
  function Fill(points: map<nat, real>, n: nat, j: nat): real
    requires Spans(points, n) && j < n
  {
    if j in points then points[j]
    else
      var p := PrevKey(points, j);
      var q := NextKey(points, n, j);
      Interpolated(points[p], points[q], p, q, j)
  }

  /** Between two neighbouring keys, the fill is the interpolation between
      their values. */
  lemma SegmentValues(points: map<nat, real>, n: nat, l: nat, r: nat)
    requires Spans(points, n) && l < r < n && l in points && r in points
    requires forall j :: l < j < r ==> j !in points
    ensures forall j :: l < j < r ==> Fill(points, n, j) == Interpolated(points[l], points[r], l, r, j)
  {
    forall j | l < j < r
      ensures Fill(points, n, j) == Interpolated(points[l], points[r], l, r, j)
    {
      PrevKeyIs(points, l, j);
      NextKeyIs(points, n, r, j);
    }
  }

  /** Away from the keys the fill lies strictly between the nearest keys,
      with no key between them, and between their values; with no negative
      anchor value it is never negative. */
  lemma FillBetween(points: map<nat, real>, n: nat, j: nat)
    requires Spans(points, n) && j < n
    ensures j !in points ==>
              var p := PrevKey(points, j);
              var q := NextKey(points, n, j);
              p < j < q && (forall m :: p < m < q ==> m !in points)
    ensures j !in points ==>
              var lv := points[PrevKey(points, j)];
              var rv := points[NextKey(points, n, j)];
              (lv <= rv ==> lv <= Fill(points, n, j) <= rv) && (rv <= lv ==> rv <= Fill(points, n, j) <= lv)
    ensures (forall k :: k in points ==> points[k] >= 0.0) ==> Fill(points, n, j) >= 0.0
  {
    if j !in points {
      var p := PrevKey(points, j);
      var q := NextKey(points, n, j);
      forall m | p < m < q
        ensures m !in points
      {
        if m <= j {
          PrevKeyGap(points, j, m);
        } else {
          NextKeyGap(points, n, j, m);
        }
      }
    }
  }

  /** Index `k` is an anchor: an end of the signal, a minimum whose value is
      at or below zero, or a maximum whose value is at or above zero. */
  predicate IsAnchor(s: seq<real>, k: nat)
    requires |s| >= 2
  {
    k < |s|
    && (k == 0 || k == |s| - 1
        || (k in ExtremaAnalysis.Minima(s) && ExtremaAnalysis.Minima(s)[k] <= 0.0)
        || (k in ExtremaAnalysis.Maxima(s) && ExtremaAnalysis.Maxima(s)[k] >= 0.0))
  }

  /** `points` as `Envelope#initialize` builds it from the extrema it
      finds: the minima at or below zero, then the maxima at or above zero,
      then the first and the last sample, each stored as its magnitude. */
  function AnchorMap(s: seq<real>, minima: map<nat, real>, maxima: map<nat, real>): map<nat, real>
    requires |s| >= 2
  {
    var fromMinima := map k | k in minima && minima[k] <= 0.0 :: Limits.Abs(minima[k]);
    var fromMaxima := map k | k in maxima && maxima[k] >= 0.0 :: Limits.Abs(maxima[k]);
    (fromMinima + fromMaxima)[0 := Limits.Abs(s[0])][|s| - 1 := Limits.Abs(s[|s| - 1])]
  }

  /** When the extrema hold the samples at their keys, the anchor map's keys
      are the ends and the extrema on the right side of zero, each holding
      the magnitude of its sample. */
  lemma AnchorMapHolds(s: seq<real>, minima: map<nat, real>, maxima: map<nat, real>)
    requires |s| >= 2
    requires forall k :: k in minima ==> k < |s| && minima[k] == s[k]
    requires forall k :: k in maxima ==> k < |s| && maxima[k] == s[k]
    ensures forall k :: k in AnchorMap(s, minima, maxima) <==>
              k < |s| && (k == 0 || k == |s| - 1 || (k in minima && minima[k] <= 0.0) || (k in maxima && maxima[k] >= 0.0))
    ensures forall k :: k in AnchorMap(s, minima, maxima) ==>
              AnchorMap(s, minima, maxima)[k] == Limits.Abs(s[k]) && AnchorMap(s, minima, maxima)[k] >= 0.0
    ensures Spans(AnchorMap(s, minima, maxima), |s|)
  {
  }

  /** The anchor map of a signal. */
  function Points(s: seq<real>): map<nat, real>
    requires |s| >= 2
  {
    AnchorMap(s, ExtremaAnalysis.Minima(s), ExtremaAnalysis.Maxima(s))
  }

  /** The keys of `points` are exactly the anchors, each holding the
      magnitude of its sample, so they span the signal. */
  lemma PointsAreAnchors(s: seq<real>)
    requires |s| >= 2
    ensures forall k :: k in Points(s) <==> IsAnchor(s, k)
    ensures forall k :: k in Points(s) ==> k < |s| && Points(s)[k] == Limits.Abs(s[k]) && Points(s)[k] >= 0.0
    ensures Spans(Points(s), |s|)
  {
    ExtremaAnalysis.MapsHoldSamples(s);
    AnchorMapHolds(s, ExtremaAnalysis.Minima(s), ExtremaAnalysis.Maxima(s));
  }

  /** The envelope at sample `j`. */
  function EnvelopeAt(s: seq<real>, j: nat): real
    requires |s| >= 2 && j < |s|
  {
    PointsAreAnchors(s);
    Fill(Points(s), |s|, j)
  }

  /** At the anchors the envelope is the magnitude of the sample: `-s[k]` at
      a minimum at or below zero, `s[k]` at a maximum at or above zero, and
      `|s[k]|` at both ends. */
  lemma EnvelopeAtAnchors(s: seq<real>, k: nat)
    requires |s| >= 2 && k < |s|
    ensures IsAnchor(s, k) ==> EnvelopeAt(s, k) == Limits.Abs(s[k])
    ensures k in ExtremaAnalysis.Minima(s) && s[k] <= 0.0 ==> EnvelopeAt(s, k) == -s[k]
    ensures k in ExtremaAnalysis.Maxima(s) && s[k] >= 0.0 ==> EnvelopeAt(s, k) == s[k]
    ensures EnvelopeAt(s, 0) == Limits.Abs(s[0])
    ensures EnvelopeAt(s, |s| - 1) == Limits.Abs(s[|s| - 1])
  {
    PointsAreAnchors(s);
    ExtremaAnalysis.MapsHoldSamples(s);
    assert IsAnchor(s, 0) && IsAnchor(s, |s| - 1);
  }

  /** Away from the anchors the envelope is the interpolation between the
      magnitudes at the nearest anchors on either side, with no anchor
      between them, and it lies between those magnitudes; so it is never
      negative anywhere. */
  lemma EnvelopeBetweenAnchors(s: seq<real>, j: nat)
    requires |s| >= 2 && j < |s|
    ensures !IsAnchor(s, j) ==>
              var p := PrevKey(Points(s), j);
              var q := NextKey(Points(s), |s|, j);
              IsAnchor(s, p) && IsAnchor(s, q) && p < j < q
              && (forall m :: p < m < q ==> !IsAnchor(s, m))
              && EnvelopeAt(s, j) == Interpolated(Limits.Abs(s[p]), Limits.Abs(s[q]), p, q, j)
    ensures EnvelopeAt(s, j) >= 0.0
  {
    PointsAreAnchors(s);
    FillBetween(Points(s), |s|, j);
  }

  /** `points.keys.sort`, as a scan over the indices in ascending order. */
  method SortedKeys(points: map<nat, real>, n: nat) returns (indices: seq<nat>)
    ensures indices == KeysBelow(points, n)
  {
    indices := [];
    for k := 0 to n
      invariant indices == KeysBelow(points, k)
    {
      if k in points {
        indices := indices + [k];
      }
    }
  }

  /** The inner loop: each index strictly between `l` and `r` gets the
      interpolation between `lv` and `rv`; nothing else changes. */
  method FillSegment(data: array<real>, l: nat, r: nat, lv: real, rv: real)
    requires l < r <= data.Length
    modifies data
    ensures forall j :: l < j < r ==> data[j] == Interpolated(lv, rv, l, r, j)
    ensures forall j :: 0 <= j < data.Length && !(l < j < r) ==> data[j] == old(data[j])
  {
    for j := l + 1 to r
      invariant forall k :: l < k < j ==> data[k] == Interpolated(lv, rv, l, r, k)
      invariant forall k :: 0 <= k < data.Length && !(l < k < j) ==> data[k] == old(data[k])
    {
      var x := (j - l) as real / (r - l) as real;
      FractionInside(j - l, r - l);
      var y := Interpolation.Linear(lv, rv, x);
      data[j] := y.value;
    }
  }

  /** The outer loop: for each pair of neighbouring keys, both keys get
      their values and the indices between them are interpolated. */
  method FillData(points: map<nat, real>, indices: seq<nat>, data: array<real>)
    requires Spans(points, data.Length) && indices == KeysBelow(points, data.Length)
    modifies data
    ensures forall j :: 0 <= j < data.Length ==> data[j] == Fill(points, data.Length, j)
  {
    var n := data.Length;
    KeysEnds(points, n);
    for i := 1 to |indices|
      invariant indices[i - 1] < n
      invariant forall j :: 0 <= j < indices[i - 1] ==> data[j] == Fill(points, n, j)
      invariant i > 1 ==> data[indices[i - 1]] == Fill(points, n, indices[i - 1])
    {
      var lIdx := indices[i - 1];
      var rIdx := indices[i];
      KeysGap(points, n, i);
      var lVal := points[lIdx];
      var rVal := points[rIdx];
      data[lIdx] := lVal;
      data[rIdx] := rVal;
      FillSegment(data, lIdx, rIdx, lVal, rVal);
      SegmentValues(points, n, lIdx, rIdx);
    }
  }

  /** The envelope's data: fewer than two samples fail as `Extrema` does,
      otherwise one value per sample, as `EnvelopeAt` gives it. */
  method EnvelopeData(samples: seq<real>) returns (r: Result<seq<real>>)
    ensures r.Err? <==> |samples| < 2
    ensures r.Err? ==> r.error == TooFewSamples
    ensures r.Ok? ==> |r.value| == |samples|
    ensures r.Ok? ==> forall j :: 0 <= j < |samples| ==> r.value[j] == EnvelopeAt(samples, j)
  {
    var extrema := ExtremaAnalysis.Extrema.New(samples);
    if extrema.Err? {
      return Err(extrema.error);
    }
    var n := |samples|;
    var minima := extrema.value.minima;
    var maxima := extrema.value.maxima;
    var fromMinima := map k | k in minima && minima[k] <= 0.0 :: Limits.Abs(minima[k]);
    var fromMaxima := map k | k in maxima && maxima[k] >= 0.0 :: Limits.Abs(maxima[k]);
    var points := fromMinima + fromMaxima;
    points := points[0 := Limits.Abs(samples[0])];
    points := points[n - 1 := Limits.Abs(samples[n - 1])];
    assert points == AnchorMap(samples, minima, maxima);
    PointsAreAnchors(samples);
    var indices := SortedKeys(points, n);
    var data := new real[n](_ => 0.0);
    FillData(points, indices, data);
    return Ok(data[..]);
  }

  /** `Envelope`: a signal whose data is the envelope of the samples it was
      built from. */
  class Envelope {
    const data: seq<real>

    constructor (data: seq<real>)
      ensures this.data == data
    {
      this.data := data;
    }

    static method New(samples: seq<real>) returns (r: Result<Envelope>)
      ensures r.Err? <==> |samples| < 2
      ensures r.Err? ==> r.error == TooFewSamples
      ensures r.Ok? ==> fresh(r.value) && |r.value.data| == |samples|
      ensures r.Ok? ==> forall j :: 0 <= j < |samples| ==> r.value.data[j] == EnvelopeAt(samples, j)
    {
      var data := EnvelopeData(samples);
      if data.Err? {
        return Err(data.error);
      }
      var e := new Envelope(data.value);
      return Ok(e);
    }
  }
}
