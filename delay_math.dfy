/** Sample-rate arithmetic shared by both delay lines: the capacity of the
    backing buffer, the quantisation of a delay in seconds to whole samples,
    and which pushed sample a given delay reads back. Sample rates and times
    are exact reals. */
module DelayMath {

  /** Sample rates and maximum delays are validated to be positive. */
  type PosReal = r: real | r > 0.0 witness 1.0

  /** Backing-buffer capacity for a maximum delay: `floor(sr * max) + 1`
      slots, enough for every delay up to and including the maximum. */
  function Capacity(sampleRate: real, maxDelaySeconds: real): (n: nat)
    requires sampleRate > 0.0 && maxDelaySeconds > 0.0
    ensures n >= 1
    ensures (n - 1) as real <= sampleRate * maxDelaySeconds < n as real
  {
    (sampleRate * maxDelaySeconds).Floor + 1
  }

  /** The whole number of samples a delay of `d` seconds stands for: the
      largest count whose duration does not exceed `d`. */
  function DelaySamples(sampleRate: real, d: real): (n: nat)
    requires sampleRate > 0.0 && d >= 0.0
    ensures n as real <= sampleRate * d < n as real + 1.0
  {
    (sampleRate * d).Floor
  }

  /** The delay actually realised for a request of `d` seconds. */
  function QuantisedSeconds(sampleRate: real, d: real): (s: real)
    requires sampleRate > 0.0 && d >= 0.0
    ensures s * sampleRate == DelaySamples(sampleRate, d) as real
  {
    DelaySamples(sampleRate, d) as real / sampleRate
  }

  /** The realised delay never exceeds the request and falls short of it by
      less than one sample period. */
  lemma QuantisedWithinOnePeriod(sampleRate: real, d: real)
    requires sampleRate > 0.0 && d >= 0.0
    ensures 0.0 <= QuantisedSeconds(sampleRate, d) <= d
    ensures d - QuantisedSeconds(sampleRate, d) < 1.0 / sampleRate
  {
    var n := DelaySamples(sampleRate, d) as real;
    var q := QuantisedSeconds(sampleRate, d);
    assert q * sampleRate == n;
    assert (d - q) * sampleRate == sampleRate * d - n;
    ProductSign(d - q, sampleRate);
    assert (d - q - 1.0 / sampleRate) * sampleRate == sampleRate * d - n - 1.0;
    ProductSign(d - q - 1.0 / sampleRate, sampleRate);
  }

  /** The sign of a product with a positive factor is the sign of the other. */
  lemma ProductSign(a: real, c: real)
    requires c > 0.0
    ensures a * c >= 0.0 <==> a >= 0.0
    ensures a * c < 0.0 <==> a < 0.0
  {
  }

  /** Quantising an already quantised delay changes nothing: setting the
      delay to the value read back keeps the same sample count. */
  lemma QuantiseIdempotent(sampleRate: real, d: real)
    requires sampleRate > 0.0 && d >= 0.0
    ensures QuantisedSeconds(sampleRate, d) >= 0.0
    ensures DelaySamples(sampleRate, QuantisedSeconds(sampleRate, d)) == DelaySamples(sampleRate, d)
    ensures QuantisedSeconds(sampleRate, QuantisedSeconds(sampleRate, d)) == QuantisedSeconds(sampleRate, d)
  {
    var q := QuantisedSeconds(sampleRate, d);
    QuantisedWithinOnePeriod(sampleRate, d);
    assert sampleRate * q == DelaySamples(sampleRate, d) as real;
  }

  /** Any delay up to the maximum reads inside the buffer. */
  lemma DelayFitsCapacity(sampleRate: real, maxDelaySeconds: real, d: real)
    requires sampleRate > 0.0 && maxDelaySeconds > 0.0
    requires 0.0 <= d <= maxDelaySeconds
    ensures DelaySamples(sampleRate, d) < Capacity(sampleRate, maxDelaySeconds)
  {
    ProductSign(maxDelaySeconds - d, sampleRate);
    assert sampleRate * maxDelaySeconds - sampleRate * d == (maxDelaySeconds - d) * sampleRate;
  }

  /** A run of `n` zeros: the buffer's prefill. */
  function Zeros(n: nat): (z: seq<real>)
    ensures |z| == n && forall i :: 0 <= i < n ==> z[i] == 0.0
  {
    seq(n, _ => 0.0)
  }

  /** What a delay line reads back `k` samples behind the newest one, given
      every sample pushed since construction: the sample pushed `k` pushes
      ago, or the zero prefill when fewer than `k + 1` samples were pushed. */
  function DelayedValue(pushed: seq<real>, k: nat): (v: real)
    ensures k < |pushed| ==> v == pushed[|pushed| - 1 - k]
    ensures k >= |pushed| ==> v == 0.0
  {
    if k < |pushed| then pushed[|pushed| - 1 - k] else 0.0
  }

  /** The `k`-behind entry of the last `n` elements of a zero prefill of
      length `n` followed by the pushed samples is `DelayedValue`. */
  lemma {:induction false} WindowReadsDelayedValue(pushed: seq<real>, n: nat, k: nat)
    requires k < n
    ensures var h := Zeros(n) + pushed;
            h[|h| - 1 - k] == DelayedValue(pushed, k)
  {
    var h := Zeros(n) + pushed;
    if k < |pushed| {
      assert h[|h| - 1 - k] == pushed[|pushed| - 1 - k];
    } else {
      assert |h| - 1 - k < n;
    }
  }

  /** Push `x`, then `k` further samples: a delay of `k` samples reads `x`. */
  lemma DelayRoundTrip(before: seq<real>, x: real, after: seq<real>)
    ensures DelayedValue(before + [x] + after, |after|) == x
  {
    var p := before + [x] + after;
    assert p[|p| - 1 - |after|] == x;
  }
}
