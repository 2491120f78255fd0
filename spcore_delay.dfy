/** SPCore's delay line: a circular buffer of `floor(sr * max) + 1` slots,
    prefilled with zeros and always full, from which the sample pushed
    `delay_samples` pushes ago is read back. */
module SpCoreDelay {
  import opened Wrappers
  import opened RingSpec
  import opened DelayMath
  import SpCoreBuffer

  class DelayLine {
    const sampleRate: PosReal
    const maxDelaySeconds: PosReal
    var delaySeconds: real
    var delaySamples: nat
    const buffer: SpCoreBuffer.CircularBuffer<real>

    /** Every sample pushed since construction, oldest first. */
    ghost var Pushed: seq<real>

    /** The buffer is full and holds the last `capacity` entries of the
        zero prefill followed by the pushed samples. This does not depend on
        the delay, which is set independently of the buffer. */
    ghost predicate Valid()
      reads this`Pushed, buffer, buffer.buffer
    {
      && buffer.Valid()
      && buffer.overrideWhenFull
      && buffer.Size() == Capacity()
      && buffer.Contents == Last(Zeros(Capacity()) + Pushed, Capacity())
    }

    /** The stored sample count is the quantisation of the stored delay. */
    ghost predicate Tuned()
      reads this`delaySeconds, this`delaySamples
    {
      delaySeconds >= 0.0 && delaySamples == DelaySamples(sampleRate, delaySeconds)
    }

    /** The buffer's capacity, `floor(sample_rate * max_delay_seconds) + 1`. */
    function Capacity(): (n: nat)
      ensures n == DelayMath.Capacity(sampleRate, maxDelaySeconds)
    {
      DelayMath.Capacity(sampleRate, maxDelaySeconds)
    }

    constructor (sampleRate: PosReal, maxDelaySeconds: PosReal, delaySeconds: real := 0.0)
      requires 0.0 <= delaySeconds <= maxDelaySeconds
      ensures Valid() && Tuned() && fresh(buffer) && fresh(buffer.buffer)
      ensures this.sampleRate == sampleRate && this.maxDelaySeconds == maxDelaySeconds
      ensures this.delaySamples == DelaySamples(sampleRate, delaySeconds)
      ensures this.delaySeconds == QuantisedSeconds(sampleRate, delaySeconds)
      ensures Pushed == []
    {
      var capacity := DelayMath.Capacity(sampleRate, maxDelaySeconds);
      var b := new SpCoreBuffer.CircularBuffer<real>(capacity, overrideWhenFull := true);
      var _ := b.PushAry(Zeros(capacity));
      PushAllFits([], Zeros(capacity), capacity, true);
      assert b.Contents == Zeros(capacity) + [];
      this.sampleRate := sampleRate;
      this.maxDelaySeconds := maxDelaySeconds;
      buffer := b;
      this.delaySamples := DelaySamples(sampleRate, delaySeconds);
      this.delaySeconds := QuantisedSeconds(sampleRate, delaySeconds);
      Pushed := [];
      QuantiseIdempotent(sampleRate, delaySeconds);
    }

    /** The checked constructor: a delay above the maximum raises. */
    static method New(sampleRate: PosReal, maxDelaySeconds: PosReal, delaySeconds: real := 0.0)
      returns (r: Result<DelayLine>)
      requires delaySeconds >= 0.0
      ensures r.Err? <==> delaySeconds > maxDelaySeconds
      ensures r.Err? ==> r.error == DelayOverMax
      ensures r.Ok? ==> fresh(r.value) && fresh(r.value.buffer) && fresh(r.value.buffer.buffer)
      ensures r.Ok? ==> r.value.Valid() && r.value.Tuned()
      ensures r.Ok? ==> r.value.sampleRate == sampleRate && r.value.maxDelaySeconds == maxDelaySeconds
      ensures r.Ok? ==> r.value.delaySamples == DelaySamples(sampleRate, delaySeconds) && r.value.Pushed == []
      ensures r.Ok? ==> r.value.delaySeconds == QuantisedSeconds(sampleRate, delaySeconds)
    {
      if delaySeconds > maxDelaySeconds {
        return Err(DelayOverMax);
      }
      var line := new DelayLine(sampleRate, maxDelaySeconds, delaySeconds);
      r := Ok(line);
    }

    /** Quantise and store a new delay. There is no upper bound check, and
        the buffer is left as it is. */
    method SetDelaySeconds(d: real)
      requires d >= 0.0
      modifies this`delaySeconds, this`delaySamples
      ensures Tuned()
      ensures delaySamples == DelaySamples(sampleRate, d)
      ensures delaySeconds == QuantisedSeconds(sampleRate, d)
      ensures delaySeconds <= d
    {
      delaySamples := DelaySamples(sampleRate, d);
      delaySeconds := QuantisedSeconds(sampleRate, d);
      QuantiseIdempotent(sampleRate, d);
      QuantisedWithinOnePeriod(sampleRate, d);
    }

    /** Push one sample. The buffer overrides when full, so this never fails
        and the buffer stays full. */
    method PushSample(sample: real)
      requires Valid()
      modifies this`Pushed, buffer`oldest, buffer`newest, buffer`fillCount, buffer`Contents, buffer.buffer
      ensures Valid()
      ensures Pushed == old(Pushed) + [sample]
    {
      var n := buffer.Size();
      ghost var h := Zeros(n) + Pushed;
      assert buffer.IsFull();
      var _ := buffer.Push(sample);
      assert buffer.Contents == Last(h, n)[1..] + [sample];
      LastSnoc(h, sample, n);
      Pushed := Pushed + [sample];
      assert Zeros(n) + Pushed == h + [sample];
    }

    /** The sample pushed `delay_samples` pushes ago (zero while the prefill
        is still being read); raises when the delay reaches past the buffer. */
    method DelayedSample() returns (r: Result<real>)
      requires Valid()
      ensures delaySamples < Capacity() ==> r == Ok(DelayedValue(Pushed, delaySamples))
      ensures delaySamples >= Capacity() ==> r == Err(IndexTooLarge)
    {
      r := buffer.Newest(delaySamples);
      if delaySamples < buffer.Size() {
        WindowReadsDelayedValue(Pushed, buffer.Size(), delaySamples);
      }
    }
  }
}
