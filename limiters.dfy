/** The limiter factories. Each Ruby factory returns a lambda closed over
    its bounds; here each limiter is a function of those bounds and the
    input. SigProc and SPCore carry identical copies of these factories. */
module Limiters {

  /** The largest finite double, `Float::MAX`, as an exact value. */
  const FLOAT_MAX: real := 179769313486231570814527423731704356798070567525844996598917476803157260780028538760589558632766878171540458953514382464234321326889464182768467546703537516986049910576551282076245490090389328944075868508455133942304583236903222948165808559332123348274797826204144723168738177180919299881250404026184124858368.0

  /** The limiter that does not limit. */
  function NoLimit(input: real): (r: real)
    ensures r == input
  {
    input
  }

  /** Clamp into `[first, last]`: below `first` gives `first`, above `last`
      gives `last`, anything else passes through. */
  function RangeLimit(first: real, last: real, input: real): (r: real)
    ensures r == input || r == first || r == last
    ensures first <= last ==> first <= r <= last
    ensures first <= input <= last ==> r == input
  {
    if input < first then first
    else if input > last then last
    else input
  }

  /** Cap from above: the smaller of the input and the limit. */
  function UpperLimit(limit: real, input: real): (r: real)
    ensures r <= limit && r <= input
    ensures r == limit || r == input
  {
    if input > limit then limit else input
  }

  /** Cap from below: the larger of the input and the limit. */
  function LowerLimit(limit: real, input: real): (r: real)
    ensures r >= limit && r >= input
    ensures r == limit || r == input
  {
    if input < limit then limit else input
  }

  /** Accept a listed value; otherwise keep the current one. */
  function EnumLimit(goodValues: seq<real>, input: real, current: real): (r: real)
    ensures input in goodValues ==> r == input
    ensures input !in goodValues ==> r == current
  {
    if input in goodValues then input else current
  }

  /** A clamp is a lower cap of an upper cap, whenever the range is ordered. */
  lemma RangeIsLowerOfUpper(first: real, last: real, input: real)
    requires first <= last
    ensures RangeLimit(first, last, input) == LowerLimit(first, UpperLimit(last, input))
  {
  }

  /** Clamping twice is clamping once. */
  lemma RangeIdempotent(first: real, last: real, input: real)
    requires first <= last
    ensures RangeLimit(first, last, RangeLimit(first, last, input)) == RangeLimit(first, last, input)
  {
  }

  /** Clamping preserves order. */
  lemma RangeMonotone(first: real, last: real, x: real, y: real)
    requires first <= last && x <= y
    ensures RangeLimit(first, last, x) <= RangeLimit(first, last, y)
  {
  }

  /** Enum limiting keeps a parameter that starts on a listed value on a
      listed value, whatever is fed in. */
  lemma EnumStaysListed(goodValues: seq<real>, input: real, current: real)
    requires current in goodValues
    ensures EnumLimit(goodValues, input, current) in goodValues
  {
  }

  /** The documented examples: no limiting at the float extremes, and the
      range [2.5, 5.0] and the caps at 5.0. */
  lemma LimiterExamples()
    ensures NoLimit(FLOAT_MAX) == FLOAT_MAX && NoLimit(-FLOAT_MAX) == -FLOAT_MAX
    ensures RangeLimit(2.5, 5.0, 1.5) == 2.5
    ensures RangeLimit(2.5, 5.0, 5.5) == 5.0
    ensures RangeLimit(2.5, 5.0, 3.0) == 3.0
    ensures UpperLimit(5.0, 5.5) == 5.0 && UpperLimit(5.0, 4.5) == 4.5
    ensures LowerLimit(5.0, 4.5) == 5.0 && LowerLimit(5.0, 5.5) == 5.5
  {
  }
}
