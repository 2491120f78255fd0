/** The message processors a `MessageInPort` can call. Ruby passes an
    arbitrary lambda; the model knows the two the repository builds: a
    processor that answers the message itself, and the DELAY_SEC handler of
    the delay block, which `make_handler` assembles from a GET and a SET
    handler closed over the block's delay line. */
module Processors {
  import opened Wrappers
  import opened Messages
  import opened DelayMath
  import Limiters
  import SigProcDelay

  /** What a processor answers: the message object, or a number. */
  datatype Reply = Echoed(message: Message) | Value(v: real)

  datatype Processor =
    | Echo
    | DelaySecHandler(line: SigProcDelay.DelayLine)
  {
    /** The delay lines this processor may change. */
    function Lines(): set<SigProcDelay.DelayLine>
    {
      if DelaySecHandler? then {line} else {}
    }
  }

  /** The SET value the delay block stores: the data clamped into
      `[0, max_delay_seconds]`. */
  function ClampedDelay(line: SigProcDelay.DelayLine, d: real): (c: real)
    ensures line.maxDelaySeconds > 0.0 ==> 0.0 <= c <= line.maxDelaySeconds
    ensures 0.0 <= d <= line.maxDelaySeconds ==> c == d
  {
    Limiters.RangeLimit(0.0, line.maxDelaySeconds, d)
  }

  /** The SET handler: nil data raises; otherwise the clamped value is set
      as the new delay, and it is also the handler's answer. */
  method SetDelaySec(line: SigProcDelay.DelayLine, m: Message) returns (r: Result<real>)
    modifies line`delaySeconds, line`delaySamples
    ensures m.data.None? ==> r == Err(NilData) && line.delaySeconds == old(line.delaySeconds)
    ensures m.data.None? ==> line.delaySamples == old(line.delaySamples)
    ensures m.data.Some? ==> r == Ok(ClampedDelay(line, m.data.value))
    ensures m.data.Some? ==> line.delaySamples == DelaySamples(line.sampleRate, ClampedDelay(line, m.data.value))
    ensures m.data.Some? ==> line.delaySeconds == QuantisedSeconds(line.sampleRate, ClampedDelay(line, m.data.value))
    ensures m.data.Some? ==> line.Tuned() && line.delaySeconds <= line.maxDelaySeconds
    ensures m.data.Some? ==> line.delaySamples < line.Capacity()
  {
    if m.data.None? {
      return Err(NilData);
    }
    var c := Limiters.RangeLimit(0.0, line.maxDelaySeconds, m.data.value);
    line.SetDelaySeconds(c);
    DelayFitsCapacity(line.sampleRate, line.maxDelaySeconds, c);
    r := Ok(c);
  }

  /** The GET handler: writes the current delay into the message's data and
      answers it. */
  method GetDelaySec(line: SigProcDelay.DelayLine, m: Message) returns (r: real)
    modifies m`data
    ensures r == line.delaySeconds && m.data == Some(line.delaySeconds)
  {
    m.data := Some(line.delaySeconds);
    r := line.delaySeconds;
  }

  /** Whether a processor handles `m` without raising, when the message
      holds `data`. */
  predicate Accepts(p: Processor, m: Message, data: Option<real>)
  {
    match p
    case Echo => true
    case DelaySecHandler(_) => m.subtype == Some(GET) || (m.subtype == Some(SET) && data.Some?)
  }

  /** The error a DELAY_SEC handler raises for a message it does not accept:
      the dispatcher's refusal, or else the SET handler's nil-data failure. */
  function Refusal(m: Message): Error
  {
    if Dispatch(m).Err? then Dispatch(m).error else NilData
  }

  /** A processor's answer to a message holding `data` that it accepts. */
  function ExpectedReply(p: Processor, m: Message, data: Option<real>): Reply
    requires Accepts(p, m, data)
    reads p.Lines()
  {
    match p
    case Echo => Echoed(m)
    case DelaySecHandler(line) =>
      if m.subtype == Some(GET) then Value(line.delaySeconds)
      else Value(ClampedDelay(line, data.value))
  }

  /** Run a processor on a message. */
  method Process(p: Processor, m: Message) returns (r: Result<Reply>)
    modifies m`data, p.Lines()`delaySeconds, p.Lines()`delaySamples
    ensures r.Ok? <==> Accepts(p, m, old(m.data))
    ensures r.Err? ==> r.error == Refusal(m)
    ensures r.Ok? ==> r.value == ExpectedReply(p, m, old(m.data))
    ensures Effect(p, m, old(m.data), m.data)
    ensures r.Err? ==> m.data == old(m.data)
    ensures p.DelaySecHandler? ==> Retuned(p.line, m, old(m.data), old(p.line.delaySamples), old(p.line.delaySeconds))
    ensures r.Err? && p.DelaySecHandler? ==>
              p.line.delaySeconds == old(p.line.delaySeconds) && p.line.delaySamples == old(p.line.delaySamples)
  {
    match p
    case Echo =>
      r := Ok(Echoed(m));
    case DelaySecHandler(line) =>
      var d := Dispatch(m);
      if d.Err? {
        return Err(d.error);
      }
      if d.value == CallGet {
        var v := GetDelaySec(line, m);
        r := Ok(Value(v));
      } else {
        var v := SetDelaySec(line, m);
        if v.Err? {
          return Err(v.error);
        }
        r := Ok(Value(v.value));
      }
  }

  /** The only change a processor makes to the message: a GET handled by a
      DELAY_SEC handler stores the current delay in the data. */
  ghost predicate Effect(p: Processor, m: Message, before: Option<real>, after: Option<real>)
    reads p.Lines()
  {
    if p.DelaySecHandler? && m.subtype == Some(GET) then after == Some(p.line.delaySeconds)
    else after == before
  }

  /** The only change a processor makes to a delay line: a SET whose
      message held `data` quantises the clamped value into it. */
  ghost predicate Retuned(line: SigProcDelay.DelayLine, m: Message, data: Option<real>, samplesBefore: nat, secondsBefore: real)
    reads line
  {
    if m.subtype == Some(SET) && data.Some? then
      var c := ClampedDelay(line, data.value);
      c >= 0.0 && line.delaySamples == DelaySamples(line.sampleRate, c) && line.delaySeconds == QuantisedSeconds(line.sampleRate, c)
    else
      line.delaySamples == samplesBefore && line.delaySeconds == secondsBefore
  }
}
