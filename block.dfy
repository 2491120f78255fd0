/** SigProc's `Block`: a name, four lists of ports and an algorithm closure
    that `step` runs, and `DelayBlock`, the block that runs samples through
    a delay line and takes its delay from DELAY_SEC control messages. The
    algorithm closure is one of the two the repository builds: the default
    `DO_NOTHING`, or the delay block's per-sample loop. */
module Blocks {
  import opened Wrappers
  import opened Messages
  import opened DelayMath
  import opened Processors
  import opened Network
  import SigProcDelay

  /** The closure `step` calls. */
  datatype Algorithm =
    | DoNothing
    | DelayAlgorithm(line: SigProcDelay.DelayLine, input: SignalInPort, output: SignalOutPort)

  /** Ruby's `casecmp` folds only the ASCII letters A-Z. */
  function Fold(c: char): (f: char)
  {
    if 'A' <= c <= 'Z' then (c as int + 32) as char else c
  }

  function Downcase(s: string): (r: string)
    ensures |r| == |s| && forall i :: 0 <= i < |s| ==> r[i] == Fold(s[i])
  {
    seq(|s|, i requires 0 <= i < |s| => Fold(s[i]))
  }

  /** Whether a port called `portName` answers to `name`: `casecmp == 0`
      when ignoring case, string equality otherwise. */
  predicate NameMatches(portName: string, name: string, ignoreCase: bool)
  {
    if ignoreCase then Downcase(portName) == Downcase(name) else portName == name
  }

  /** Matching ignores the case of ASCII letters only, and an exact match
      needs equal strings. */
  lemma NameMatchExamples()
    ensures NameMatches("INPUT", "input", true) && NameMatches("Delay_Sec", "DELAY_SEC", true)
    ensures !NameMatches("INPUT", "input", false) && NameMatches("INPUT", "INPUT", false)
    ensures !NameMatches("INPUT", "OUTPUT", true) && !NameMatches("INPUT", "INPUTS", true)
  {
    assert Downcase("INPUT") == "input" == Downcase("input");
    assert Downcase("Delay_Sec") == "delay_sec" == Downcase("DELAY_SEC");
    assert Downcase("INPUT")[0] != Downcase("OUTPUT")[0];
    assert "INPUT" != "input" by {
      assert "INPUT"[0] != "input"[0];
    }
  }

  /** The ports among `ports` that answer to `name`, in order (Ruby's
      `select`). */
  function Select(ports: seq<Port>, name: string, ignoreCase: bool): (r: seq<Port>)
    ensures |r| <= |ports|
    ensures forall i :: 0 <= i < |r| ==> r[i] in ports && NameMatches(r[i].Name(), name, ignoreCase)
    ensures forall i :: 0 <= i < |ports| && NameMatches(ports[i].Name(), name, ignoreCase) ==> ports[i] in r
  {
    if ports == [] then []
    else
      (if NameMatches(ports[0].Name(), name, ignoreCase) then [ports[0]] else [])
        + Select(ports[1..], name, ignoreCase)
  }

  /** Selecting from two lists joined is selecting from each in turn. */
  lemma {:induction false} SelectAppend(a: seq<Port>, b: seq<Port>, name: string, ignoreCase: bool)
    ensures Select(a + b, name, ignoreCase) == Select(a, name, ignoreCase) + Select(b, name, ignoreCase)
  {
    if a == [] {
      assert a + b == b;
    } else {
      assert (a + b)[0] == a[0];
      assert (a + b)[1..] == a[1..] + b;
      SelectAppend(a[1..], b, name, ignoreCase);
    }
  }

  /** The index of the first port answering to `name`, or `|ports|` when
      there is none. */
  function FirstMatch(ports: seq<Port>, name: string, ignoreCase: bool): (i: nat)
    ensures i <= |ports|
    ensures forall j :: 0 <= j < i ==> !NameMatches(ports[j].Name(), name, ignoreCase)
    ensures i < |ports| ==> NameMatches(ports[i].Name(), name, ignoreCase)
  {
    if ports == [] then 0
    else if NameMatches(ports[0].Name(), name, ignoreCase) then 0
    else 1 + FirstMatch(ports[1..], name, ignoreCase)
  }

  /** The head of the selection is the port at the first matching index. */
  lemma {:induction false} SelectHead(ports: seq<Port>, name: string, ignoreCase: bool)
    ensures Select(ports, name, ignoreCase) == [] <==> FirstMatch(ports, name, ignoreCase) == |ports|
    ensures Select(ports, name, ignoreCase) != [] ==>
              Select(ports, name, ignoreCase)[0] == ports[FirstMatch(ports, name, ignoreCase)]
  {
    if ports != [] && !NameMatches(ports[0].Name(), name, ignoreCase) {
      SelectHead(ports[1..], name, ignoreCase);
    }
  }

  function SignalInsAsPorts(ps: seq<SignalInPort>): (r: seq<Port>)
    ensures |r| == |ps| && forall i :: 0 <= i < |ps| ==> r[i] == SignalIn(ps[i])
  {
    seq(|ps|, i requires 0 <= i < |ps| => SignalIn(ps[i]))
  }

  function SignalOutsAsPorts(ps: seq<SignalOutPort>): (r: seq<Port>)
    ensures |r| == |ps| && forall i :: 0 <= i < |ps| ==> r[i] == SignalOut(ps[i])
  {
    seq(|ps|, i requires 0 <= i < |ps| => SignalOut(ps[i]))
  }

  function MessageInsAsPorts(ps: seq<MessageInPort>): (r: seq<Port>)
    ensures |r| == |ps| && forall i :: 0 <= i < |ps| ==> r[i] == MessageIn(ps[i])
  {
    seq(|ps|, i requires 0 <= i < |ps| => MessageIn(ps[i]))
  }

  function MessageOutsAsPorts(ps: seq<MessageOutPort>): (r: seq<Port>)
    ensures |r| == |ps| && forall i :: 0 <= i < |ps| ==> r[i] == MessageOut(ps[i])
  {
    seq(|ps|, i requires 0 <= i < |ps| => MessageOut(ps[i]))
  }

  /** What the delay block sends for a batch `xs`, given every sample pushed
      before it: the i-th output is the sample pushed `d` pushes before the
      i-th input, reaching back into earlier batches and then into the zero
      prefill. */
  function DelayOutputs(history: seq<real>, xs: seq<real>, d: nat): (r: seq<real>)
    ensures |r| == |xs|
    ensures forall i :: 0 <= i < |xs| ==>
              r[i] == if d <= i then xs[i - d] else DelayedValue(history, d - i - 1)
  {
    if xs == [] then []
    else
      var n := |xs| - 1;
      DelayedAcrossBatch(history, xs, d);
      DelayOutputs(history, xs[..n], d) + [DelayedValue(history + xs, d)]
  }

  /** Reading `d` behind the end of `history + xs` lands in `xs` when `xs` is
      long enough, and otherwise further back in `history`. */
  lemma DelayedAcrossBatch(history: seq<real>, xs: seq<real>, d: nat)
    requires xs != []
    ensures DelayedValue(history + xs, d) ==
              if d < |xs| then xs[|xs| - 1 - d] else DelayedValue(history, d - |xs|)
  {
    var h := history + xs;
    if d < |xs| {
      assert h[|h| - 1 - d] == xs[|xs| - 1 - d];
    } else if d - |xs| < |history| {
      assert h[|h| - 1 - d] == history[|history| - 1 - (d - |xs|)];
    }
  }

  /** With no delay the block passes its input straight through. */
  lemma NoDelayPassesThrough(history: seq<real>, xs: seq<real>)
    ensures DelayOutputs(history, xs, 0) == xs
  {
    var r := DelayOutputs(history, xs, 0);
    assert forall i :: 0 <= i < |xs| ==> r[i] == xs[i];
  }

  /** Splitting a stream into batches does not change what the block
      sends: running two batches one after the other gives the outputs of
      running them as one. */
  lemma {:induction false} DelayOutputsAppend(history: seq<real>, xs: seq<real>, ys: seq<real>, d: nat)
    ensures DelayOutputs(history, xs + ys, d) == DelayOutputs(history, xs, d) + DelayOutputs(history + xs, ys, d)
  {
    var a := DelayOutputs(history, xs + ys, d);
    var b := DelayOutputs(history, xs, d) + DelayOutputs(history + xs, ys, d);
    forall i | 0 <= i < |a|
      ensures a[i] == b[i]
    {
      if i >= |xs| {
        var j := i - |xs|;
        if d > j {
          var h := history + xs;
          if d - j - 1 < |h| {
            assert h[|h| - 1 - (d - j - 1)] == (if d <= i then xs[i - d] else history[|history| - 1 - (d - i - 1)]);
          }
        }
      }
    }
  }

  class Block {
    const name: string
    const algorithm: Algorithm
    const signalInPorts: seq<SignalInPort>
    const signalOutPorts: seq<SignalOutPort>
    const messageInPorts: seq<MessageInPort>
    const messageOutPorts: seq<MessageOutPort>

    /** Every argument is optional: the name defaults to "UNNAMED", the
        algorithm to `DO_NOTHING` and the port lists to empty lists. */
    constructor (name: string := "UNNAMED", algorithm: Algorithm := DoNothing,
                 signalInPorts: seq<SignalInPort> := [], signalOutPorts: seq<SignalOutPort> := [],
                 messageInPorts: seq<MessageInPort> := [], messageOutPorts: seq<MessageOutPort> := [])
      ensures this.name == name && this.algorithm == algorithm
      ensures this.signalInPorts == signalInPorts && this.signalOutPorts == signalOutPorts
      ensures this.messageInPorts == messageInPorts && this.messageOutPorts == messageOutPorts
    {
      this.name := name;
      this.algorithm := algorithm;
      this.signalInPorts := signalInPorts;
      this.signalOutPorts := signalOutPorts;
      this.messageInPorts := messageInPorts;
      this.messageOutPorts := messageOutPorts;
    }

    /** The four port lists joined in the order `find_ports` searches them. */
    function AllPorts(): (r: seq<Port>)
      ensures |r| == |signalInPorts| + |signalOutPorts| + |messageInPorts| + |messageOutPorts|
    {
      SignalInsAsPorts(signalInPorts) + SignalOutsAsPorts(signalOutPorts)
        + MessageInsAsPorts(messageInPorts) + MessageOutsAsPorts(messageOutPorts)
    }

    /** Every port whose name matches, in list order. */
    function FindPorts(name: string, ignoreCase: bool := true): (r: seq<Port>)
      ensures |r| <= |AllPorts()|
      ensures forall i :: 0 <= i < |r| ==> r[i] in AllPorts() && NameMatches(r[i].Name(), name, ignoreCase)
      ensures forall i :: 0 <= i < |AllPorts()| && NameMatches(AllPorts()[i].Name(), name, ignoreCase) ==>
                AllPorts()[i] in r
    {
      Select(AllPorts(), name, ignoreCase)
    }

    /** The matches come signal inputs first, then signal outputs, message
        inputs and message outputs, each list in its own order. */
    lemma FindPortsOrder(name: string, ignoreCase: bool)
      ensures FindPorts(name, ignoreCase) ==
                Select(SignalInsAsPorts(signalInPorts), name, ignoreCase)
                + Select(SignalOutsAsPorts(signalOutPorts), name, ignoreCase)
                + Select(MessageInsAsPorts(messageInPorts), name, ignoreCase)
                + Select(MessageOutsAsPorts(messageOutPorts), name, ignoreCase)
    {
      var a, b := SignalInsAsPorts(signalInPorts), SignalOutsAsPorts(signalOutPorts);
      var c, d := MessageInsAsPorts(messageInPorts), MessageOutsAsPorts(messageOutPorts);
      SelectAppend(a + b + c, d, name, ignoreCase);
      SelectAppend(a + b, c, name, ignoreCase);
      SelectAppend(a, b, name, ignoreCase);
    }

    /** The first match, or nil when no port matches. */
    function FindFirstPort(name: string, ignoreCase: bool := true): (r: Option<Port>)
      ensures r.None? <==> forall i :: 0 <= i < |AllPorts()| ==> !NameMatches(AllPorts()[i].Name(), name, ignoreCase)
      ensures r.Some? ==> r.value == AllPorts()[FirstMatch(AllPorts(), name, ignoreCase)]
    {
      SelectHead(AllPorts(), name, ignoreCase);
      var matches := FindPorts(name, ignoreCase);
      if matches == [] then None else Some(matches[0])
    }

    /** The objects the algorithm reads. */
    function Footprint(): set<object>
      reads if algorithm.DelayAlgorithm? then {algorithm.line.buffer} else {}
    {
      match algorithm
      case DoNothing => {}
      case DelayAlgorithm(line, input, output) =>
        {line, line.buffer, line.buffer.buffer, input, output}
    }

    /** The delay block keeps its line's storage intact, its delay quantised
        and within the maximum, and its output's links free of repeats. */
    ghost predicate Valid()
      reads this, Footprint()
    {
      match algorithm
      case DoNothing => true
      case DelayAlgorithm(line, input, output) =>
        line.Valid() && line.Tuned() && line.delaySeconds <= line.maxDelaySeconds && output.Valid()
    }

    /** Run the algorithm on `count` samples and return what it returns.
        `DO_NOTHING` takes no argument, so stepping a block that kept the
        default raises; the delay algorithm ends by sending its batch, and
        so returns the links of OUTPUT. */
    method Step(count: nat) returns (r: Result<seq<SignalInPort>>)
      requires Valid()
      modifies Footprint(), if algorithm.DelayAlgorithm? then set p | p in algorithm.output.links else {}
      ensures Valid()
      ensures algorithm.DoNothing? ==> r == Err(WrongArity)
      ensures algorithm.DelayAlgorithm? ==> (r.Err? <==> count > |old(algorithm.input.queue)|)
      ensures algorithm.DelayAlgorithm? && r.Err? ==>
                algorithm.input.queue == old(algorithm.input.queue) && algorithm.line.Pushed == old(algorithm.line.Pushed)
      ensures algorithm.DelayAlgorithm? ==> unchanged(algorithm.output)
      ensures algorithm.DelayAlgorithm? && r.Err? ==>
                forall k :: 0 <= k < |algorithm.output.links| ==>
                  algorithm.output.links[k].queue == old(algorithm.output.links[k].queue)
      ensures algorithm.DelayAlgorithm? && r.Ok? ==> r.value == algorithm.output.links
      ensures algorithm.DelayAlgorithm? && r.Ok? ==>
                algorithm.line.Pushed == old(algorithm.line.Pushed) + old(algorithm.input.queue)[..count]
      ensures algorithm.DelayAlgorithm? && r.Ok? ==>
                forall k {:trigger algorithm.output.links[k].queue} :: 0 <= k < |algorithm.output.links| ==>
                  algorithm.output.links[k].queue ==
                    (if algorithm.output.links[k] == algorithm.input then old(algorithm.input.queue)[count..]
                     else old(algorithm.output.links[k].queue))
                    + Staged(DelayOutputs(old(algorithm.line.Pushed), old(algorithm.input.queue)[..count],
                                          algorithm.line.delaySamples), algorithm.output.links, k + 1)
    {
      match algorithm
      case DoNothing =>
        r := Err(WrongArity);
      case DelayAlgorithm(line, input, output) =>
        r := DelayStep(line, input, output, count);
    }
  }

  /** The delay block's algorithm: dequeue `count` inputs, push each one and
      replace it by the delayed sample, then send the batch to every link of
      OUTPUT. The block keeps its delay within the maximum, so reading the
      delayed sample never raises. Sending returns the links of OUTPUT, and
      so does the algorithm. */
  method DelayStep(line: SigProcDelay.DelayLine, input: SignalInPort, output: SignalOutPort, count: nat)
    returns (r: Result<seq<SignalInPort>>)
    requires line.Valid() && line.Tuned() && line.delaySeconds <= line.maxDelaySeconds
    requires output.Valid()
    modifies input`queue, line`Pushed, line.buffer`oldest, line.buffer`newest, line.buffer`fillCount
    modifies line.buffer`Contents, line.buffer.buffer, (set p | p in output.links)`queue
    ensures line.Valid()
    ensures r.Err? <==> count > |old(input.queue)|
    ensures r.Err? ==> r.error == QueueUnderflow && input.queue == old(input.queue) && line.Pushed == old(line.Pushed)
    ensures r.Err? ==> forall k :: 0 <= k < |output.links| ==> output.links[k].queue == old(output.links[k].queue)
    ensures r.Ok? ==> r.value == output.links
    ensures r.Ok? ==> line.Pushed == old(line.Pushed) + old(input.queue)[..count]
    ensures r.Ok? && input !in output.links ==> input.queue == old(input.queue)[count..]
    ensures r.Ok? ==> forall k {:trigger output.links[k].queue} :: 0 <= k < |output.links| ==>
              output.links[k].queue ==
                (if output.links[k] == input then old(input.queue)[count..] else old(output.links[k].queue))
                + Staged(DelayOutputs(old(line.Pushed), old(input.queue)[..count], line.delaySamples), output.links, k + 1)
  {
    var d := input.DequeueValues(count);
    if d.Err? {
      return Err(d.error);
    }
    var xs := d.value;
    assert xs == old(input.queue)[..count];
    ghost var p0, delay := line.Pushed, line.delaySamples;
    var values := new real[|xs|](i requires 0 <= i < |xs| => xs[i]);
    assert values[..] == xs;
    DelayInPlace(line, values);
    assert values[..] == DelayOutputs(p0, xs, delay) && line.Pushed == p0 + xs;
    output.SendValues(values);
    assert line.Pushed == p0 + xs && line.delaySamples == delay;
    r := Ok(output.links);
  }

  /** The delay block's per-sample loop: push each value into the line and
      overwrite it with the delayed sample read back. */
  method DelayInPlace(line: SigProcDelay.DelayLine, values: array<real>)
    requires line.Valid() && line.Tuned() && line.delaySeconds <= line.maxDelaySeconds
    requires values != line.buffer.buffer
    modifies values, line`Pushed, line.buffer`oldest, line.buffer`newest, line.buffer`fillCount
    modifies line.buffer`Contents, line.buffer.buffer
    ensures line.Valid()
    ensures line.Pushed == old(line.Pushed) + old(values[..])
    ensures values[..] == DelayOutputs(old(line.Pushed), old(values[..]), line.delaySamples)
  {
    ghost var p0, xs := line.Pushed, values[..];
    ghost var outs := DelayOutputs(p0, xs, line.delaySamples);
    DelayFitsCapacity(line.sampleRate, line.maxDelaySeconds, line.delaySeconds);
    for i := 0 to values.Length
      invariant line.Valid()
      invariant line.Pushed == p0 + xs[..i]
      invariant forall j :: 0 <= j < i ==> values[j] == outs[j]
      invariant forall j :: i <= j < values.Length ==> values[j] == xs[j]
    {
      line.PushSample(values[i]);
      assert line.Pushed == p0 + xs[..i + 1] by {
        assert xs[..i + 1] == xs[..i] + [xs[i]];
      }
      var s := line.DelayedSample();
      DelayedAcrossBatch(p0, xs[..i + 1], line.delaySamples);
      values[i] := s.value;
    }
    assert xs[..values.Length] == xs;
  }

  /** `DelayBlock.new`: a delay line (raising when the delay is over the
      maximum), the ports INPUT, OUTPUT and a CONTROL-typed DELAY_SEC message
      input whose processor is the DELAY_SEC handler, and no message outputs. */
  method NewDelayBlock(sampleRate: PosReal, maxDelaySeconds: PosReal, delaySeconds: real := 0.0)
    returns (r: Result<Block>)
    requires delaySeconds >= 0.0
    ensures r.Err? <==> delaySeconds > maxDelaySeconds
    ensures r.Err? ==> r.error == DelayOverMax
    ensures r.Ok? ==> fresh(r.value) && r.value.Valid() && r.value.name == "DELAY"
    ensures r.Ok? ==> r.value.algorithm.DelayAlgorithm? && r.value.algorithm.line.Pushed == []
    ensures r.Ok? ==> r.value.algorithm.line.delaySamples == DelaySamples(sampleRate, delaySeconds)
    ensures r.Ok? ==> r.value.signalInPorts == [r.value.algorithm.input] && r.value.signalOutPorts == [r.value.algorithm.output]
    ensures r.Ok? ==> r.value.algorithm.input.name == "INPUT" && r.value.algorithm.output.name == "OUTPUT"
    ensures r.Ok? ==> r.value.algorithm.input.queue == [] && r.value.algorithm.output.links == []
    ensures r.Ok? ==> |r.value.messageInPorts| == 1 && r.value.messageOutPorts == []
    ensures r.Ok? ==> r.value.messageInPorts[0].name == "DELAY_SEC" && r.value.messageInPorts[0].messageType == CONTROL
    ensures r.Ok? ==> r.value.messageInPorts[0].processor == DelaySecHandler(r.value.algorithm.line)
  {
    var l := SigProcDelay.DelayLine.New(sampleRate, maxDelaySeconds, delaySeconds);
    if l.Err? {
      return Err(l.error);
    }
    var line := l.value;
    QuantisedWithinOnePeriod(sampleRate, delaySeconds);
    var input := new SignalInPort("INPUT");
    var output := new SignalOutPort("OUTPUT");
    var delaySec := new MessageInPort(DelaySecHandler(line), CONTROL, "DELAY_SEC");
    var b := new Block("DELAY", DelayAlgorithm(line, input, output), [input], [output], [delaySec], []);
    r := Ok(b);
  }
}
