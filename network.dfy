/** The port layer of SigProc's block network. Signal ports carry batches of
    samples: an output fans a batch out to every linked input, each input
    clamps it and queues it. Message ports carry messages: an output hands a
    message to every linked input, each input checks the message type and
    calls its processor. Links are kept on both sides: an output holds the set
    of its inputs (insertion ordered, no repeats), and each input holds a
    back-reference to its one output. */
module Network {
  import opened Wrappers
  import opened Limiters
  import opened Messages
  import opened Processors
  import SigProcDelay

  /** A Ruby range used as limits; only its two ends matter. */
  datatype Range = Range(first: real, last: real)

  /** The default limits, the whole finite double range: ports built with
      them skip limiting altogether. */
  const DEFAULT_LIMITS := Range(-FLOAT_MAX, FLOAT_MAX)

  /** Any of the four port classes, for operations that check the class of
      their argument at run time. */
  datatype Port =
    | SignalIn(signalIn: SignalInPort)
    | SignalOut(signalOut: SignalOutPort)
    | MessageIn(messageIn: MessageInPort)
    | MessageOut(messageOut: MessageOutPort)
  {
    function Name(): string
    {
      match this
      case SignalIn(p) => p.name
      case SignalOut(p) => p.name
      case MessageIn(p) => p.name
      case MessageOut(p) => p.name
    }

    /** The signal input this port is, if it is one. */
    function SignalIns(): set<SignalInPort>
    {
      if SignalIn? then {signalIn} else {}
    }

    /** The message input this port is, if it is one. */
    function MessageIns(): set<MessageInPort>
    {
      if MessageIn? then {messageIn} else {}
    }
  }

  /** Each value clamped into `limits` by the range limiter. */
  function ClampAll(limits: Range, vs: seq<real>): (r: seq<real>)
    ensures |r| == |vs|
    ensures forall i :: 0 <= i < |vs| ==> r[i] == RangeLimit(limits.first, limits.last, vs[i])
  {
    if vs == [] then [] else [RangeLimit(limits.first, limits.last, vs[0])] + ClampAll(limits, vs[1..])
  }

  predicate NoDuplicates<T(==)>(s: seq<T>)
  {
    forall i, j :: 0 <= i < j < |s| ==> s[i] != s[j]
  }

  /** `s` without `x`, the rest in order: deleting from an ordered set. */
  function Without<T(==)>(s: seq<T>, x: T): (r: seq<T>)
    ensures forall i :: 0 <= i < |r| ==> r[i] in s && r[i] != x
    ensures forall i :: 0 <= i < |s| && s[i] != x ==> s[i] in r
    ensures NoDuplicates(s) ==> NoDuplicates(r)
    ensures x in s && NoDuplicates(s) ==> |r| == |s| - 1
    ensures x !in s ==> r == s
  {
    if s == [] then []
    else if s[0] == x then Without(s[1..], x)
    else [s[0]] + Without(s[1..], x)
  }

  /** Deleting from a concatenation deletes from each part: the elements
      that stay keep their order, and only `x` is removed. */
  lemma {:induction false} WithoutAppend<T>(a: seq<T>, b: seq<T>, x: T)
    ensures Without(a + b, x) == Without(a, x) + Without(b, x)
  {
    if a == [] {
      assert a + b == b;
    } else {
      assert (a + b)[1..] == a[1..] + b;
      WithoutAppend(a[1..], b, x);
    }
  }

  class SignalInPort {
    const name: string
    const limits: Range
    const skipLimiting: bool
    var queue: seq<real>
    var link: Option<SignalOutPort>

    constructor (name: string, limits: Range := DEFAULT_LIMITS)
      ensures this.name == name && this.limits == limits
      ensures skipLimiting <==> limits == DEFAULT_LIMITS
      ensures queue == [] && link == None
    {
      this.name := name;
      this.limits := limits;
      skipLimiting := limits == DEFAULT_LIMITS;
      queue := [];
      link := None;
    }

    /** A batch as this port stores it: clamped into the limits, unless the
        limits are the defaults. */
    function Limited(vs: seq<real>): (r: seq<real>)
      ensures |r| == |vs|
      ensures skipLimiting ==> r == vs
      ensures !skipLimiting ==> r == ClampAll(limits, vs)
    {
      if skipLimiting then vs else ClampAll(limits, vs)
    }

    /** Whatever the limits, a value already inside them is stored as given;
        with custom limits, every stored value lies inside them. */
    lemma LimitedClamps(vs: seq<real>)
      ensures !skipLimiting && limits.first <= limits.last ==>
                forall i :: 0 <= i < |vs| ==> limits.first <= Limited(vs)[i] <= limits.last
      ensures forall i :: 0 <= i < |vs| && limits.first <= vs[i] <= limits.last ==> Limited(vs)[i] == vs[i]
    {
    }

    /** Clamp the caller's array in place, then append it to the queue. */
    method EnqueueValues(values: array<real>)
      modifies this`queue, values
      ensures values[..] == Limited(old(values[..]))
      ensures queue == old(queue) + values[..]
    {
      if !skipLimiting {
        for i := 0 to values.Length
          modifies values
          invariant forall k :: 0 <= k < i ==> values[k] == RangeLimit(limits.first, limits.last, old(values[k]))
          invariant forall k :: i <= k < values.Length ==> values[k] == old(values[k])
        {
          values[i] := RangeLimit(limits.first, limits.last, values[i]);
        }
      }
      assert values[..] == Limited(old(values[..]));
      queue := queue + values[..];
    }

    /** Take the `count` oldest values, in order; asking for more than are
        queued raises and takes nothing. */
    method DequeueValues(count: nat) returns (r: Result<seq<real>>)
      modifies this`queue
      ensures count > |old(queue)| ==> r == Err(QueueUnderflow) && queue == old(queue)
      ensures count <= |old(queue)| ==> r.Ok? && |r.value| == count
      ensures r.Ok? ==> r.value + queue == old(queue)
    {
      if count > |queue| {
        return Err(QueueUnderflow);
      }
      r := Ok(queue[..count]);
      queue := queue[count..];
    }

    /** `dequeue_values` with its default count: the whole queue. */
    method DequeueAll() returns (r: seq<real>)
      modifies this`queue
      ensures r == old(queue) && queue == []
    {
      var d := DequeueValues(|queue|);
      r := d.value;
    }

    method SetLink(p: Port) returns (r: Outcome)
      modifies this`link
      ensures p.SignalOut? ==> r == Pass && link == Some(p.signalOut)
      ensures !p.SignalOut? ==> r == Fail(WrongPortKind) && link == old(link)
    {
      if !p.SignalOut? {
        return Fail(WrongPortKind);
      }
      link := Some(p.signalOut);
      r := Pass;
    }

    method ClearLink()
      modifies this`link
      ensures link == None
    {
      link := None;
    }
  }

  /** The batch the `k`-th link of a fan-out receives. The same array is
      handed to every link in turn and each clamps it in place, so a link
      receives the batch as already clamped by every link before it. */
  function Staged(vs: seq<real>, ports: seq<SignalInPort>, k: nat): (r: seq<real>)
    requires k <= |ports|
    ensures |r| == |vs|
  {
    if k == 0 then vs else ports[k - 1].Limited(Staged(vs, ports, k - 1))
  }

  /** A batch already inside every link's limits reaches every link
      unchanged. */
  lemma {:induction false} StagedWithinLimits(vs: seq<real>, ports: seq<SignalInPort>, k: nat)
    requires k <= |ports|
    requires forall j, i :: 0 <= j < k && 0 <= i < |vs| ==> ports[j].limits.first <= vs[i] <= ports[j].limits.last
    ensures Staged(vs, ports, k) == vs
  {
    if k > 0 {
      StagedWithinLimits(vs, ports, k - 1);
    }
  }

  /** When no link has custom limits, every link receives the batch as sent. */
  lemma {:induction false} StagedDefaultLimits(vs: seq<real>, ports: seq<SignalInPort>, k: nat)
    requires k <= |ports|
    requires forall j :: 0 <= j < k ==> ports[j].skipLimiting
    ensures Staged(vs, ports, k) == vs
  {
    if k > 0 {
      StagedDefaultLimits(vs, ports, k - 1);
    }
  }

  class SignalOutPort {
    const name: string
    /** A Ruby Set of inputs, in insertion order. */
    var links: seq<SignalInPort>

    constructor (name: string)
      ensures this.name == name && links == []
    {
      this.name := name;
      links := [];
    }

    ghost predicate Valid()
      reads this
    {
      NoDuplicates(links)
    }

    /** Every linked input names this port as its producer. */
    ghost predicate Symmetric()
      reads this, set p | p in links
    {
      Valid() && forall p :: p in links ==> p.link == Some(this)
    }

    /** Link an unlinked signal input: it joins the links and its
        back-reference is set to this port. */
    method AddLink(p: Port) returns (r: Outcome)
      requires Valid()
      modifies this`links, p.SignalIns()`link
      ensures Valid()
      ensures !p.SignalIn? ==> r == Fail(WrongPortKind) && links == old(links)
      ensures p.SignalIn? && old(p.signalIn.link).Some? ==>
                r == Fail(AlreadyLinked) && links == old(links) && p.signalIn.link == old(p.signalIn.link)
      ensures p.SignalIn? && old(p.signalIn.link).None? ==>
                && r == Pass && p.signalIn.link == Some(this)
                && links == old(links) + (if p.signalIn in old(links) then [] else [p.signalIn])
      ensures old(Symmetric()) ==> Symmetric()
    {
      if !p.SignalIn? {
        return Fail(WrongPortKind);
      }
      var q := p.signalIn;
      if q.link.Some? {
        return Fail(AlreadyLinked);
      }
      if q !in links {
        links := links + [q];
      }
      var _ := q.SetLink(SignalOut(this));
      r := Pass;
    }

    /** Unlink a linked signal input and clear its back-reference, so that it
        can be linked again. */
    method RemoveLink(p: Port) returns (r: Outcome)
      requires Valid()
      modifies this`links, p.SignalIns()`link
      ensures Valid()
      ensures !p.SignalIn? ==> r == Fail(WrongPortKind) && links == old(links)
      ensures p.SignalIn? && p.signalIn !in old(links) ==>
                r == Fail(NotLinked) && links == old(links) && p.signalIn.link == old(p.signalIn.link)
      ensures p.SignalIn? && p.signalIn in old(links) ==>
                r == Pass && links == Without(old(links), p.signalIn) && p.signalIn.link == None
      ensures old(Symmetric()) ==> Symmetric()
    {
      if !p.SignalIn? {
        return Fail(WrongPortKind);
      }
      var q := p.signalIn;
      if q !in links {
        return Fail(NotLinked);
      }
      links := Without(links, q);
      q.ClearLink();
      r := Pass;
    }

    /** Hand the same array to every linked input in turn. */
    method SendValues(values: array<real>)
      requires Valid()
      modifies values, (set p | p in links)`queue
      ensures values[..] == Staged(old(values[..]), links, |links|)
      ensures forall k {:trigger links[k].queue} :: 0 <= k < |links| ==>
                links[k].queue == old(links[k].queue) + Staged(old(values[..]), links, k + 1)
    {
      ghost var v0 := values[..];
      for i := 0 to |links|
        invariant values[..] == Staged(v0, links, i)
        invariant forall k :: i <= k < |links| ==> links[k].queue == old(links[k].queue)
        invariant forall k {:trigger links[k].queue} :: 0 <= k < i ==>
                    links[k].queue == old(links[k].queue) + Staged(v0, links, k + 1)
      {
        links[i].EnqueueValues(values);
      }
    }

    /** Drop the links whose back-reference is nil. In the Ruby code the
        test reads `bad = (link.link == nil) or (link.link != self)`; `or`
        binds looser than `=`, so `bad` is only the nil test, and a link whose
        back-reference names another port is kept. */
    method RemoveBadLinks()
      requires Valid()
      modifies this`links
      ensures Valid()
      ensures forall p :: p in links <==> p in old(links) && p.link.Some?
    {
      var marked: seq<SignalInPort> := [];
      for i := 0 to |links|
        invariant forall p :: p in marked <==> p in links[..i] && p.link.None?
      {
        if links[i].link.None? {
          marked := marked + [links[i]];
        }
      }
      for i := 0 to |marked|
        invariant Valid()
        invariant forall p :: p in links <==> p in old(links) && p !in marked[..i]
      {
        links := Without(links, marked[i]);
      }
    }

    /** The evidently intended `remove_bad_links`: drop every link whose
        back-reference is not this port. Afterwards the links are symmetric. */
    method RemoveBadLinksCorrected()
      requires Valid()
      modifies this`links
      ensures Symmetric()
      ensures forall p :: p in links <==> p in old(links) && p.link == Some(this)
    {
      var marked: seq<SignalInPort> := [];
      for i := 0 to |links|
        invariant forall p :: p in marked <==> p in links[..i] && p.link != Some(this)
      {
        if links[i].link != Some(this) {
          marked := marked + [links[i]];
        }
      }
      for i := 0 to |marked|
        invariant Valid()
        invariant forall p :: p in links <==> p in old(links) && p !in marked[..i]
      {
        links := Without(links, marked[i]);
      }
    }
  }

  /** An input is linked to `a`, its link is cleared by hand and it is then
      linked to `b`. `a.remove_bad_links` as written keeps it, although its
      back-reference names `b`; the corrected version drops it. */
  method ForeignSignalLinkKept() returns (keptAsWritten: bool, keptCorrected: bool)
    ensures keptAsWritten && !keptCorrected
  {
    var a := new SignalOutPort("a");
    var b := new SignalOutPort("b");
    var p := new SignalInPort("p");
    var _ := a.AddLink(SignalIn(p));
    p.ClearLink();
    var _ := b.AddLink(SignalIn(p));
    a.RemoveBadLinks();
    keptAsWritten := p in a.links;
    var _ := a.AddLink(SignalIn(p));
    a.RemoveBadLinksCorrected();
    keptCorrected := p in a.links;
  }

  class MessageInPort {
    const name: string
    const processor: Processor
    const messageType: string
    var link: Option<MessageOutPort>

    constructor (processor: Processor, messageType: string, name: string := "UNNAMED")
      requires messageType in TYPES
      ensures this.processor == processor && this.messageType == messageType && this.name == name
      ensures link == None
    {
      this.name := name;
      this.processor := processor;
      this.messageType := messageType;
      link := None;
    }

    /** The checked constructor: a message type outside TYPES raises. */
    static method New(processor: Processor, messageType: string, name: string := "UNNAMED")
      returns (r: Result<MessageInPort>)
      ensures r.Err? <==> messageType !in TYPES
      ensures r.Err? ==> r.error == InvalidMessageType
      ensures r.Ok? ==> fresh(r.value) && r.value.link == None && r.value.name == name
      ensures r.Ok? ==> r.value.processor == processor && r.value.messageType == messageType
    {
      if messageType !in TYPES {
        return Err(InvalidMessageType);
      }
      var port := new MessageInPort(processor, messageType, name);
      r := Ok(port);
    }

    /** Whether `recv_message` succeeds on `m` while it holds `data`. */
    predicate Delivers(m: Message, data: Option<real>)
    {
      m.msgType == messageType && Accepts(processor, m, data)
    }

    /** The error `recv_message` raises on a message it does not deliver. */
    function Refusal(m: Message): Error
    {
      if m.msgType != messageType then MessageTypeMismatch else Processors.Refusal(m)
    }

    /** A message of the port's type goes to the processor, whose answer is
        returned; any other type raises before the processor is called. */
    method RecvMessage(m: Message) returns (r: Result<Reply>)
      modifies m`data, processor.Lines()`delaySeconds, processor.Lines()`delaySamples
      ensures r.Ok? <==> Delivers(m, old(m.data))
      ensures r.Err? ==> r.error == Refusal(m)
      ensures r.Ok? ==> r.value == ExpectedReply(processor, m, old(m.data))
      ensures m.msgType == messageType ==> Effect(processor, m, old(m.data), m.data)
      ensures m.msgType != messageType || r.Err? ==> m.data == old(m.data)
      ensures m.msgType != messageType || r.Err? || m.subtype != Some(SET) ==> unchanged(processor.Lines())
      ensures m.msgType == messageType && processor.DelaySecHandler? ==>
                Retuned(processor.line, m, old(m.data), old(processor.line.delaySamples), old(processor.line.delaySeconds))
    {
      if m.msgType != messageType {
        return Err(MessageTypeMismatch);
      }
      r := Process(processor, m);
    }

    method SetLink(p: Port) returns (r: Outcome)
      modifies this`link
      ensures p.MessageOut? ==> r == Pass && link == Some(p.messageOut)
      ensures !p.MessageOut? ==> r == Fail(WrongPortKind) && link == old(link)
    {
      if !p.MessageOut? {
        return Fail(WrongPortKind);
      }
      link := Some(p.messageOut);
      r := Pass;
    }

    method ClearLink()
      modifies this`link
      ensures link == None
    {
      link := None;
    }
  }

  /** The delay lines that the processors of `ports` may change. */
  function LinesOf(ports: seq<MessageInPort>): set<SigProcDelay.DelayLine>
  {
    set p | p in ports && p.processor.DelaySecHandler? :: p.processor.line
  }

  /** Extending a list of ports by one adds that port's line, if any. */
  lemma LinesOfSnoc(ports: seq<MessageInPort>, p: MessageInPort)
    ensures LinesOf(ports + [p]) == LinesOf(ports) + p.processor.Lines()
  {
  }

  /** The answers of `ports`, in order, to a message holding `data` that
      every one of them delivers. */
  function Replies(ports: seq<MessageInPort>, m: Message, data: Option<real>): (r: seq<Reply>)
    requires forall i :: 0 <= i < |ports| ==> ports[i].Delivers(m, data)
    reads LinesOf(ports)
    ensures |r| == |ports|
  {
    if ports == [] then []
    else
      var last := ports[|ports| - 1];
      assert last in ports && last.Delivers(m, data);
      Replies(ports[..|ports| - 1], m, data) + [ExpectedReply(last.processor, m, data)]
  }

  /** The index of the first port that would refuse `m` holding `data`, or
      the number of ports when every port delivers it. */
  function FirstRefused(ports: seq<MessageInPort>, m: Message, data: Option<real>): (i: nat)
    ensures i <= |ports|
    ensures forall j :: 0 <= j < i ==> ports[j].Delivers(m, data)
    ensures i < |ports| ==> !ports[i].Delivers(m, data)
  {
    if ports == [] then 0
    else if !ports[0].Delivers(m, data) then 0
    else 1 + FirstRefused(ports[1..], m, data)
  }

  /** The data a GET message holds after visiting `ports` in order: each
      DELAY_SEC handler overwrites it with its line's delay. */
  function DataAfterGets(ports: seq<MessageInPort>, data: Option<real>): Option<real>
    reads LinesOf(ports)
  {
    if ports == [] then data
    else
      var last := ports[|ports| - 1];
      assert last in ports;
      assert last.processor.DelaySecHandler? ==> last.processor.line in last.processor.Lines();
      if last.processor.DelaySecHandler? then Some(last.processor.line.delaySeconds)
      else DataAfterGets(ports[..|ports| - 1], data)
  }

  /** The delay of each line in `lines`, in samples. */
  ghost function Samples(lines: set<SigProcDelay.DelayLine>): (r: map<SigProcDelay.DelayLine, nat>)
    reads lines
    ensures r.Keys == lines && forall l :: l in lines ==> r[l] == l.delaySamples
  {
    map l: SigProcDelay.DelayLine | l in lines :: l.delaySamples
  }

  /** The delay of each line in `lines`, in seconds. */
  ghost function Seconds(lines: set<SigProcDelay.DelayLine>): (r: map<SigProcDelay.DelayLine, real>)
    reads lines
    ensures r.Keys == lines && forall l :: l in lines ==> r[l] == l.delaySeconds
  {
    map l: SigProcDelay.DelayLine | l in lines :: l.delaySeconds
  }

  /** After a SET message holding `data` has been delivered to ports whose
      lines are `done`: each of those lines is retuned from its value on
      entry (`s0`, `t0`), and every other line of `lines` still holds that
      value. */
  ghost predicate SetDone(done: set<SigProcDelay.DelayLine>, lines: set<SigProcDelay.DelayLine>, m: Message,
                          data: Option<real>, s0: map<SigProcDelay.DelayLine, nat>, t0: map<SigProcDelay.DelayLine, real>)
    reads lines
  {
    && done <= lines && lines <= s0.Keys && lines <= t0.Keys
    && (forall l :: l in done ==> Retuned(l, m, data, s0[l], t0[l]))
    && (forall l :: l in lines && l !in done ==> l.delaySamples == s0[l] && l.delaySeconds == t0[l])
  }

  /** `recv_message` on one port of a delivery in link order, with the
      bookkeeping that carries `SetDone` past it: `prefix` are the ports
      already delivered to, `lines` every line the delivery may touch. */
  method DeliverNext(port: MessageInPort, m: Message, ghost prefix: seq<MessageInPort>,
                     ghost lines: set<SigProcDelay.DelayLine>,
                     ghost s0: map<SigProcDelay.DelayLine, nat>, ghost t0: map<SigProcDelay.DelayLine, real>)
    returns (r: Result<Reply>)
    requires port.processor.Lines() <= lines
    requires m.subtype == Some(SET) ==> SetDone(LinesOf(prefix), lines, m, m.data, s0, t0)
    modifies m`data, port.processor.Lines()`delaySeconds, port.processor.Lines()`delaySamples
    ensures r.Ok? <==> port.Delivers(m, old(m.data))
    ensures r.Err? ==> r.error == port.Refusal(m)
    ensures r.Ok? ==> r.value == ExpectedReply(port.processor, m, old(m.data))
    ensures m.msgType == port.messageType ==> Effect(port.processor, m, old(m.data), m.data)
    ensures m.msgType != port.messageType || r.Err? ==> m.data == old(m.data)
    ensures m.msgType != port.messageType || r.Err? || m.subtype != Some(SET) ==> unchanged(lines)
    ensures m.subtype == Some(SET) && r.Ok? ==> SetDone(LinesOf(prefix + [port]), lines, m, old(m.data), s0, t0)
    ensures m.subtype == Some(SET) && r.Err? ==> SetDone(LinesOf(prefix), lines, m, old(m.data), s0, t0)
  {
    r := port.RecvMessage(m);
    LinesOfSnoc(prefix, port);
  }

  class MessageOutPort {
    const name: string
    /** A Ruby Set of inputs, in insertion order. */
    var links: seq<MessageInPort>

    constructor (name: string := "UNNAMED")
      ensures this.name == name && links == []
    {
      this.name := name;
      links := [];
    }

    ghost predicate Valid()
      reads this
    {
      NoDuplicates(links)
    }

    /** Every linked input names this port as its producer. */
    ghost predicate Symmetric()
      reads this, set p | p in links
    {
      Valid() && forall p :: p in links ==> p.link == Some(this)
    }

    /** Deliver `m` to every linked input in link order and collect the
        answers. The first input that raises stops the delivery, and its
        error is the result. */
    method SendMessage(m: Message) returns (r: Result<seq<Reply>>)
      requires Valid()
      modifies m`data, LinesOf(links)`delaySeconds, LinesOf(links)`delaySamples
      ensures r.Ok? <==> FirstRefused(links, m, old(m.data)) == |links|
      ensures r.Err? ==> r.error == links[FirstRefused(links, m, old(m.data))].Refusal(m)
      ensures r.Ok? ==> r.value == old(Replies(links, m, m.data))
      ensures m.subtype != Some(GET) ==> m.data == old(m.data)
      ensures m.subtype == Some(GET) && r.Ok? ==> m.data == old(DataAfterGets(links, m.data))
      ensures m.subtype != Some(SET) ==> unchanged(LinesOf(links))
      ensures m.subtype == Some(SET) ==>
                SetDone(LinesOf(links[..FirstRefused(links, m, old(m.data))]), LinesOf(links), m, old(m.data),
                        old(Samples(LinesOf(links))), old(Seconds(LinesOf(links))))
    {
      ghost var lines := LinesOf(links);
      ghost var data := m.data;
      ghost var first := FirstRefused(links, m, data);
      ghost var s0, t0 := Samples(lines), Seconds(lines);
      var replies: seq<Reply> := [];
      var refusal: Option<Error> := None;
      for i := 0 to |links|
        invariant i <= first && refusal.None?
        invariant replies == old(Replies(links[..i], m, data))
        invariant m.subtype != Some(GET) ==> m.data == data
        invariant m.subtype == Some(GET) ==> m.data == old(DataAfterGets(links[..i], data))
        invariant m.subtype != Some(SET) ==> unchanged(lines)
        invariant m.subtype == Some(SET) ==> SetDone(LinesOf(links[..i]), lines, m, data, s0, t0)
      {
        var port := links[i];
        assert links[..i + 1] == links[..i] + [port] && links[..i + 1][..i] == links[..i];
        assert port.processor.Lines() <= lines;
        assert port.Delivers(m, m.data) == port.Delivers(m, data);
        var reply := DeliverNext(port, m, links[..i], lines, s0, t0);
        if reply.Err? {
          assert i == first;
          refusal := Some(reply.error);
          break;
        }
        replies := replies + [reply.value];
      }
      assert m.subtype == Some(SET) ==> SetDone(LinesOf(links[..first]), lines, m, data, s0, t0);
      if refusal.Some? {
        return Err(refusal.value);
      }
      assert links[..|links|] == links;
      r := Ok(replies);
    }

    /** Link an unlinked message input: it joins the links and its
        back-reference is set to this port. */
    method AddLink(p: Port) returns (r: Outcome)
      requires Valid()
      modifies this`links, p.MessageIns()`link
      ensures Valid()
      ensures !p.MessageIn? ==> r == Fail(WrongPortKind) && links == old(links)
      ensures p.MessageIn? && old(p.messageIn.link).Some? ==>
                r == Fail(AlreadyLinked) && links == old(links) && p.messageIn.link == old(p.messageIn.link)
      ensures p.MessageIn? && old(p.messageIn.link).None? ==>
                && r == Pass && p.messageIn.link == Some(this)
                && links == old(links) + (if p.messageIn in old(links) then [] else [p.messageIn])
      ensures old(Symmetric()) ==> Symmetric()
    {
      if !p.MessageIn? {
        return Fail(WrongPortKind);
      }
      var q := p.messageIn;
      if q.link.Some? {
        return Fail(AlreadyLinked);
      }
      if q !in links {
        links := links + [q];
      }
      var _ := q.SetLink(MessageOut(this));
      r := Pass;
    }

    /** Unlink a linked message input and clear its back-reference. */
    method RemoveLink(p: Port) returns (r: Outcome)
      requires Valid()
      modifies this`links, p.MessageIns()`link
      ensures Valid()
      ensures !p.MessageIn? ==> r == Fail(WrongPortKind) && links == old(links)
      ensures p.MessageIn? && p.messageIn !in old(links) ==>
                r == Fail(NotLinked) && links == old(links) && p.messageIn.link == old(p.messageIn.link)
      ensures p.MessageIn? && p.messageIn in old(links) ==>
                r == Pass && links == Without(old(links), p.messageIn) && p.messageIn.link == None
      ensures old(Symmetric()) ==> Symmetric()
    {
      if !p.MessageIn? {
        return Fail(WrongPortKind);
      }
      var q := p.messageIn;
      if q !in links {
        return Fail(NotLinked);
      }
      links := Without(links, q);
      q.ClearLink();
      r := Pass;
    }

    /** As for signal ports, only links with a nil back-reference are
        dropped, because of how `or` binds in the Ruby test. */
    method RemoveBadLinks()
      requires Valid()
      modifies this`links
      ensures Valid()
      ensures forall p :: p in links <==> p in old(links) && p.link.Some?
    {
      var marked: seq<MessageInPort> := [];
      for i := 0 to |links|
        invariant forall p :: p in marked <==> p in links[..i] && p.link.None?
      {
        if links[i].link.None? {
          marked := marked + [links[i]];
        }
      }
      for i := 0 to |marked|
        invariant Valid()
        invariant forall p :: p in links <==> p in old(links) && p !in marked[..i]
      {
        links := Without(links, marked[i]);
      }
    }

    /** The evidently intended `remove_bad_links`: drop every link whose
        back-reference is not this port. */
    method RemoveBadLinksCorrected()
      requires Valid()
      modifies this`links
      ensures Symmetric()
      ensures forall p :: p in links <==> p in old(links) && p.link == Some(this)
    {
      var marked: seq<MessageInPort> := [];
      for i := 0 to |links|
        invariant forall p :: p in marked <==> p in links[..i] && p.link != Some(this)
      {
        if links[i].link != Some(this) {
          marked := marked + [links[i]];
        }
      }
      for i := 0 to |marked|
        invariant Valid()
        invariant forall p :: p in links <==> p in old(links) && p !in marked[..i]
      {
        links := Without(links, marked[i]);
      }
    }
  }

  /** The message-port counterpart of `ForeignSignalLinkKept`. */
  method ForeignMessageLinkKept() returns (keptAsWritten: bool, keptCorrected: bool)
    ensures keptAsWritten && !keptCorrected
  {
    var a := new MessageOutPort("a");
    var b := new MessageOutPort("b");
    var p := new MessageInPort(Echo, CONTROL);
    var _ := a.AddLink(MessageIn(p));
    p.ClearLink();
    var _ := b.AddLink(MessageIn(p));
    a.RemoveBadLinks();
    keptAsWritten := p in a.links;
    var _ := a.AddLink(MessageIn(p));
    a.RemoveBadLinksCorrected();
    keptCorrected := p in a.links;
  }
}
