/** The older generation of SigProc signal ports. An `InputPort` limits each
    value with its `Limit` object and queues it; `dequeue_values` drains the
    whole queue. An `OutputPort` keeps a set of inputs whose continuity flag
    matches its own and hands every batch to each of them; inputs keep no
    back-reference, so one input may be fed by several outputs. */
module LegacyPorts {
  import opened Wrappers
  import opened Limits
  import Network

  /** Every value of `vs` limited by `l`. */
  function ApplyAll(l: Limit, vs: seq<real>): (r: seq<real>)
    requires Valid(l)
    ensures |r| == |vs| && forall i :: 0 <= i < |vs| ==> r[i] == Apply(l, vs[i])
  {
    seq(|vs|, i requires 0 <= i < |vs| => Apply(l, vs[i]))
  }

  /** The default limit leaves a batch unchanged, and limiting a batch twice
      is limiting it once. */
  lemma ApplyAllProperties(l: Limit, vs: seq<real>)
    requires Valid(l)
    ensures l == NO_LIMIT ==> ApplyAll(l, vs) == vs
    ensures ApplyAll(l, ApplyAll(l, vs)) == ApplyAll(l, vs)
  {
    forall i | 0 <= i < |vs|
      ensures Apply(l, Apply(l, vs[i])) == Apply(l, vs[i])
    {
      ApplyIdempotent(l, vs[i]);
    }
  }

  /** Under a RANGE limit every limited value lies in the range. */
  lemma ApplyAllWithinRange(l: Limit, vs: seq<real>)
    requires Valid(l) && l.limitType == TypeRange
    ensures forall i :: 0 <= i < |vs| ==> l.limitValues[0] <= ApplyAll(l, vs)[i] <= l.limitValues[1]
  {
  }

  /** A limit built by `Limit.new`, which rejects invalid ones. */
  type CheckedLimit = l: Limit | Limits.Valid(l) witness NO_LIMIT

  class InputPort {
    const name: string
    const continuous: bool
    const limit: CheckedLimit
    var queue: seq<real>

    /** The limit defaults to TYPE_NONE; the queue starts empty. */
    constructor (name: string, continuous: bool, limit: CheckedLimit := NO_LIMIT)
      ensures queue == []
      ensures this.name == name && this.continuous == continuous && this.limit == limit
    {
      this.name := name;
      this.continuous := continuous;
      this.limit := limit;
      queue := [];
    }

    /** A batch as this port's limit leaves it. */
    function Limited(vs: seq<real>): (r: seq<real>)
      ensures |r| == |vs|
    {
      ApplyAll(limit, vs)
    }

    /** Limit the caller's array in place, then append it to the queue. */
    method EnqueueValues(values: array<real>)
      modifies this`queue, values
      ensures values[..] == Limited(old(values[..]))
      ensures queue == old(queue) + values[..]
    {
      for i := 0 to values.Length
        modifies values
        invariant forall k :: 0 <= k < i ==> values[k] == Apply(limit, old(values[k]))
        invariant forall k :: i <= k < values.Length ==> values[k] == old(values[k])
      {
        values[i] := LimitValue(limit, values[i]);
      }
      queue := queue + values[..];
    }

    /** Hand back the whole queue and start a new, empty one. */
    method DequeueValues() returns (values: seq<real>)
      modifies this`queue
      ensures values == old(queue) && queue == []
    {
      values := queue;
      queue := [];
    }
  }

  /** Two batches enqueued one after the other come back from one dequeue as
      the first limited batch followed by the second. */
  method EnqueueTwiceThenDequeue(limit: Limit, first: seq<real>, second: seq<real>) returns (values: seq<real>)
    requires Limits.Valid(limit)
    ensures values == ApplyAll(limit, first) + ApplyAll(limit, second)
  {
    var port := new InputPort("in", false, limit);
    var a := new real[|first|](i requires 0 <= i < |first| => first[i]);
    var b := new real[|second|](i requires 0 <= i < |second| => second[i]);
    assert a[..] == first && b[..] == second;
    port.EnqueueValues(a);
    ghost var limitedFirst := a[..];
    assert port.queue == limitedFirst;
    port.EnqueueValues(b);
    assert port.queue == limitedFirst + b[..];
    values := port.DequeueValues();
  }

  /** The batch the `k`-th link of a fan-out receives: each link limits the
      shared array in place, so a link receives it as limited by every link
      before it. */
  function Staged(vs: seq<real>, ports: seq<InputPort>, k: nat): (r: seq<real>)
    requires k <= |ports|
    ensures |r| == |vs|
  {
    if k == 0 then vs else ports[k - 1].Limited(Staged(vs, ports, k - 1))
  }

  /** When every link has the default limit, every link receives the batch
      as sent. */
  lemma {:induction false} StagedNoLimit(vs: seq<real>, ports: seq<InputPort>, k: nat)
    requires k <= |ports|
    requires forall j :: 0 <= j < k ==> ports[j].limit == NO_LIMIT
    ensures Staged(vs, ports, k) == vs
  {
    if k > 0 {
      StagedNoLimit(vs, ports, k - 1);
      ApplyAllProperties(NO_LIMIT, vs);
    }
  }

  /** After the first `i` links of a fan-out have been served, link `k`
      holds its queue `q0[k]` extended by its batch exactly when `k < i`. */
  ghost predicate Delivered(vs: seq<real>, ports: seq<InputPort>, q0: seq<seq<real>>, qs: seq<seq<real>>, i: nat)
  {
    i <= |ports| == |q0| == |qs| &&
    (forall k :: i <= k < |ports| ==> qs[k] == q0[k]) &&
    (forall k :: 0 <= k < i ==> qs[k] == q0[k] + Staged(vs, ports, k + 1))
  }

  lemma DeliveredStep(vs: seq<real>, ports: seq<InputPort>, q0: seq<seq<real>>, qs: seq<seq<real>>, i: nat)
    requires i < |ports| && Delivered(vs, ports, q0, qs, i)
    ensures Delivered(vs, ports, q0, qs[i := qs[i] + Staged(vs, ports, i + 1)], i + 1)
  {
  }

  lemma DeliveredAll(vs: seq<real>, ports: seq<InputPort>, q0: seq<seq<real>>, qs: seq<seq<real>>)
    requires Delivered(vs, ports, q0, qs, |ports|)
    ensures forall k :: 0 <= k < |ports| ==> qs[k] == q0[k] + Staged(vs, ports, k + 1)
  {
  }

  class OutputPort {
    const name: string
    const continuous: bool
    /** A Ruby Set of inputs, in insertion order. */
    var links: seq<InputPort>

    constructor (name: string, continuous: bool)
      ensures this.name == name && this.continuous == continuous && links == []
    {
      this.name := name;
      this.continuous := continuous;
      links := [];
    }

    ghost predicate Valid()
      reads this
    {
      Network.NoDuplicates(links)
    }

    /** Add an input with the same continuity; adding it again changes
        nothing, and a continuity mismatch raises. */
    method AddLink(p: InputPort) returns (r: Outcome)
      requires Valid()
      modifies this`links
      ensures Valid()
      ensures p.continuous != continuous ==> r == Fail(ContinuityMismatch) && links == old(links)
      ensures p.continuous == continuous && p in old(links) ==> r == Pass && links == old(links)
      ensures p.continuous == continuous && p !in old(links) ==> r == Pass && links == old(links) + [p]
    {
      if p.continuous != continuous {
        return Fail(ContinuityMismatch);
      }
      if p !in links {
        links := links + [p];
      }
      r := Pass;
    }

    /** Delete an input; an input that is not linked is ignored. */
    method RemoveLink(p: InputPort)
      requires Valid()
      modifies this`links
      ensures Valid()
      ensures p !in links
      ensures forall q :: q in old(links) && q != p ==> q in links
      ensures forall q :: q in links ==> q in old(links)
      ensures p !in old(links) ==> links == old(links)
      ensures links == Network.Without(old(links), p)
    {
      links := Network.Without(links, p);
    }

    /** Hand the same array to every linked input in turn. */
    method SendValues(values: array<real>)
      requires Valid()
      modifies values, (set p | p in links)`queue
      ensures values[..] == Staged(old(values[..]), links, |links|)
      ensures forall k {:trigger links[k].queue} :: 0 <= k < |links| ==>
                links[k].queue == old(links[k].queue) + Staged(old(values[..]), links, k + 1)
    {
      ghost var v0 := values[..];
      var ls := links;
      ghost var q0 := seq(|ls|, k requires 0 <= k < |ls| reads ls => ls[k].queue);
      ghost var qs := q0;
      for i := 0 to |ls|
        invariant |qs| == |ls|
        invariant forall k :: 0 <= k < |ls| ==> ls[k].queue == qs[k]
        invariant values[..] == Staged(v0, ls, i)
        invariant Delivered(v0, ls, q0, qs, i)
      {
        ls[i].EnqueueValues(values);
        DeliveredStep(v0, ls, q0, qs, i);
        qs := qs[i := qs[i] + values[..]];
      }
      DeliveredAll(v0, ls, q0, qs);
    }
  }

  /** Without back-references one input can be fed by two outputs: a batch
      sent through each of them is queued twice. */
  method SharedInput(vs: seq<real>) returns (queued: seq<real>)
    ensures queued == vs + vs
  {
    var input := new InputPort("in", true);
    var a := new OutputPort("a", true);
    var b := new OutputPort("b", true);
    var _ := a.AddLink(input);
    var _ := b.AddLink(input);
    var batch := new real[|vs|](i requires 0 <= i < |vs| => vs[i]);
    assert batch[..] == vs;
    ApplyAllProperties(NO_LIMIT, vs);
    a.SendValues(batch);
    assert batch[..] == vs;
    b.SendValues(batch);
    queued := input.DequeueValues();
  }
}
