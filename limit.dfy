/** SigProc's `Limit`: a validated limit type with its limit values, and the
    limiting it applies to a value. A `Limit` is never changed after it is
    built, so it is a value here. Limit types arrive as Ruby symbols, written
    as strings, and are parsed into `LimitType` when the limit is built. */
module Limits {
  import opened Wrappers
  import Limiters

  const TYPE_NONE := "limitTypeNone"
  const TYPE_LOWER := "limitTypeLower"
  const TYPE_UPPER := "limitTypeUpper"
  const TYPE_RANGE := "limitTypeRange"
  const TYPE_ENUM := "limitTypeEnum"
  const TYPES := [TYPE_NONE, TYPE_LOWER, TYPE_UPPER, TYPE_RANGE, TYPE_ENUM]

  /** The five members of `Limit::TYPES`. */
  datatype LimitType = TypeNone | TypeLower | TypeUpper | TypeRange | TypeEnum

  /** The symbol naming each limit type. */
  function Symbol(t: LimitType): (s: string)
    ensures s in TYPES
  {
    match t
    case TypeNone => TYPE_NONE
    case TypeLower => TYPE_LOWER
    case TypeUpper => TYPE_UPPER
    case TypeRange => TYPE_RANGE
    case TypeEnum => TYPE_ENUM
  }

  /** The limit type a symbol names; a symbol outside `TYPES` names none. */
  function ParseLimitType(s: string): (r: Option<LimitType>)
    ensures r.Some? <==> s in TYPES
    ensures r.Some? ==> Symbol(r.value) == s
  {
    if s == TYPE_NONE then Some(TypeNone)
    else if s == TYPE_LOWER then Some(TypeLower)
    else if s == TYPE_UPPER then Some(TypeUpper)
    else if s == TYPE_RANGE then Some(TypeRange)
    else if s == TYPE_ENUM then Some(TypeEnum)
    else None
  }

  /** Every limit type is named by a distinct symbol that parses back to it. */
  lemma SymbolRoundTrip(t: LimitType)
    ensures ParseLimitType(Symbol(t)) == Some(t)
  {
    assert TYPE_NONE != TYPE_LOWER && TYPE_NONE != TYPE_UPPER && TYPE_NONE != TYPE_RANGE && TYPE_NONE != TYPE_ENUM;
    assert TYPE_LOWER != TYPE_UPPER && TYPE_LOWER != TYPE_RANGE && TYPE_LOWER != TYPE_ENUM;
    assert TYPE_UPPER != TYPE_RANGE && TYPE_UPPER != TYPE_ENUM && TYPE_RANGE != TYPE_ENUM;
  }

  datatype Limit = Limit(limitType: LimitType, limitValues: seq<real>)

  predicate NoDuplicates(vs: seq<real>)
  {
    forall i, j :: 0 <= i < j < |vs| ==> vs[i] != vs[j]
  }

  /** The values each type accepts: none for NONE, one for LOWER and UPPER,
      an increasing pair for RANGE, and at least one value, none repeated,
      for ENUM. */
  predicate ValuesValid(limitType: LimitType, vs: seq<real>)
  {
    match limitType
    case TypeNone => |vs| == 0
    case TypeLower => |vs| == 1
    case TypeUpper => |vs| == 1
    case TypeRange => |vs| == 2 && vs[1] > vs[0]
    case TypeEnum => |vs| >= 1 && NoDuplicates(vs)
  }

  predicate Valid(l: Limit)
  {
    ValuesValid(l.limitType, l.limitValues)
  }

  /** Construction: an unknown type raises first, then values that do not
      fit the type. */
  function MakeLimit(limitType: string, limitValues: seq<real>): (r: Result<Limit>)
    ensures limitType !in TYPES ==> r == Err(InvalidLimitType)
    ensures limitType in TYPES && !ValuesValid(ParseLimitType(limitType).value, limitValues) ==>
              r == Err(InvalidLimitValues)
    ensures r.Ok? <==> limitType in TYPES && ValuesValid(ParseLimitType(limitType).value, limitValues)
    ensures r.Ok? ==> Valid(r.value) && Symbol(r.value.limitType) == limitType && r.value.limitValues == limitValues
  {
    match ParseLimitType(limitType)
    case None => Err(InvalidLimitType)
    case Some(t) =>
      if !ValuesValid(t, limitValues) then Err(InvalidLimitValues)
      else Ok(Limit(t, limitValues))
  }

  /** The default limit of an input port: no limiting. */
  const NO_LIMIT := Limit(TypeNone, [])

  function Abs(x: real): real
  {
    if x < 0.0 then -x else x
  }

  /** The index, among the first `n` values, that the ENUM scan settles on:
      the nearest value to `value`, the earliest one on a tie. */
  function NearestIndex(vs: seq<real>, value: real, n: nat): (i: nat)
    requires 1 <= n <= |vs|
    ensures i < n
    ensures forall j :: 0 <= j < n ==> Abs(vs[i] - value) <= Abs(vs[j] - value)
    ensures forall j :: 0 <= j < i ==> Abs(vs[j] - value) > Abs(vs[i] - value)
  {
    if n == 1 then 0
    else
      var p := NearestIndex(vs, value, n - 1);
      if Abs(vs[n - 1] - value) < Abs(vs[p] - value) then n - 1 else p
  }

  /** One more value either takes over, when strictly nearer, or not. */
  lemma NearestIndexStep(vs: seq<real>, value: real, n: nat)
    requires 1 <= n < |vs|
    ensures NearestIndex(vs, value, n + 1) ==
              if Abs(vs[n] - value) < Abs(vs[NearestIndex(vs, value, n)] - value) then n
              else NearestIndex(vs, value, n)
  {
  }

  /** What `limit` returns for a valid limit. */
  function Apply(l: Limit, value: real): (r: real)
    requires Valid(l)
    ensures l.limitType == TypeNone ==> r == value
    ensures l.limitType == TypeLower ==> r >= l.limitValues[0] && r >= value && (r == value || r == l.limitValues[0])
    ensures l.limitType == TypeUpper ==> r <= l.limitValues[0] && r <= value && (r == value || r == l.limitValues[0])
    ensures l.limitType == TypeRange ==>
              l.limitValues[0] <= r <= l.limitValues[1] && (l.limitValues[0] <= value <= l.limitValues[1] ==> r == value)
    ensures l.limitType == TypeEnum ==>
              && r in l.limitValues
              && forall v :: v in l.limitValues ==> Abs(r - value) <= Abs(v - value)
  {
    var vs := l.limitValues;
    if l.limitType == TypeNone then value
    else if l.limitType == TypeLower then (if value > vs[0] then value else vs[0])
    else if l.limitType == TypeUpper then (if value < vs[0] then value else vs[0])
    else if l.limitType == TypeRange then
      (if value < vs[0] then vs[0] else if value > vs[1] then vs[1] else value)
    else
      vs[NearestIndex(vs, value, |vs|)]
  }

  /** `limit` as the Ruby code computes it: the ENUM case scans the values
      once, keeping the first strictly nearer one. */
  method LimitValue(l: Limit, value: real) returns (r: real)
    requires Valid(l)
    ensures r == Apply(l, value)
  {
    var vs := l.limitValues;
    if l.limitType == TypeNone {
      r := value;
    } else if l.limitType == TypeLower {
      var lower := vs[0];
      r := if value > lower then value else lower;
    } else if l.limitType == TypeUpper {
      var upper := vs[0];
      r := if value < upper then value else upper;
    } else if l.limitType == TypeRange {
      var lower, upper := vs[0], vs[1];
      r := value;
      if value < lower {
        r := lower;
      } else if value > upper {
        r := upper;
      }
    } else {
      var at := ScanNearest(vs, value);
      r := vs[at];
    }
  }

  /** The ENUM branch of `limit`: one pass over the values, keeping the
      first strictly nearer one. */
  method ScanNearest(vs: seq<real>, value: real) returns (lowestDiffAt: nat)
    requires |vs| >= 1
    ensures lowestDiffAt == NearestIndex(vs, value, |vs|)
  {
    var lowestDiff := Abs(vs[0] - value);
    lowestDiffAt := 0;
    for i := 1 to |vs|
      invariant lowestDiffAt == NearestIndex(vs, value, i)
      invariant lowestDiff == Abs(vs[lowestDiffAt] - value)
    {
      var diff := Abs(vs[i] - value);
      NearestIndexStep(vs, value, i);
      if diff < lowestDiff {
        lowestDiff := diff;
        lowestDiffAt := i;
      }
    }
  }

  /** The LOWER, UPPER and RANGE limits agree with the matching limiters. */
  lemma AgreesWithLimiters(l: Limit, value: real)
    requires Valid(l)
    ensures l.limitType == TypeLower ==> Apply(l, value) == Limiters.LowerLimit(l.limitValues[0], value)
    ensures l.limitType == TypeUpper ==> Apply(l, value) == Limiters.UpperLimit(l.limitValues[0], value)
    ensures l.limitType == TypeRange ==>
              Apply(l, value) == Limiters.RangeLimit(l.limitValues[0], l.limitValues[1], value)
  {
  }

  /** Limiting is idempotent for every type. For ENUM this needs the
      no-duplicates rule: a listed value is its own first nearest value. */
  lemma ApplyIdempotent(l: Limit, value: real)
    requires Valid(l)
    ensures Apply(l, Apply(l, value)) == Apply(l, value)
  {
    if l.limitType == TypeEnum {
      var vs := l.limitValues;
      var i := NearestIndex(vs, value, |vs|);
      var k := NearestIndex(vs, vs[i], |vs|);
      assert Abs(vs[k] - vs[i]) == 0.0;
      assert vs[k] == vs[i];
      assert k == i;
    }
  }

  /** The documented ENUM examples over [0.0, 2.5, 5.0]; 1.25 is equally far
      from 0.0 and 2.5 and goes to the earlier value. */
  lemma EnumExamples()
    ensures var l := Limit(TypeEnum, [0.0, 2.5, 5.0]);
            && Valid(l)
            && Apply(l, 0.5) == 0.0 && Apply(l, 1.25) == 0.0 && Apply(l, 1.75) == 2.5
            && Apply(l, 2.5) == 2.5 && Apply(l, 2.6) == 2.5 && Apply(l, 4.5) == 5.0
  {
    var l := Limit(TypeEnum, [0.0, 2.5, 5.0]);
    assert ValuesValid(l.limitType, l.limitValues);
  }
}
