/**
 * Pieces shared by the three generations of value validators: the strict
 * level handed to the converter, the converter itself (the typepy classes,
 * outside the model, given as functions), conditions and the in-order
 * condition check, and the bound conditions that `max_len`, `min_len`,
 * `max_value` and `min_value` append.
 */
module Checks {
  import opened Python

  /** typepy.StrictLevel.MIN and typepy.StrictLevel.MAX. */
  datatype Strict = StrictMin | StrictMax

  /**
   * A typepy converter class applied to a value: `is_type()` and `convert()`,
   * where `None` from `convert` stands for typepy.TypeConversionError.
   */
  datatype Converter = Converter(isType: (Value, Strict) -> bool, convert: (Value, Strict) -> Option<Value>)

  /**
   * A condition: a callable whose result's truthiness decides, and which may
   * itself raise.
   */
  datatype Condition = Condition(name: string, test: Value -> Result<bool>)

  /** What running the conditions in order over a value comes to. */
  datatype Verdict = AllPass | Fails(index: nat) | Raises(index: nat, error: Exc)

  predicate PassesUpTo(conds: seq<Condition>, v: Value, n: nat)
    requires n <= |conds|
  {
    forall j :: 0 <= j < n ==> conds[j].test(v) == Ok(true)
  }

  /** The conditions from position `from` on, first falsy result or exception deciding. */
  function CheckFrom(conds: seq<Condition>, v: Value, from: nat): (r: Verdict)
    requires from <= |conds|
    requires PassesUpTo(conds, v, from)
    ensures r.AllPass? <==> PassesUpTo(conds, v, |conds|)
    ensures r.Fails? ==> from <= r.index < |conds| && PassesUpTo(conds, v, r.index)
                         && conds[r.index].test(v) == Ok(false)
    ensures r.Raises? ==> from <= r.index < |conds| && PassesUpTo(conds, v, r.index)
                          && conds[r.index].test(v) == Err(r.error)
    decreases |conds| - from
  {
    if from == |conds| then AllPass
    else match conds[from].test(v)
      case Ok(b) => if b then CheckFrom(conds, v, from + 1) else Fails(from)
      case Err(e) => Raises(from, e)
  }

  /** `for condition in conditions: if not condition(v): raise ...`. */
  function Check(conds: seq<Condition>, v: Value): (r: Verdict)
    ensures r.AllPass? <==> PassesUpTo(conds, v, |conds|)
    ensures r.Fails? ==> r.index < |conds| && PassesUpTo(conds, v, r.index)
                         && conds[r.index].test(v) == Ok(false)
    ensures r.Raises? ==> r.index < |conds| && PassesUpTo(conds, v, r.index)
                          && conds[r.index].test(v) == Err(r.error)
  {
    CheckFrom(conds, v, 0)
  }

  /** The exception a convert raises for a verdict other than AllPass. */
  function VerdictError(r: Verdict): Exc
    requires !r.AllPass?
  {
    if r.Fails? then ValueError(ConditionFailed(r.index)) else r.error
  }

  /** Adding a condition that rejects the value makes the whole check reject it. */
  lemma {:induction false} AppendedRejects(conds: seq<Condition>, c: Condition, v: Value)
    requires c.test(v) == Ok(false)
    ensures !Check(conds + [c], v).AllPass?
  {
    var all := conds + [c];
    assert all[|conds|] == c;
    assert !PassesUpTo(all, v, |all|);
  }

  /** `len(val)`: defined for strings, lists and dicts; TypeError otherwise. */
  function Len(v: Value): Option<nat>
  {
    match v
    case StrV(s) => Some(|s|)
    case ListV(items) => Some(|items|)
    case DictV(entries) => Some(|entries|)
    case _ => None
  }

  /** The number a comparison sees: ints, and bools as 0 and 1; TypeError otherwise. */
  function Number(v: Value): Option<int>
  {
    match v
    case IntV(i) => Some(i)
    case BoolV(b) => Some(if b then 1 else 0)
    case _ => None
  }

  /** The condition `max_len(length)` appends. */
  function MaxLen(length: int): Condition
  {
    Condition("len(val) <= " + IntStr(length),
      v => match Len(v) case Some(n) => Ok(n <= length) case None => Err(TypeError("object has no len()")))
  }

  /** The condition `min_len(length)` appends. */
  function MinLen(length: int): Condition
  {
    Condition("len(val) >= " + IntStr(length),
      v => match Len(v) case Some(n) => Ok(n >= length) case None => Err(TypeError("object has no len()")))
  }

  /** The condition `max_value(value)` appends. */
  function MaxValue(bound: int): Condition
  {
    Condition("val <= " + IntStr(bound),
      v => match Number(v) case Some(n) => Ok(n <= bound) case None => Err(TypeError("'<=' not supported")))
  }

  /** The condition `min_value(value)` appends. */
  function MinValue(bound: int): Condition
  {
    Condition("val >= " + IntStr(bound),
      v => match Number(v) case Some(n) => Ok(n >= bound) case None => Err(TypeError("'>=' not supported")))
  }

  /** The bound conditions answer the comparison they are named after. */
  lemma BoundTests(n: int, s: string, i: int)
    ensures MaxLen(n).test(StrV(s)) == Ok(|s| <= n) && MinLen(n).test(StrV(s)) == Ok(|s| >= n)
    ensures MaxValue(n).test(IntV(i)) == Ok(i <= n) && MinValue(n).test(IntV(i)) == Ok(i >= n)
    ensures MaxLen(n).test(IntV(i)).Err? && MaxValue(n).test(StrV(s)).Err?
  {
  }

  /** After `max_len(n)` a string longer than n no longer passes the conditions. */
  lemma MaxLenRejects(conds: seq<Condition>, n: int, s: string)
    requires |s| > n
    ensures !Check(conds + [MaxLen(n)], StrV(s)).AllPass?
  {
    AppendedRejects(conds, MaxLen(n), StrV(s));
  }

  /** After `min_len(n)` a string shorter than n no longer passes the conditions. */
  lemma MinLenRejects(conds: seq<Condition>, n: int, s: string)
    requires |s| < n
    ensures !Check(conds + [MinLen(n)], StrV(s)).AllPass?
  {
    AppendedRejects(conds, MinLen(n), StrV(s));
  }

  /** After `max_value(b)` an integer above b no longer passes the conditions. */
  lemma MaxValueRejects(conds: seq<Condition>, b: int, i: int)
    requires i > b
    ensures !Check(conds + [MaxValue(b)], IntV(i)).AllPass?
  {
    AppendedRejects(conds, MaxValue(b), IntV(i));
  }

  /** After `min_value(b)` an integer below b no longer passes the conditions. */
  lemma MinValueRejects(conds: seq<Condition>, b: int, i: int)
    requires i < b
    ensures !Check(conds + [MinValue(b)], IntV(i)).AllPass?
  {
    AppendedRejects(conds, MinValue(b), IntV(i));
  }

  /** The value `eval` leaves: a string is evaluated if that succeeds, anything else is untouched. */
  function TryEval(eval: string -> Option<Value>, v: Value): (r: Value)
    ensures !v.StrV? ==> r == v
    ensures v.StrV? && eval(v.s).None? ==> r == v
  {
    if v.StrV? && eval(v.s).Some? then eval(v.s).value else v
  }

  /** What `set_choices` / `choices` is given. */
  datatype ChoicesArg =
    | NoChoices                                   // None
    | EnumClass(members: seq<(string, Value)>)    // an Enum subclass: its members' names and values
    | Iterable(v: Value)                          // anything `list()` is applied to

  function Values(members: seq<(string, Value)>): (r: seq<Value>)
    ensures |r| == |members| && forall i :: 0 <= i < |members| ==> r[i] == members[i].1
  {
    seq(|members|, i requires 0 <= i < |members| => members[i].1)
  }
}
