/**
 * Checkboxes and check bars (iotools/gui/widget/checkbox.py): a checkbox's
 * state is True, False or, for a three-state box, None, translated to and
 * from Qt's check states by two dicts; a check bar is a row of two-state
 * checkboxes whose state is the dict from each box's text to its state.
 */
module Checkboxes {
  import opened Python
  import opened Aliases

  /** Qt's check states. */
  datatype CheckState = Checked | Unchecked | PartiallyChecked

  /** `_values_to_states`. */
  const ValuesToStates: seq<(Value, CheckState)> :=
    [(BoolV(true), Checked), (BoolV(false), Unchecked), (NoneV, PartiallyChecked)]

  /** `{val: key for key, val in d.items()}`: each entry, in order, stored under its value. */
  function Invert<K, V(==,!new)>(entries: seq<(K, V)>): (r: seq<(V, K)>)
  {
    InvertFirst(entries, |entries|)
  }

  /** The inverse of the first `n` entries. */
  function InvertFirst<K, V(==,!new)>(entries: seq<(K, V)>, n: nat): (r: seq<(V, K)>)
    requires n <= |entries|
  {
    if n == 0 then [] else Set(InvertFirst(entries, n - 1), entries[n - 1].1, entries[n - 1].0)
  }

  /** `_states_to_values`. */
  const StatesToValues: seq<(CheckState, Value)> := Invert(ValuesToStates)

  /** In a dict whose keys are distinct, each entry is what its key looks up. */
  lemma {:induction false} GetAt<K, V>(entries: seq<(K, V)>, i: nat)
    requires i < |entries| && Distinct(Keys(entries))
    ensures Get(entries, entries[i].0) == Some(entries[i].1)
  {
    if i > 0 {
      var ks, rest := Keys(entries), entries[1..];
      assert ks[0] != ks[i];
      forall a, b | 0 <= a < b < |rest|
        ensures Keys(rest)[a] != Keys(rest)[b]
      {
        assert ks[a + 1] != ks[b + 1];
      }
      GetAt(rest, i - 1);
      assert rest[i - 1] == entries[i];
    }
  }

  /** Each entry with its key and value swapped, in order. */
  function Swapped<K, V>(entries: seq<(K, V)>): (r: seq<(V, K)>)
    ensures |r| == |entries| && forall i :: 0 <= i < |entries| ==> r[i] == (entries[i].1, entries[i].0)
  {
    seq(|entries|, i requires 0 <= i < |entries| => (entries[i].1, entries[i].0))
  }

  /**
   * When no value repeats, inverting a dict entry by entry appends every
   * entry, swapped, in order: no value is met twice, so none overwrites
   * another.
   */
  lemma {:induction false} InvertFirstDistinct<K, V(!new)>(entries: seq<(K, V)>, n: nat)
    requires n <= |entries|
    requires forall i, j :: 0 <= i < j < |entries| ==> entries[i].1 != entries[j].1
    ensures InvertFirst(entries, n) == Swapped(entries[..n])
  {
    if n > 0 {
      InvertFirstDistinct(entries, n - 1);
      ValueNotSwappedBefore(entries, n - 1);
      SwappedSnoc(entries, n - 1);
    }
  }

  /** No entry before position `n` swaps to a key equal to the value at `n`. */
  lemma ValueNotSwappedBefore<K, V>(entries: seq<(K, V)>, n: nat)
    requires n < |entries|
    requires forall i, j :: 0 <= i < j < |entries| ==> entries[i].1 != entries[j].1
    ensures !HasKey(Swapped(entries[..n]), entries[n].1)
  {
    var prev := Swapped(entries[..n]);
    forall i | 0 <= i < |prev|
      ensures prev[i].0 != entries[n].1
    {
      assert entries[..n][i] == entries[i];
    }
  }

  /** Swapping one more entry appends it, swapped. */
  lemma SwappedSnoc<K, V>(entries: seq<(K, V)>, n: nat)
    requires n < |entries|
    ensures Swapped(entries[..n + 1]) == Swapped(entries[..n]) + [(entries[n].1, entries[n].0)]
  {
    var a := Swapped(entries[..n + 1]);
    var b := Swapped(entries[..n]) + [(entries[n].1, entries[n].0)];
    forall i | 0 <= i < n + 1
      ensures a[i] == b[i]
    {
      if i < n {
        assert entries[..n + 1][i] == entries[..n][i];
      }
    }
  }

  /** The whole dict inverted, when no value repeats. */
  lemma InvertDistinct<K, V(!new)>(entries: seq<(K, V)>)
    requires forall i, j :: 0 <= i < j < |entries| ==> entries[i].1 != entries[j].1
    ensures Invert(entries) == Swapped(entries)
  {
    InvertFirstDistinct(entries, |entries|);
    assert entries[..|entries|] == entries;
  }

  /** No value of `_values_to_states` repeats, so its inverse is its entries swapped. */
  lemma TableSwapped()
    ensures StatesToValues == Swapped(ValuesToStates)
  {
    var vs := ValuesToStates;
    assert vs[0].1 != vs[1].1 && vs[0].1 != vs[2].1 && vs[1].1 != vs[2].1;
    InvertDistinct(vs);
  }

  /** `_states_to_values` lists the entries of `_values_to_states` swapped, in the same order. */
  lemma InvertedTable()
    ensures StatesToValues == [(Checked, BoolV(true)), (Unchecked, BoolV(false)), (PartiallyChecked, NoneV)]
  {
    var t := Swapped(ValuesToStates);
    assert |t| == 3;
    assert t[0] == (Checked, BoolV(true)) && t[1] == (Unchecked, BoolV(false)) && t[2] == (PartiallyChecked, NoneV);
    TableSwapped();
  }

  /** What `_values_to_states` looks up. */
  lemma ForwardLookups()
    ensures Get(ValuesToStates, BoolV(true)) == Some(Checked)
    ensures Get(ValuesToStates, BoolV(false)) == Some(Unchecked)
    ensures Get(ValuesToStates, NoneV) == Some(PartiallyChecked)
  {
    assert ValuesToStates[1..] == [(BoolV(false), Unchecked), (NoneV, PartiallyChecked)];
    assert ValuesToStates[1..][1..] == [(NoneV, PartiallyChecked)];
  }

  /** What `_states_to_values` looks up. */
  lemma BackwardLookups()
    ensures Get(StatesToValues, Checked) == Some(BoolV(true))
    ensures Get(StatesToValues, Unchecked) == Some(BoolV(false))
    ensures Get(StatesToValues, PartiallyChecked) == Some(NoneV)
  {
    InvertedTable();
    var t := StatesToValues;
    assert t[1..] == [(Unchecked, BoolV(false)), (PartiallyChecked, NoneV)];
    assert t[1..][1..] == [(PartiallyChecked, NoneV)];
  }

  /** What the two tables look up. */
  lemma Lookups()
    ensures Get(ValuesToStates, BoolV(true)) == Some(Checked)
    ensures Get(ValuesToStates, BoolV(false)) == Some(Unchecked)
    ensures Get(ValuesToStates, NoneV) == Some(PartiallyChecked)
    ensures Get(StatesToValues, Checked) == Some(BoolV(true))
    ensures Get(StatesToValues, Unchecked) == Some(BoolV(false))
    ensures Get(StatesToValues, PartiallyChecked) == Some(NoneV)
  {
    ForwardLookups();
    BackwardLookups();
  }

  /**
   * The two dicts are exact inverses over True, False and None on one side
   * and the three check states on the other.
   */
  lemma ExactInverse()
    ensures forall v :: v in {BoolV(true), BoolV(false), NoneV} ==>
              Get(ValuesToStates, v).Some? && Get(StatesToValues, Get(ValuesToStates, v).value) == Some(v)
    ensures forall s: CheckState ::
              Get(StatesToValues, s).Some? && Get(ValuesToStates, Get(StatesToValues, s).value) == Some(s)
  {
    Lookups();
    forall v | v in {BoolV(true), BoolV(false), NoneV}
      ensures Get(ValuesToStates, v).Some? && Get(StatesToValues, Get(ValuesToStates, v).value) == Some(v)
    {
      if v == BoolV(true) {
      } else if v == BoolV(false) {
      } else {
        assert v == NoneV;
      }
    }
    forall s: CheckState
      ensures Get(StatesToValues, s).Some? && Get(ValuesToStates, Get(StatesToValues, s).value) == Some(s)
    {
      match s
      case Checked =>
      case Unchecked =>
      case PartiallyChecked =>
    }
  }

  /** `_states_to_values[state]`: the value a check state reads as. */
  function StateValue(s: CheckState): (v: Value)
    ensures Get(StatesToValues, s) == Some(v)
  {
    ExactInverse();
    match s
    case Checked => BoolV(true)
    case Unchecked => BoolV(false)
    case PartiallyChecked => NoneV
  }

  /** The key a dict lookup finds: 1 and 0 compare and hash equal to True and False. */
  function DictKey(v: Value): Value
  {
    if v == IntV(1) then BoolV(true) else if v == IntV(0) then BoolV(false) else v
  }

  /**
   * `_set_state`: a three-state box looks the value up in
   * `_values_to_states` (a KeyError for anything but True, False, None or
   * their equals); a two-state box is checked with the value, None reading
   * as False. A non-boolean handed to Qt's `setChecked` is Qt's to refuse.
   */
  function NewState(tristate: bool, val: Value): (r: Result<CheckState>)
    ensures tristate ==> (r.Ok? <==> DictKey(val) in {BoolV(true), BoolV(false), NoneV})
    ensures tristate && r.Ok? ==> StateValue(r.value) == DictKey(val)
    ensures tristate && r.Err? ==> r.error == KeyError
    ensures !tristate ==> (r.Ok? <==> val.BoolV? || val == NoneV)
    ensures !tristate && r.Ok? ==> StateValue(r.value) == (if val == NoneV then BoolV(false) else val)
  {
    if tristate then
      ExactInverse();
      match Get(ValuesToStates, DictKey(val))
      case None => Err(KeyError)
      case Some(s) => Ok(s)
    else TwoState(val)
  }

  /** `setChecked(val)` on a two-state box: None reads as False, and only a bool is accepted. */
  function TwoState(val: Value): (r: Result<CheckState>)
    ensures r.Ok? <==> val.BoolV? || val == NoneV
    ensures r.Ok? ==> r.value != PartiallyChecked
  {
    if val == NoneV then Ok(Unchecked)
    else if val.BoolV? then Ok(if val.b then Checked else Unchecked)
    else Err(Foreign("setChecked expects a bool"))
  }

  class Checkbox {
    var tristate: bool
    var checkState: CheckState
    var text: string

    /** `_get_state`. */
    function State(): Value
      reads this
    {
      StateValue(checkState)
    }

    /**
     * `__init__`: the text (empty when none is given) and the tristate flag
     * are set first, then the state, None reading as False.
     */
    constructor (state: Option<bool>, caption: Option<string>, isTristate: bool)
      ensures tristate == isTristate && text == (if caption.Some? then caption.value else "")
      ensures checkState == (if state == Some(true) then Checked else Unchecked)
      ensures State() == BoolV(state == Some(true))
    {
      text := if caption.Some? then caption.value else "";
      tristate := isTristate;
      checkState := Unchecked;
      new;
      var raised := SetState(BoolV(state == Some(true)));
    }

    /**
     * The `state` setter: the new check state, or the error with the state
     * kept. Afterwards the state reads back as the value set (True for 1,
     * False for 0, and, on a two-state box, False for None).
     */
    method SetState(val: Value) returns (raised: Option<Exc>)
      modifies this
      ensures NewState(tristate, val).Err? ==> raised == Some(NewState(tristate, val).error) && checkState == old(checkState)
      ensures NewState(tristate, val).Ok? ==> raised.None? && checkState == NewState(tristate, val).value
      ensures raised.None? && tristate ==> State() == DictKey(val)
      ensures raised.None? && !tristate ==> State() == (if val == NoneV then BoolV(false) else val)
      ensures tristate == old(tristate) && text == old(text)
    {
      match NewState(tristate, val)
      case Err(e) =>
        raised := Some(e);
      case Ok(s) =>
        checkState := s;
        raised := None;
    }
  }

  /**
   * `val[key]`: a dict looks the key up (KeyError when missing); None, a
   * bool or an int cannot be subscripted and a string or list cannot take
   * a string index (TypeError); any other object's `__getitem__` is not
   * part of this model.
   */
  function Subscript(val: Value, key: Value): (r: Result<Value>)
    ensures val.DictV? ==> (r.Ok? <==> HasKey(val.entries, key))
    ensures val.DictV? && r.Ok? ==> Get(val.entries, key) == Some(r.value)
    ensures val.DictV? && r.Err? ==> r.error == KeyError
  {
    match val
    case DictV(entries) => if HasKey(entries, key) then Ok(Get(entries, key).value) else Err(KeyError)
    case NoneV => Err(TypeError("object is not subscriptable"))
    case BoolV(_) => Err(TypeError("object is not subscriptable"))
    case IntV(_) => Err(TypeError("object is not subscriptable"))
    case StrV(_) => Err(TypeError("string indices must be integers"))
    case ListV(_) => Err(TypeError("list indices must be integers or slices, not str"))
    case Obj(_, _) => Err(Foreign("__getitem__ of an object outside the model"))
  }

  /** What `checkbox.state = val[checkbox.text]` does to a two-state box. */
  function Outcome(val: Value, text: string): (r: Result<CheckState>)
    ensures r.Ok? ==> r.value != PartiallyChecked
  {
    match Subscript(val, StrV(text))
    case Err(e) => Err(e)
    case Ok(v) => TwoState(v)
  }

  /** What assigning `val[text]` does to each of the boxes with these texts. */
  function Outcomes(val: Value, texts: seq<string>): (r: seq<Result<CheckState>>)
    ensures |r| == |texts| && forall i :: 0 <= i < |texts| ==> r[i] == Outcome(val, texts[i])
  {
    seq(|texts|, i requires 0 <= i < |texts| => Outcome(val, texts[i]))
  }

  /** The first position from `from` on holding an error, or the length. */
  function FirstErr<T>(outs: seq<Result<T>>, from: nat): (k: nat)
    requires from <= |outs|
    ensures from <= k <= |outs|
    ensures forall j :: from <= j < k ==> outs[j].Ok?
    ensures k < |outs| ==> outs[k].Err?
    decreases |outs| - from
  {
    if from == |outs| || outs[from].Err? then from else FirstErr(outs, from + 1)
  }

  /**
   * The loop of the `state` setter on the boxes' texts and states: each
   * box takes its outcome until the first one that raises.
   */
  method AssignStates(val: Value, ts: seq<string>, st0: seq<CheckState>) returns (raised: Option<Exc>, st: seq<CheckState>)
    requires |ts| == |st0|
    ensures |st| == |ts|
    ensures var outs := Outcomes(val, ts);
            var k := FirstErr(outs, 0);
            (k < |outs| ==> raised == Some(outs[k].error)) && (k == |outs| ==> raised.None?)
            && forall j :: 0 <= j < |outs| ==> st[j] == if j < k then outs[j].value else st0[j]
  {
    st := st0;
    ghost var outs := Outcomes(val, ts);
    ghost var k := FirstErr(outs, 0);
    raised := None;
    var i := 0;
    while i < |ts| && raised.None?
      invariant 0 <= i <= |ts| && |st| == |ts|
      invariant forall j :: 0 <= j < i ==> outs[j].Ok? && st[j] == outs[j].value
      invariant forall j :: i <= j < |ts| ==> st[j] == st0[j]
      invariant raised.Some? ==> i < |ts| && outs[i].Err? && raised == Some(outs[i].error)
      decreases |ts| - i, raised.None?
    {
      var outcome := Outcome(val, ts[i]);
      if outcome.Err? {
        raised := Some(outcome.error);
      } else {
        st := st[i := outcome.value];
        i := i + 1;
      }
    }
    assert k == i;
  }

  /** The dict a check bar's state reads as, for boxes with these texts and states. */
  function StateDict(texts: seq<string>, states: seq<CheckState>): (d: Value)
    requires |texts| == |states|
    ensures d.DictV? && |d.entries| == |texts|
    ensures forall i :: 0 <= i < |texts| ==> d.entries[i] == (StrV(texts[i]), StateValue(states[i]))
  {
    DictV(seq(|texts|, i requires 0 <= i < |texts| => (StrV(texts[i]), StateValue(states[i]))))
  }

  /**
   * The state a check bar reads maps each box's text to its state, and
   * assigning it back to the bar gives every box the state it has: no
   * assignment raises.
   */
  lemma {:induction false} StateRoundTrip(texts: seq<string>, states: seq<CheckState>)
    requires |texts| == |states| && Distinct(texts)
    requires forall i :: 0 <= i < |states| ==> states[i] != PartiallyChecked
    ensures forall j :: 0 <= j < |texts| ==> Get(StateDict(texts, states).entries, StrV(texts[j])) == Some(StateValue(states[j]))
    ensures forall j :: 0 <= j < |texts| ==> Outcome(StateDict(texts, states), texts[j]) == Ok(states[j])
    ensures FirstErr(Outcomes(StateDict(texts, states), texts), 0) == |texts|
  {
    var d := StateDict(texts, states);
    assert Distinct(Keys(d.entries)) by {
      forall i, j | 0 <= i < j < |texts| ensures Keys(d.entries)[i] != Keys(d.entries)[j] {
        assert Keys(d.entries)[i] == StrV(texts[i]) && Keys(d.entries)[j] == StrV(texts[j]);
      }
    }
    forall j | 0 <= j < |texts|
      ensures Get(d.entries, StrV(texts[j])) == Some(StateValue(states[j]))
      ensures Outcome(d, texts[j]) == Ok(states[j])
    {
      GetAt(d.entries, j);
      assert HasKey(d.entries, StrV(texts[j])) by {
        assert d.entries[j].0 == StrV(texts[j]);
      }
    }
  }

  /**
   * A check bar: its checkboxes are made by and private to the bar, so they
   * are held as their texts and check states, position by position.
   */
  class CheckBar {
    var texts: seq<string>
    var states: seq<CheckState>

    /** Each box has one text and a state; the texts are distinct and every box is two-state. */
    predicate Valid()
      reads this
    {
      |texts| == |states| && Distinct(texts) && forall i :: 0 <= i < |states| ==> states[i] != PartiallyChecked
    }

    /** `_get_state`: each box's text mapped to its state. */
    function State(): (d: Value)
      requires Valid()
      reads this
    {
      StateDict(texts, states)
    }

    /**
     * `__init__`: one two-state checkbox per entry of the dict, in order,
     * with the entry's key as text and its value as state; the bar's state
     * reads back as the dict it was given.
     */
    constructor (choices: seq<(string, bool)>)
      requires Distinct(Keys(choices))
      ensures Valid()
      ensures texts == Keys(choices)
      ensures |State().entries| == |choices|
      ensures forall i :: 0 <= i < |choices| ==> State().entries[i] == (StrV(choices[i].0), BoolV(choices[i].1))
    {
      texts := Keys(choices);
      states := seq(|choices|, i requires 0 <= i < |choices| => if choices[i].1 then Checked else Unchecked);
    }

    /**
     * The `state` setter: box after box, `val[text]` is assigned to the box;
     * the first assignment that raises stops the loop, leaving the earlier
     * boxes set and the later ones as they were.
     */
    method SetState(val: Value) returns (raised: Option<Exc>)
      requires Valid()
      modifies this
      ensures Valid() && texts == old(texts)
      ensures var outs := Outcomes(val, texts);
              var k := FirstErr(outs, 0);
              (k < |outs| ==> raised == Some(outs[k].error)) && (k == |outs| ==> raised.None?)
              && forall j :: 0 <= j < |outs| ==> states[j] == if j < k then outs[j].value else old(states)[j]
    {
      raised, states := AssignStates(val, texts, states);
    }
  }
}
