/**
 * The older TypeValidator (iotools/typevalidator.py): an object that is
 * given a value, picks a handler for its target type, and lets the handler
 * rewrite the stored value and the validity flag step by step.
 */
module TypeValidation {
  import opened Python

  /** The target types the three handler tables know, and anything else. */
  datatype DType =
    | IntT | FloatT | BoolT | StrT | ListT | DictT | TupleT      // builtin_types
    | TypingList | TypingDict | TypingOther                      // generics from the typing module
    | DateT | DateTimeT | SubtypeDateTimeT | FileT | DirT          // custom_types
    | OtherT                                                      // none of the above

  /** Which handler `validate` selects. */
  datatype Handler = BoolHandler | StrHandler | OtherHandler | NoHandler

  /**
   * The builtin table first, then the generic table for a typing generic
   * (keyed by its origin), then the custom table; a miss in the table
   * consulted is a KeyError.
   */
  function HandlerFor(t: DType): (h: Handler)
    ensures h == NoHandler <==> t in {TypingOther, OtherT}
    ensures h == BoolHandler <==> t == BoolT
    ensures h == StrHandler <==> t == StrT
  {
    match t
    case BoolT => BoolHandler
    case StrT => StrHandler
    case TypingOther => NoHandler
    case OtherT => NoHandler
    case _ => OtherHandler
  }

  const TrueWords: seq<string> := ["true", "t", "yes", "y"]
  const FalseWords: seq<string> := ["false", "f", "no", "n"]

  /** The bool a string names once trimmed and lower-cased, if any. */
  function BoolWord(s: string): Option<bool>
  {
    var word := Lower(Strip(s));
    if word in TrueWords then Some(true) else if word in FalseWords then Some(false) else None
  }

  /**
   * What the bool handler leaves, stated per kind of input: a bool stays
   * valid; a string whose trimmed, lower-cased form is a yes-word or a
   * no-word becomes True or False; the integers 1 and 0 become True and
   * False; everything else is invalid and unchanged.
   */
  function BoolOutcome(v: Value): (Value, bool)
  {
    match v
    case BoolV(_) => (v, true)
    case StrV(s) => if BoolWord(s).Some? then (BoolV(BoolWord(s).value), true) else (v, false)
    case IntV(i) => if i == 1 then (BoolV(true), true) else if i == 0 then (BoolV(false), true) else (v, false)
    case _ => (v, false)
  }

  /** What the str handler leaves: strings stay; other values become `str(value)` only when coercing. */
  function StrOutcome(v: Value, coerce: bool, str: Value -> string): (r: (Value, bool))
    ensures r.1 ==> r.0.StrV?
    ensures r.1 <==> v.StrV? || coerce
    ensures v.StrV? ==> r.0 == v
  {
    if v.StrV? then (v, true) else if coerce then (StrV(str(v)), true) else (v, false)
  }

  /** A valid outcome of the bool handler is a bool. */
  lemma BoolOutcomeIsBool(v: Value)
    ensures BoolOutcome(v).1 ==> BoolOutcome(v).0.BoolV?
    ensures !BoolOutcome(v).1 ==> BoolOutcome(v).0 == v
  {
  }

  /**
   * The evident intent of the `coerce` flag for bools, as the str handler
   * reads it: without coercion only a bool is valid.
   */
  function BoolOutcomeIntended(v: Value, coerce: bool): (r: (Value, bool))
    ensures !coerce ==> (r.1 <==> v.BoolV?) && r.0 == v
    ensures coerce ==> r == BoolOutcome(v)
  {
    if coerce then BoolOutcome(v) else (v, v.BoolV?)
  }

  /** As written, the bool handler coerces the word "y" even with `coerce=False`, where the intended handler rejects it. */
  lemma BoolCoercesWithoutCoerce()
    ensures BoolOutcome(StrV("y")) == (BoolV(true), true)
    ensures BoolOutcomeIntended(StrV("y"), false) == (StrV("y"), false)
  {
    assert StripLeft("y") == "y";
    assert StripRight("y") == "y";
    assert Lower("y") == [LowerChar('y')] + Lower([]);
    assert Lower("y") == "y";
    assert TrueWords[3] == "y";
  }

  /** The outcomes of the handlers outside the model, given as a function of the type, the value and `coerce`. */
  type OtherHandlers = (DType, Value, bool) -> (Value, bool)

  /** The value and validity `validate` leaves, when it does not raise. */
  function Outcome(t: DType, coerce: bool, optional: bool, v: Value, str: Value -> string, other: OtherHandlers): (Value, bool)
  {
    if optional && v == NoneV then (v, true)
    else match HandlerFor(t)
      case BoolHandler => BoolOutcome(v)
      case StrHandler => StrOutcome(v, coerce, str)
      case _ => other(t, v, coerce)
  }

  /** With `optional`, None is valid and kept, whatever the type. */
  lemma OptionalNone(t: DType, coerce: bool, str: Value -> string, other: OtherHandlers)
    ensures Outcome(t, coerce, true, NoneV, str, other) == (NoneV, true)
  {
  }

  /**
   * What `validate` leaves for a bool target differs from the corrected
   * handler exactly when, without coercion, it accepts a value that is not
   * a bool; with coercion, or for a bool, or for a value it refuses, the two
   * agree.
   */
  lemma BoolIntendedVersusValidate(coerce: bool, optional: bool, v: Value, str: Value -> string, other: OtherHandlers)
    requires !(optional && v == NoneV)
    ensures var o := Outcome(BoolT, coerce, optional, v, str, other);
            o != BoolOutcomeIntended(v, coerce) <==> !coerce && !v.BoolV? && o.1
  {
    BoolOutcomeIsBool(v);
  }

  class TypeValidator {
    const dtype: DType
    const coerce: bool
    const optional: bool
    var valid: bool
    var value: Value

    /** `__init__`: nothing validated yet. */
    constructor (t: DType, doCoerce: bool, isOptional: bool)
      ensures dtype == t && coerce == doCoerce && optional == isOptional
      ensures !valid && value == NoneV
    {
      dtype, coerce, optional := t, doCoerce, isOptional;
      valid, value := false, NoneV;
    }

    /** The `value` property: the stored value when valid, a TypeError otherwise. */
    function Current(): (r: Result<Value>)
      reads this
      ensures r.Ok? <==> valid
      ensures r.Ok? ==> r.value == value
      ensures r.Err? ==> r.error.TypeError?
    {
      if valid then Ok(value) else Err(TypeError("cannot be implicitly coerced"))
    }

    /** `is_bool_or_similar`, one step after another as the source takes them. */
    method CheckBool()
      requires !valid
      modifies this
      ensures (value, valid) == BoolOutcome(old(value))
    {
      if value.BoolV? {
        valid := true;
      }
      if !coerce {
        valid := false;
      }
      if value.StrV? {
        match BoolWord(value.s)
        case Some(b) =>
          valid, value := true, BoolV(b);
        case None =>
      }
      match value
      case IntV(i) =>
        if i == 1 {
          valid, value := true, BoolV(true);
        } else if i == 0 {
          valid, value := true, BoolV(false);
        }
      case BoolV(b) =>
        if b {
          valid, value := true, BoolV(true);
        } else {
          valid, value := true, BoolV(false);
        }
      case _ =>
        valid := false;
    }

    /** `is_str_or_similar`. */
    method CheckStr(str: Value -> string)
      requires !valid
      modifies this
      ensures (value, valid) == StrOutcome(old(value), coerce, str)
    {
      if value.StrV? || coerce {
        value, valid := if value.StrV? then value else StrV(str(value)), true;
      }
    }

    /**
     * `validate`: store the value and clear validity, accept None when
     * optional, raise UnknownTypeError for a type no table knows, and
     * otherwise run the handler.
     */
    method Validate(v: Value, str: Value -> string, other: OtherHandlers) returns (raised: Option<Exc>)
      modifies this
      ensures raised.Some? <==> !(optional && v == NoneV) && HandlerFor(dtype) == NoHandler
      ensures raised.Some? ==> raised.value == UnknownTypeError && value == v && !valid
      ensures raised.None? ==> (value, valid) == Outcome(dtype, coerce, optional, v, str, other)
    {
      value, valid := v, false;
      if optional && value == NoneV {
        valid := true;
        return None;
      }
      match HandlerFor(dtype)
      case NoHandler =>
        raised := Some(UnknownTypeError);
      case BoolHandler =>
        CheckBool();
        raised := None;
      case StrHandler =>
        CheckStr(str);
        raised := None;
      case OtherHandler =>
        value, valid := other(dtype, value, coerce).0, other(dtype, value, coerce).1;
        raised := None;
    }

    /** `__call__`: validate, then read `value`; it returns a valid value or raises. */
    method Call(v: Value, str: Value -> string, other: OtherHandlers) returns (r: Result<Value>)
      modifies this
      ensures HandlerFor(dtype) == NoHandler && !(optional && v == NoneV) ==> r == Err(UnknownTypeError)
      ensures HandlerFor(dtype) != NoHandler || (optional && v == NoneV) ==>
                var o := Outcome(dtype, coerce, optional, v, str, other);
                r == if o.1 then Ok(o.0) else Err(TypeError("cannot be implicitly coerced"))
    {
      var raised := Validate(v, str, other);
      if raised.Some? {
        return Err(raised.value);
      }
      r := Current();
    }
  }
}
