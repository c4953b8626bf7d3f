/**
 * The oldest validator generation (iohandler/validator.py): no choices, no
 * UnknownTypeValidator, and an `is_valid` that tests each condition on a
 * fresh `convert` of the value, without catching anything.
 */
module IoHandlerValidator {
  import opened Python
  import opened Checks

  /** The validator classes. */
  datatype Kind = Anything | Bool | Str | Int | Float | ListKind | DictKind | DateTime | PathKind | FileKind | DirKind

  /** What `Validate.Type` is given. */
  datatype TypeArg =
    | PyType(name: string)            // a class that is not a Validator subclass
    | ValidatorClass(kind: Kind)      // a Validator subclass
    | ValidatorInstance(spec: Spec)   // a validator object
    | OtherObject(hashable: bool)     // anything else

  /**
   * The state of one validator: class, `_nullable`, `_strict`, `conditions`,
   * and the `dtype` (lists) or `key_dtype`/`val_dtype` (dicts).
   */
  datatype Spec = Spec(kind: Kind, nullable: bool, strict: Strict, conditions: seq<Condition>,
                       dtype: Option<TypeArg>, keyDtype: Option<TypeArg>, valDtype: Option<TypeArg>)

  predicate WellFormed(s: Spec)
  {
    (s.dtype.Some? ==> s.kind == ListKind) && (s.keyDtype.Some? || s.valDtype.Some? ==> s.kind == DictKind)
  }

  predicate Parametrized(s: Spec)
  {
    (s.kind == ListKind && s.dtype.Some?) || (s.kind == DictKind && (s.keyDtype.Some? || s.valDtype.Some?))
  }

  /** How deeply validators are nested through validator objects given as dtypes. */
  function Size(s: Spec): (n: nat)
    ensures n >= 1
    decreases s, 1
  {
    1 + OptSize(s.dtype) + OptSize(s.keyDtype) + OptSize(s.valDtype)
  }

  function OptSize(t: Option<TypeArg>): nat
    decreases t, 0
  {
    if t.None? then 0 else ArgSize(t.value)
  }

  function ArgSize(t: TypeArg): (n: nat)
    ensures n >= 1
    decreases t
  {
    if t.ValidatorInstance? then Size(t.spec) else 1
  }

  /** The typepy converters, `DateTime.from_datetime` and `eval`, all outside the model. */
  datatype Env = Env(converter: Kind -> Converter, fromDatetime: Value -> Result<Value>, eval: string -> Option<Value>)

  function ConverterOf(env: Env, k: Kind): Converter
  {
    if k == Anything then Converter((v, l) => true, (v, l) => Some(v)) else env.converter(k)
  }

  /** `__init__()`: not nullable, permissive, no conditions, no dtypes. */
  function Fresh(k: Kind): (s: Spec)
    ensures WellFormed(s) && !Parametrized(s) && Size(s) == 1
  {
    Spec(k, false, StrictMin, [], None, None, None)
  }

  // ------------------------------------------------------- Validate.Type

  /** The `Validate._types` table, in insertion order. */
  const Table: seq<(string, Kind)> := [
    ("int", Int), ("float", Float), ("bool", Bool), ("str", Str), ("list", ListKind), ("dict", DictKind),
    ("date", DateTime), ("Path", PathKind), ("File", FileKind), ("Dir", DirKind)]

  lemma TableKeysDistinct()
    ensures forall i, j :: 0 <= i < j < |Table| ==> Table[i].0 != Table[j].0
  {
  }

  /** The last position whose element satisfies `p`. */
  function LastMatch<T>(xs: seq<T>, p: T -> bool): (r: Option<nat>)
    ensures r.Some? ==> r.value < |xs| && p(xs[r.value]) && forall j :: r.value < j < |xs| ==> !p(xs[j])
    ensures r.None? ==> forall j :: 0 <= j < |xs| ==> !p(xs[j])
  {
    if xs == [] then None
    else if p(xs[|xs| - 1]) then Some(|xs| - 1)
    else LastMatch(xs[..|xs| - 1], p)
  }

  /** What `Validate.Type` settles on: a validator class to instantiate, or the dtype itself. */
  datatype Resolved = Cls(kind: Kind) | Itself

  /**
   * `Validate.Type(dtype)`: the exact table entry; else a Validator
   * subclass; else the LAST table entry the dtype subclasses (the loop has
   * no break); else the dtype itself. An unhashable dtype makes the table
   * lookup raise TypeError.
   */
  function TypeOf(arg: TypeArg, subclass: (string, string) -> bool): (r: Result<Resolved>)
    ensures arg.OtherObject? ==> (r.Err? <==> !arg.hashable) && (r.Ok? ==> r.value == Itself)
    ensures arg.ValidatorClass? ==> r == Ok(Cls(arg.kind))
    ensures arg.ValidatorInstance? ==> r == Ok(Itself)
  {
    match arg
    case OtherObject(h) => if h then Ok(Itself) else Err(TypeError("unhashable type"))
    case ValidatorClass(k) => Ok(Cls(k))
    case ValidatorInstance(_) => Ok(Itself)
    case PyType(name) =>
      match FirstMatch(Table, (e: (string, Kind)) => e.0 == name)
      case Some(i) => Ok(Cls(Table[i].1))
      case None =>
        match LastMatch(Table, (e: (string, Kind)) => subclass(name, e.0))
        case Some(i) => Ok(Cls(Table[i].1))
        case None => Ok(Itself)
  }

  /** `Validate.Type` on a class with a table entry resolves to that entry. */
  lemma TypeOfExact(name: string, subclass: (string, string) -> bool, i: nat)
    requires i < |Table| && Table[i].0 == name
    ensures TypeOf(PyType(name), subclass) == Ok(Cls(Table[i].1))
  {
    TableKeysDistinct();
  }

  /** Without a table entry, the LAST entry the class subclasses wins. */
  lemma TypeOfSubclass(name: string, subclass: (string, string) -> bool, i: nat)
    requires forall k :: 0 <= k < |Table| ==> Table[k].0 != name
    requires i < |Table| && subclass(name, Table[i].0)
    requires forall j :: i < j < |Table| ==> !subclass(name, Table[j].0)
    ensures TypeOf(PyType(name), subclass) == Ok(Cls(Table[i].1))
  {
  }

  /** A class matching no entry is returned itself. */
  lemma TypeOfUnresolved(name: string, subclass: (string, string) -> bool)
    requires forall k :: 0 <= k < |Table| ==> Table[k].0 != name && !subclass(name, Table[k].0)
    ensures TypeOf(PyType(name), subclass) == Ok(Itself)
  {
  }

  /**
   * `Validate.Type(dtype).nullable()`: a resolved class is instantiated and
   * made nullable; a validator object given as the dtype is returned itself
   * and made nullable; anything else has no `nullable` and raises
   * AttributeError.
   */
  function ItemValidator(arg: TypeArg, subclass: (string, string) -> bool): (r: Result<Spec>)
    ensures r.Ok? ==> r.value.nullable && Size(r.value) <= ArgSize(arg)
    ensures arg.PyType? && TypeOf(arg, subclass) == Ok(Itself) ==> r.Err? && r.error.AttributeError?
    ensures arg.ValidatorInstance? ==> r == Ok(arg.spec.(nullable := true))
  {
    match TypeOf(arg, subclass)
    case Err(e) => Err(e)
    case Ok(Cls(k)) => Ok(Fresh(k).(nullable := true))
    case Ok(Itself) =>
      if arg.ValidatorInstance? then Ok(arg.spec.(nullable := true))
      else Err(AttributeError("object has no attribute 'nullable'"))
  }

  /** `Maybe(dtype).else_(AnythingValidator())`. */
  function OrAnything(t: Option<TypeArg>): (r: TypeArg)
    ensures t.None? ==> ArgSize(r) == 1
    ensures t.Some? ==> ArgSize(r) == OptSize(t)
  {
    if t.Some? then t.value else ValidatorInstance(Fresh(Anything))
  }

  // --------------------------------------------------------- conversion

  /** `Validator.convert`. */
  function BaseConvert(env: Env, s: Spec, v: Value): Result<Value>
  {
    if v == NoneV then
      if s.nullable then Ok(NoneV) else Err(TypeConversionError)
    else
      match ConverterOf(env, s.kind).convert(v, s.strict)
      case None => Err(TypeConversionError)
      case Some(ret) =>
        var verdict := Check(s.conditions, ret);
        if verdict.AllPass? then Ok(ret) else Err(VerdictError(verdict))
  }

  function Max(a: nat, b: nat): nat { if a < b then b else a }

  /** `convert`, dispatched on the class (`__call__` is `convert`). */
  function Convert(env: Env, subclass: (string, string) -> bool, s: Spec, v: Value): Result<Value>
    decreases Size(s), 0
  {
    match s.kind
    case DateTime => (match BaseConvert(env, s, v) case Err(e) => Err(e) case Ok(x) => env.fromDatetime(x))
    case ListKind =>
      var v1 := TryEval(env.eval, v);
      if s.dtype.None? then BaseConvert(env, s, v1)
      else
        (match ItemValidator(s.dtype.value, subclass)
         case Err(e) => Err(e)
         case Ok(iv) =>
           assert Size(iv) < Size(s);
           match BaseConvert(env, s, v1)
           case Err(e) => Err(e)
           case Ok(c) =>
             if Iterate(c).None? then Err(TypeError("object is not iterable"))
             else
               var rs := ConvertItems(env, subclass, iv, Iterate(c).value, []);
               if rs.Err? then Err(rs.error) else Ok(ListV(rs.value)))
    case DictKind =>
      var v1 := TryEval(env.eval, v);
      if s.keyDtype.None? && s.valDtype.None? then BaseConvert(env, s, v1)
      else
        (match BaseConvert(env, s, v1)
         case Err(e) => Err(e)
         case Ok(c) =>
           match ItemValidator(OrAnything(s.keyDtype), subclass)
           case Err(e) => Err(e)
           case Ok(kv) =>
             match ItemValidator(OrAnything(s.valDtype), subclass)
             case Err(e) => Err(e)
             case Ok(vv) =>
               if !c.DictV? then Err(AttributeError("object has no attribute 'items'"))
               else
                 var es := ConvertEntries(env, subclass, kv, vv, c.entries, []);
                 if es.Err? then Err(es.error) else Ok(DictV(es.value)))
    case _ => BaseConvert(env, s, v)
  }

  function ConvertItems(env: Env, subclass: (string, string) -> bool, iv: Spec, items: seq<Value>, acc: seq<Value>)
    : Result<seq<Value>>
    decreases Size(iv), 1, |items|
  {
    if items == [] then Ok(acc)
    else match Convert(env, subclass, iv, items[0])
      case Err(e) => Err(e)
      case Ok(x) => ConvertItems(env, subclass, iv, items[1..], acc + [x])
  }

  function ConvertEntries(env: Env, subclass: (string, string) -> bool, kv: Spec, vv: Spec,
                          entries: seq<(Value, Value)>, acc: seq<(Value, Value)>): Result<seq<(Value, Value)>>
    decreases Max(Size(kv), Size(vv)), 1, |entries|
  {
    if entries == [] then Ok(acc)
    else match Convert(env, subclass, kv, entries[0].0)
      case Err(e) => Err(e)
      case Ok(k) =>
        match Convert(env, subclass, vv, entries[0].1)
        case Err(e) => Err(e)
        case Ok(x) =>
          if !Hashable(k) then Err(Unhashable([k]).value)
          else ConvertEntries(env, subclass, kv, vv, entries[1..], Set(acc, k, x))
  }

  /** One entry of the dict comprehension goes through: key and value convert and the key hashes. */
  predicate EntryConverts(env: Env, subclass: (string, string) -> bool, kv: Spec, vv: Spec, e: (Value, Value))
  {
    Convert(env, subclass, kv, e.0).Ok? && Convert(env, subclass, vv, e.1).Ok? && Hashable(Convert(env, subclass, kv, e.0).value)
  }

  /**
   * The dict comprehension succeeds iff every entry goes through, and a dict it
   * builds holds only hashable keys.
   */
  lemma {:induction false} ConvertEntriesMeaning(env: Env, subclass: (string, string) -> bool, kv: Spec, vv: Spec,
                                                entries: seq<(Value, Value)>, acc: seq<(Value, Value)>)
    requires KeysHashable(acc)
    ensures var r := ConvertEntries(env, subclass, kv, vv, entries, acc);
            (r.Ok? <==> forall j :: 0 <= j < |entries| ==> EntryConverts(env, subclass, kv, vv, entries[j]))
            && (r.Ok? ==> KeysHashable(r.value))
    decreases |entries|
  {
    if entries != [] && EntryConverts(env, subclass, kv, vv, entries[0]) {
      var k := Convert(env, subclass, kv, entries[0].0).value;
      var x := Convert(env, subclass, vv, entries[0].1).value;
      SetKeepsHashable(acc, k, x);
      ConvertEntriesMeaning(env, subclass, kv, vv, entries[1..], Set(acc, k, x));
      assert forall j :: 0 < j < |entries| ==> entries[j] == entries[1..][j - 1];
    }
  }

  /**
   * When the first entry that does not go through has a key converting to a list or
   * dict and a value that converts, inserting it raises the TypeError of `hash`.
   */
  lemma {:induction false} UnhashableKeyRaises(env: Env, subclass: (string, string) -> bool, kv: Spec, vv: Spec,
                                              entries: seq<(Value, Value)>, acc: seq<(Value, Value)>, j: nat)
    requires j < |entries| && forall i :: 0 <= i < j ==> EntryConverts(env, subclass, kv, vv, entries[i])
    requires Convert(env, subclass, kv, entries[j].0).Ok? && Convert(env, subclass, vv, entries[j].1).Ok?
    requires !Hashable(Convert(env, subclass, kv, entries[j].0).value)
    ensures ConvertEntries(env, subclass, kv, vv, entries, acc) == Err(Unhashable([Convert(env, subclass, kv, entries[j].0).value]).value)
    ensures ConvertEntries(env, subclass, kv, vv, entries, acc).error.TypeError?
    decreases j
  {
    if j > 0 {
      assert EntryConverts(env, subclass, kv, vv, entries[0]);
      var k := Convert(env, subclass, kv, entries[0].0).value;
      var x := Convert(env, subclass, vv, entries[0].1).value;
      assert forall i :: 0 <= i < j - 1 ==> entries[1..][i] == entries[i + 1];
      UnhashableKeyRaises(env, subclass, kv, vv, entries[1..], Set(acc, k, x), j - 1);
    }
  }

  // ----------------------------------------------------------- validity

  /** The condition loop of `Validator.is_valid`, from condition `i` on: each condition tests a new `self(value)`. */
  function ConditionsHold(env: Env, subclass: (string, string) -> bool, s: Spec, v: Value, i: nat): Result<bool>
    requires i <= |s.conditions|
    decreases Size(s), 1, |s.conditions| - i
  {
    if i == |s.conditions| then Ok(true)
    else match Convert(env, subclass, s, v)
      case Err(e) => Err(e)
      case Ok(x) =>
        match s.conditions[i].test(x)
        case Err(e) => Err(e)
        case Ok(b) => if !b then Ok(false) else ConditionsHold(env, subclass, s, v, i + 1)
  }

  /** `Validator.is_valid`. */
  function BaseIsValid(env: Env, subclass: (string, string) -> bool, s: Spec, v: Value): Result<bool>
    decreases Size(s), 2
  {
    if v == NoneV then Ok(s.nullable)
    else if !ConverterOf(env, s.kind).isType(v, s.strict) then Ok(false)
    else ConditionsHold(env, subclass, s, v, 0)
  }

  /** `is_valid`, dispatched on the class. */
  function IsValid(env: Env, subclass: (string, string) -> bool, s: Spec, v: Value): Result<bool>
    decreases Size(s), 3
  {
    if s.kind != ListKind && s.kind != DictKind then BaseIsValid(env, subclass, s, v)
    else
      var v1 := TryEval(env.eval, v);
      if !Parametrized(s) then BaseIsValid(env, subclass, s, v1)
      else match BaseIsValid(env, subclass, s, v1)
        case Err(e) => Err(e)
        case Ok(valid) =>
          if !valid then Ok(false)
          else if s.kind == ListKind then
            (match ItemValidator(s.dtype.value, subclass)
             case Err(e) => Err(e)
             case Ok(iv) =>
               assert Size(iv) < Size(s);
               match BaseConvert(env, s, v1)
               case Err(e) => Err(e)
               case Ok(c) =>
                 if Iterate(c).None? then Err(TypeError("object is not iterable"))
                 else AllValid(env, subclass, iv, Iterate(c).value))
          else
            (match BaseConvert(env, s, v1)
             case Err(e) => Err(e)
             case Ok(c) =>
               match ItemValidator(OrAnything(s.keyDtype), subclass)
               case Err(e) => Err(e)
               case Ok(kv) =>
                 match ItemValidator(OrAnything(s.valDtype), subclass)
                 case Err(e) => Err(e)
                 case Ok(vv) =>
                   if !c.DictV? then Err(AttributeError("object has no attribute 'keys'"))
                   else
                     match AllValid(env, subclass, kv, Keys(c.entries))
                     case Err(e) => Err(e)
                     case Ok(keysValid) =>
                       if !keysValid then Ok(false)
                       else AllValid(env, subclass, vv, seq(|c.entries|, i requires 0 <= i < |c.entries| => c.entries[i].1)))
  }

  /** `all([validator.is_valid(item) for item in items])`: every item is tested, the first exception escapes. */
  function AllValid(env: Env, subclass: (string, string) -> bool, iv: Spec, items: seq<Value>): Result<bool>
    decreases Size(iv), 4, |items|
  {
    if items == [] then Ok(true)
    else match IsValid(env, subclass, iv, items[0])
      case Err(e) => Err(e)
      case Ok(b) =>
        match AllValid(env, subclass, iv, items[1..])
        case Err(e) => Err(e)
        case Ok(rest) => Ok(b && rest)
  }

  // ------------------------------------------------------------- properties

  /** `is_valid(None)` is the nullable flag for every validator without dtypes, list and dict validators included. */
  lemma IsValidNone(env: Env, subclass: (string, string) -> bool, s: Spec)
    requires !Parametrized(s)
    ensures IsValid(env, subclass, s, NoneV) == Ok(s.nullable)
  {
  }

  /** `convert(None)` is None when nullable and a TypeConversionError otherwise, for the flat classes. */
  lemma ConvertNone(env: Env, subclass: (string, string) -> bool, s: Spec)
    requires s.kind !in {ListKind, DictKind, DateTime}
    ensures Convert(env, subclass, s, NoneV) == if s.nullable then Ok(NoneV) else Err(TypeConversionError)
  {
  }

  /** The classes whose `convert` is `Validator.convert` itself. */
  predicate PlainConvert(s: Spec)
  {
    s.kind !in {DateTime, ListKind, DictKind}
  }

  /** A successful conversion of a plain-converting validator has passed every condition. */
  lemma ConvertedPassesConditions(env: Env, subclass: (string, string) -> bool, s: Spec, v: Value)
    requires PlainConvert(s) && v != NoneV && Convert(env, subclass, s, v).Ok?
    ensures PassesUpTo(s.conditions, Convert(env, subclass, s, v).value, |s.conditions|)
  {
  }

  /**
   * The condition loop never answers False for a plain-converting
   * validator: every `self(value)` it tests has already passed the
   * conditions inside `convert`, or `convert` raised first.
   */
  lemma {:induction false} ConditionsNeverFalse(env: Env, subclass: (string, string) -> bool, s: Spec, v: Value, i: nat)
    requires PlainConvert(s) && v != NoneV && i <= |s.conditions|
    ensures ConditionsHold(env, subclass, s, v, i) != Ok(false)
    decreases |s.conditions| - i
  {
    if i < |s.conditions| && Convert(env, subclass, s, v).Ok? {
      ConvertedPassesConditions(env, subclass, s, v);
      ConditionsNeverFalse(env, subclass, s, v, i + 1);
    }
  }

  /** So a plain-converting validator's `is_valid` answers False only for a rejected None or a failed type check. */
  lemma IsValidFalseOnlyOnType(env: Env, subclass: (string, string) -> bool, s: Spec, v: Value)
    requires PlainConvert(s)
    ensures IsValid(env, subclass, s, v) == Ok(false) <==>
              (v == NoneV && !s.nullable) || (v != NoneV && !ConverterOf(env, s.kind).isType(v, s.strict))
  {
    if v != NoneV && ConverterOf(env, s.kind).isType(v, s.strict) {
      ConditionsNeverFalse(env, subclass, s, v, 0);
    }
  }

  /**
   * As written, a value of the right type that fails a condition makes
   * `is_valid` raise the ValueError of `convert` instead of answering False.
   */
  lemma IsValidRaisesOnFailedCondition(env: Env, subclass: (string, string) -> bool, s: Spec, v: Value, ret: Value)
    requires s.kind !in {ListKind, DictKind, DateTime} && v != NoneV
    requires ConverterOf(env, s.kind).isType(v, s.strict) && ConverterOf(env, s.kind).convert(v, s.strict) == Some(ret)
    requires Check(s.conditions, ret).Fails?
    ensures IsValid(env, subclass, s, v) == Err(ValueError(ConditionFailed(Check(s.conditions, ret).index)))
  {
  }

  /**
   * The evident intent, as the later generations do it: `is_valid` is
   * `convert` with a ValueError read as False.
   */
  function IsValidIntended(env: Env, subclass: (string, string) -> bool, s: Spec, v: Value): (r: Result<bool>)
    ensures v == NoneV ==> r == Ok(s.nullable)
    ensures v != NoneV && r == Ok(true) ==> Convert(env, subclass, s, v).Ok?
    ensures r.Err? ==> !r.error.ValueError?
  {
    if v == NoneV then Ok(s.nullable)
    else if !ConverterOf(env, s.kind).isType(v, s.strict) then Ok(false)
    else match Convert(env, subclass, s, v)
      case Ok(_) => Ok(true)
      case Err(e) => if e.ValueError? then Ok(false) else Err(e)
  }

  /** The corrected `is_valid` answers False for a value of the right type that fails a condition. */
  lemma IntendedRejectsFailedCondition(env: Env, subclass: (string, string) -> bool, s: Spec, v: Value, ret: Value)
    requires s.kind !in {ListKind, DictKind, DateTime} && v != NoneV
    requires ConverterOf(env, s.kind).isType(v, s.strict) && ConverterOf(env, s.kind).convert(v, s.strict) == Some(ret)
    requires Check(s.conditions, ret).Fails?
    ensures IsValidIntended(env, subclass, s, v) == Ok(false)
  {
  }

  /**
   * A dict validator given only one dtype uses a nullable AnythingValidator
   * for the other side, which passes every value through, None included.
   */
  lemma MissingSideIsAnything(env: Env, subclass: (string, string) -> bool, v: Value)
    ensures ItemValidator(OrAnything(None), subclass) == Ok(Fresh(Anything).(nullable := true))
    ensures Convert(env, subclass, Fresh(Anything).(nullable := true), v) == Ok(v)
  {
  }

  /** A list item validator for a class that resolves to nothing raises AttributeError at the first conversion. */
  lemma UnresolvedDtypeRaises(env: Env, subclass: (string, string) -> bool, s: Spec, v: Value)
    requires s.kind == ListKind && s.dtype.Some? && s.dtype.value.PyType? && TypeOf(s.dtype.value, subclass) == Ok(Itself)
    ensures Convert(env, subclass, s, v).Err? && Convert(env, subclass, s, v).error.AttributeError?
  {
  }

  /** Item conversion keeps the number and order of the items. */
  lemma {:induction false} ConvertItemsMaps(env: Env, subclass: (string, string) -> bool, iv: Spec, items: seq<Value>, acc: seq<Value>)
    requires ConvertItems(env, subclass, iv, items, acc).Ok?
    ensures var rs := ConvertItems(env, subclass, iv, items, acc).value;
            |rs| == |acc| + |items| && rs[..|acc|] == acc
            && forall j :: 0 <= j < |items| ==> Convert(env, subclass, iv, items[j]) == Ok(rs[|acc| + j])
    decreases |items|
  {
    if items != [] {
      var x := Convert(env, subclass, iv, items[0]).value;
      ConvertItemsMaps(env, subclass, iv, items[1..], acc + [x]);
      var rs := ConvertItems(env, subclass, iv, items, acc).value;
      assert rs[..|acc|] == (acc + [x])[..|acc|];
      forall j | 0 <= j < |items|
        ensures Convert(env, subclass, iv, items[j]) == Ok(rs[|acc| + j])
      {
        if j > 0 {
          assert items[j] == items[1..][j - 1];
        }
      }
    }
  }

  // ----------------------------------------------------------- the object

  class Validator {
    var kind: Kind
    var nullable: bool
    var strict: Strict
    var conditions: seq<Condition>
    var dtype: Option<TypeArg>
    var keyDtype: Option<TypeArg>
    var valDtype: Option<TypeArg>

    function State(): Spec
      reads this
    {
      Spec(kind, nullable, strict, conditions, dtype, keyDtype, valDtype)
    }

    predicate Valid()
      reads this
    {
      WellFormed(State())
    }

    /** `__init__(nullable=..., strict=...)`; the list and dict classes take no arguments. */
    constructor (k: Kind, isNullable: bool, isStrict: bool)
      requires k == ListKind || k == DictKind ==> !isNullable && !isStrict
      ensures Valid()
      ensures State() == Fresh(k).(nullable := isNullable, strict := if isStrict then StrictMax else StrictMin)
    {
      kind, conditions := k, [];
      dtype, keyDtype, valDtype := None, None, None;
      nullable := isNullable;
      strict := if isStrict then StrictMax else StrictMin;
    }

    method Nullable(isNullable: bool)
      requires Valid()
      modifies this
      ensures Valid() && State() == old(State()).(nullable := isNullable)
    {
      nullable := isNullable;
    }

    method SetStrict(isStrict: bool)
      requires Valid()
      modifies this
      ensures Valid() && State() == old(State()).(strict := if isStrict then StrictMax else StrictMin)
    {
      strict := if isStrict then StrictMax else StrictMin;
    }

    method AddCondition(c: Condition)
      requires Valid()
      modifies this
      ensures Valid() && State() == old(State()).(conditions := old(conditions) + [c])
    {
      conditions := conditions + [c];
    }

    method MaxLen(length: int)
      requires Valid() && kind == Str
      modifies this
      ensures Valid() && State() == old(State()).(conditions := old(conditions) + [Checks.MaxLen(length)])
    {
      conditions := conditions + [Checks.MaxLen(length)];
    }

    method MinLen(length: int)
      requires Valid() && kind == Str
      modifies this
      ensures Valid() && State() == old(State()).(conditions := old(conditions) + [Checks.MinLen(length)])
    {
      conditions := conditions + [Checks.MinLen(length)];
    }

    method MaxValue(bound: int)
      requires Valid() && kind in {Int, Float}
      modifies this
      ensures Valid() && State() == old(State()).(conditions := old(conditions) + [Checks.MaxValue(bound)])
    {
      conditions := conditions + [Checks.MaxValue(bound)];
    }

    method MinValue(bound: int)
      requires Valid() && kind in {Int, Float}
      modifies this
      ensures Valid() && State() == old(State()).(conditions := old(conditions) + [Checks.MinValue(bound)])
    {
      conditions := conditions + [Checks.MinValue(bound)];
    }

    /** ListValidator.of_type (and `validator[dtype]`). */
    method OfType(t: TypeArg)
      requires Valid() && kind == ListKind
      modifies this
      ensures Valid() && State() == old(State()).(dtype := Some(t))
    {
      dtype := Some(t);
    }

    /** DictionaryValidator.of_types (and `validator[key_dtype, val_dtype]`); None leaves a side open. */
    method OfTypes(k: Option<TypeArg>, v: Option<TypeArg>)
      requires Valid() && kind == DictKind
      modifies this
      ensures Valid() && State() == old(State()).(keyDtype := k, valDtype := v)
    {
      keyDtype, valDtype := k, v;
    }

    /** `convert` on this object's state. */
    method ConvertValue(env: Env, subclass: (string, string) -> bool, v: Value) returns (r: Result<Value>)
      ensures r == Convert(env, subclass, State(), v)
    {
      var s := State();
      if kind == ListKind && dtype.Some? {
        r := ConvertListOf(env, subclass, s, v);
      } else if kind == DictKind && (keyDtype.Some? || valDtype.Some?) {
        r := ConvertDictOf(env, subclass, s, v);
      } else if kind == ListKind || kind == DictKind {
        r := BaseConvertOf(env, s, TryEval(env.eval, v));
      } else {
        r := BaseConvertOf(env, s, v);
        if r.Ok? && kind == DateTime {
          r := env.fromDatetime(r.value);
        }
      }
    }

    /** `Validator.is_valid` on this object's state: a new `self(value)` for every condition. */
    method BaseIsValidValue(env: Env, subclass: (string, string) -> bool, v: Value) returns (r: Result<bool>)
      ensures r == BaseIsValid(env, subclass, State(), v)
    {
      if v == NoneV {
        return Ok(nullable);
      }
      if !ConverterOf(env, kind).isType(v, strict) {
        return Ok(false);
      }
      var i := 0;
      while i < |conditions|
        invariant 0 <= i <= |conditions|
        invariant ConditionsHold(env, subclass, State(), v, 0) == ConditionsHold(env, subclass, State(), v, i)
      {
        var x := ConvertValue(env, subclass, v);
        if x.Err? {
          return Err(x.error);
        }
        var b := conditions[i].test(x.value);
        if b.Err? {
          return Err(b.error);
        }
        if !b.value {
          return Ok(false);
        }
        i := i + 1;
      }
      r := Ok(true);
    }
  }

  /** `convert` of a list validator with an item type: convert the whole, then each item. */
  method ConvertListOf(env: Env, subclass: (string, string) -> bool, s: Spec, v: Value) returns (r: Result<Value>)
    requires s.kind == ListKind && s.dtype.Some?
    ensures r == Convert(env, subclass, s, v)
  {
    var v1 := TryEval(env.eval, v);
    var iv := ItemValidator(s.dtype.value, subclass);
    if iv.Err? {
      return Err(iv.error);
    }
    var c := BaseConvertOf(env, s, v1);
    if c.Err? {
      return c;
    }
    if Iterate(c.value).None? {
      return Err(TypeError("object is not iterable"));
    }
    var rs := ConvertEach(env, subclass, iv.value, Iterate(c.value).value);
    r := if rs.Err? then Err(rs.error) else Ok(ListV(rs.value));
  }

  /** `convert` of a dict validator with a key or value type: convert the whole, then each entry. */
  method ConvertDictOf(env: Env, subclass: (string, string) -> bool, s: Spec, v: Value) returns (r: Result<Value>)
    requires s.kind == DictKind && (s.keyDtype.Some? || s.valDtype.Some?)
    ensures r == Convert(env, subclass, s, v)
  {
    var c := BaseConvertOf(env, s, TryEval(env.eval, v));
    if c.Err? {
      return c;
    }
    var kv := ItemValidator(OrAnything(s.keyDtype), subclass);
    if kv.Err? {
      return Err(kv.error);
    }
    var vv := ItemValidator(OrAnything(s.valDtype), subclass);
    if vv.Err? {
      return Err(vv.error);
    }
    if !c.value.DictV? {
      return Err(AttributeError("object has no attribute 'items'"));
    }
    var es := ConvertEachEntry(env, subclass, kv.value, vv.value, c.value.entries);
    r := if es.Err? then Err(es.error) else Ok(DictV(es.value));
  }

  /** `Validator.convert`, looping over the conditions. */
  method BaseConvertOf(env: Env, s: Spec, v: Value) returns (r: Result<Value>)
    ensures r == BaseConvert(env, s, v)
  {
    if v == NoneV {
      return if s.nullable then Ok(NoneV) else Err(TypeConversionError);
    }
    var converted := ConverterOf(env, s.kind).convert(v, s.strict);
    if converted.None? {
      return Err(TypeConversionError);
    }
    var ret := converted.value;
    var i := 0;
    while i < |s.conditions|
      invariant 0 <= i <= |s.conditions|
      invariant PassesUpTo(s.conditions, ret, i)
    {
      var outcome := s.conditions[i].test(ret);
      if outcome.Err? {
        return Err(outcome.error);
      }
      if !outcome.value {
        return Err(ValueError(ConditionFailed(i)));
      }
      i := i + 1;
    }
    r := Ok(ret);
  }

  /** A loop over all of `xs` that remembers the last element satisfying `p`. */
  method ScanForLast<T>(xs: seq<T>, p: T -> bool) returns (found: Option<nat>)
    ensures found == LastMatch(xs, p)
  {
    found := None;
    var i := 0;
    while i < |xs|
      invariant 0 <= i <= |xs|
      invariant found == LastMatch(xs[..i], p)
    {
      assert xs[..i + 1][..i] == xs[..i];
      if p(xs[i]) {
        found := Some(i);
      }
      i := i + 1;
    }
    assert xs[..|xs|] == xs;
  }

  /** `Validate.Type`, with its loop over the table: every matching entry overwrites the previous one. */
  method ResolveType(arg: TypeArg, subclass: (string, string) -> bool) returns (r: Result<Resolved>)
    ensures r == TypeOf(arg, subclass)
  {
    if !arg.PyType? {
      return TypeOf(arg, subclass);
    }
    var exact := FirstMatch(Table, (e: (string, Kind)) => e.0 == arg.name);
    if exact.Some? {
      return Ok(Cls(Table[exact.value].1));
    }
    var found := ScanForLast(Table, (e: (string, Kind)) => subclass(arg.name, e.0));
    r := if found.Some? then Ok(Cls(Table[found.value].1)) else Ok(Itself);
  }

  /** `[validator(item) for item in items]`. */
  method ConvertEach(env: Env, subclass: (string, string) -> bool, iv: Spec, items: seq<Value>) returns (r: Result<seq<Value>>)
    ensures r == ConvertItems(env, subclass, iv, items, [])
  {
    var acc: seq<Value> := [];
    var i := 0;
    while i < |items|
      invariant 0 <= i <= |items|
      invariant ConvertItems(env, subclass, iv, items, []) == ConvertItems(env, subclass, iv, items[i..], acc)
    {
      assert items[i..][1..] == items[i + 1..];
      var x := Convert(env, subclass, iv, items[i]);
      if x.Err? {
        return Err(x.error);
      }
      acc := acc + [x.value];
      i := i + 1;
    }
    r := Ok(acc);
  }

  /** `{key_validator(key): val_validator(val) for key, val in entries}`. */
  method ConvertEachEntry(env: Env, subclass: (string, string) -> bool, kv: Spec, vv: Spec, entries: seq<(Value, Value)>)
    returns (r: Result<seq<(Value, Value)>>)
    ensures r == ConvertEntries(env, subclass, kv, vv, entries, [])
  {
    var acc: seq<(Value, Value)> := [];
    var i := 0;
    while i < |entries|
      invariant 0 <= i <= |entries|
      invariant ConvertEntries(env, subclass, kv, vv, entries, []) == ConvertEntries(env, subclass, kv, vv, entries[i..], acc)
    {
      assert entries[i..][1..] == entries[i + 1..];
      var k := Convert(env, subclass, kv, entries[i].0);
      if k.Err? {
        return Err(k.error);
      }
      var x := Convert(env, subclass, vv, entries[i].1);
      if x.Err? {
        return Err(x.error);
      }
      if !Hashable(k.value) {
        return Err(Unhashable([k.value]).value);
      }
      acc := Set(acc, k.value, x.value);
      i := i + 1;
    }
    r := Ok(acc);
  }
}
