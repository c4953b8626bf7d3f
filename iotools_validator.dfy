/**
 * The middle validator generation (iotools/validator.py). The pipeline is
 * the same as in the newest one, with these differences: the strict level
 * is a setting; `is_valid` catches only ValueError; list and dict
 * validators evaluate strings themselves and build their item validators
 * afresh on every call with `Validate.Type(dtype).nullable()`; date-time
 * results are wrapped by `DateTime.from_datetime`.
 */
module IoToolsValidator {
  import opened Python
  import opened Checks

  /** The validator classes (the members of the `Validate` enum, plus Anything and Unknown). */
  datatype Kind = Int | Float | Bool | Str | ListKind | DictKind | DateTime | PathKind | FileKind | DirKind | Anything | Unknown

  /** What `Validate.Type` is given. */
  datatype TypeArg =
    | PyType(name: string, ctor: Value -> Result<Value>)   // a class, callable as a constructor
    | ValidatorClass(kind: Kind)                           // a Validator subclass
    | CallableObject(call: Value -> Result<Value>)         // any other callable object, such as a validator instance

  /**
   * The state of one validator: class, the constructor an
   * UnknownTypeValidator calls, `_nullable`, `_strict`, `_choices`,
   * `_conditions`, and the `dtype` (lists) or `key_dtype`/`val_dtype`
   * (dicts) given to `of_type`/`of_types`.
   */
  datatype Spec = Spec(kind: Kind, ctor: Value -> Result<Value>, nullable: bool, strict: Strict,
                       choices: Option<seq<Value>>, conditions: seq<Condition>,
                       dtype: Option<TypeArg>, keyDtype: Option<TypeArg>, valDtype: Option<TypeArg>)

  /** `dtype` only on list validators, `key_dtype`/`val_dtype` only on dict validators. */
  predicate WellFormed(s: Spec)
  {
    (s.dtype.Some? ==> s.kind == ListKind) && (s.keyDtype.Some? || s.valDtype.Some? ==> s.kind == DictKind)
  }

  predicate Parametrized(s: Spec)
  {
    (s.kind == ListKind && s.dtype.Some?) || (s.kind == DictKind && (s.keyDtype.Some? || s.valDtype.Some?))
  }

  /** The typepy converters, `DateTime.from_datetime` and `eval`, all outside the model. */
  datatype Env = Env(converter: Kind -> Converter, fromDatetime: Value -> Result<Value>, eval: string -> Option<Value>)

  const AnythingConverter: Converter := Converter((v, l) => true, (v, l) => Some(v))

  function ConverterOf(env: Env, k: Kind): Converter
  {
    if k == Anything || k == Unknown then AnythingConverter else env.converter(k)
  }

  function NoConstructor(v: Value): Result<Value> { Ok(v) }

  /** A validator as its constructor leaves it: not nullable, permissive, no choices, no conditions, no dtypes. */
  function Fresh(k: Kind, ctor: Value -> Result<Value>): (s: Spec)
    ensures WellFormed(s) && !Parametrized(s)
  {
    Spec(k, ctor, false, StrictMin, None, [], None, None, None)
  }

  /** `Validator.convert`. */
  function BaseConvert(env: Env, s: Spec, v: Value): Result<Value>
  {
    if v == NoneV then
      if s.nullable then Ok(NoneV) else Err(TypeConversionError)
    else
      match ConverterOf(env, s.kind).convert(v, s.strict)
      case None => Err(TypeConversionError)
      case Some(ret) =>
        if s.choices.Some? && ret !in s.choices.value then Err(ValueError(NotAChoice))
        else
          var verdict := Check(s.conditions, ret);
          if verdict.AllPass? then Ok(ret) else Err(VerdictError(verdict))
  }

  /** `convert` of a validator without dtypes, dispatched on its class. */
  function FlatConvert(env: Env, s: Spec, v: Value): Result<Value>
  {
    match s.kind
    case Unknown => (match BaseConvert(env, s, v) case Err(e) => Err(e) case Ok(x) => s.ctor(x))
    case DateTime => (match BaseConvert(env, s, v) case Err(e) => Err(e) case Ok(x) => env.fromDatetime(x))
    case ListKind => BaseConvert(env, s, TryEval(env.eval, v))
    case DictKind => BaseConvert(env, s, TryEval(env.eval, v))
    case _ => BaseConvert(env, s, v)
  }

  /** The AnythingValidator instance a dict validator substitutes for a missing dtype, called on a value. */
  function AnythingCall(v: Value): (r: Result<Value>)
    ensures v != NoneV ==> r == Ok(v)
    ensures v == NoneV ==> r == Err(TypeConversionError)
  {
    if v == NoneV then Err(TypeConversionError) else Ok(v)
  }

  /** The `Validate` enum's `{member.value.dtype: member.value}` table, in member order. */
  const Table: seq<(string, Kind)> := [
    ("int", Int), ("float", Float), ("bool", Bool), ("str", Str), ("list", ListKind), ("dict", DictKind),
    ("date", DateTime), ("Path", PathKind), ("File", FileKind), ("Dir", DirKind)]

  /** The kind a Python type maps to: its own table entry, else the first entry it subclasses, else Unknown. */
  function TypeKind(name: string, subclass: (string, string) -> bool): (k: Kind)
    ensures forall i :: 0 <= i < |Table| && Table[i].0 == name ==> k == Table[i].1
    ensures (forall i :: 0 <= i < |Table| ==> Table[i].0 != name) ==>
              forall i :: (0 <= i < |Table| && subclass(name, Table[i].0)
                           && forall j :: 0 <= j < i ==> !subclass(name, Table[j].0))
                          ==> k == Table[i].1
    ensures (forall i :: 0 <= i < |Table| ==> Table[i].0 != name && !subclass(name, Table[i].0)) ==> k == Unknown
  {
    TableKeysDistinct();
    ClassLookup(Table, name, subclass, Unknown)
  }

  /**
   * `Validate.Type(dtype)`: the exact table entry; else a Validator subclass
   * instantiated as is (UnknownTypeValidator needs a constructor argument);
   * else the first table entry the class subclasses; else an
   * UnknownTypeValidator around the callable.
   */
  function Type(arg: TypeArg, subclass: (string, string) -> bool): (r: Result<Spec>)
    ensures r.Ok? ==> r.value.nullable == false && r.value.strict == StrictMin && !Parametrized(r.value)
                      && r.value.conditions == [] && r.value.choices.None?
    ensures arg.PyType? ==> r.Ok? && r.value.kind == TypeKind(arg.name, subclass)
    ensures arg.PyType? && TypeKind(arg.name, subclass) == Unknown ==> r.value.ctor == arg.ctor
    ensures arg.ValidatorClass? ==> (r.Ok? <==> arg.kind != Unknown) && (r.Ok? ==> r.value.kind == arg.kind)
    ensures arg.CallableObject? ==> r == Ok(Fresh(Unknown, arg.call))
  {
    match arg
    case ValidatorClass(k) =>
      if k == Unknown then Err(TypeError("missing required argument: 'constructor'")) else Ok(Fresh(k, NoConstructor))
    case CallableObject(call) => Ok(Fresh(Unknown, call))
    case PyType(name, ctor) =>
      var k := TypeKind(name, subclass);
      if k == Unknown then Ok(Fresh(Unknown, ctor)) else Ok(Fresh(k, NoConstructor))
  }

  lemma TableKeysDistinct()
    ensures forall i, j :: 0 <= i < j < |Table| ==> Table[i].0 != Table[j].0
  {
  }

  /** `Validate.Type(dtype).nullable()`, the item validator built on every call. */
  function ItemValidator(arg: TypeArg, subclass: (string, string) -> bool): Result<Spec>
  {
    match Type(arg, subclass)
    case Err(e) => Err(e)
    case Ok(s) => Ok(s.(nullable := true))
  }

  /** `Maybe(dtype).else_(AnythingValidator())`. */
  function OrAnything(t: Option<TypeArg>): TypeArg
  {
    if t.Some? then t.value else CallableObject(AnythingCall)
  }

  /** `convert`, dispatched on the class, with the item conversion of parametrized lists and dicts. */
  function Convert(env: Env, subclass: (string, string) -> bool, s: Spec, v: Value): Result<Value>
  {
    if s.kind == ListKind && s.dtype.Some? then
      var v1 := TryEval(env.eval, v);
      match ItemValidator(s.dtype.value, subclass)
      case Err(e) => Err(e)
      case Ok(iv) =>
        match BaseConvert(env, s, v1)
        case Err(e) => Err(e)
        case Ok(c) =>
          if Iterate(c).None? then Err(TypeError("object is not iterable"))
          else
            var rs := ConvertItems(env, iv, Iterate(c).value, []);
            if rs.Err? then Err(rs.error) else Ok(ListV(rs.value))
    else if s.kind == DictKind && (s.keyDtype.Some? || s.valDtype.Some?) then
      var v1 := TryEval(env.eval, v);
      match BaseConvert(env, s, v1)
      case Err(e) => Err(e)
      case Ok(c) =>
        match ItemValidator(OrAnything(s.keyDtype), subclass)
        case Err(e) => Err(e)
        case Ok(kv) =>
          match ItemValidator(OrAnything(s.valDtype), subclass)
          case Err(e) => Err(e)
          case Ok(vv) =>
            if !c.DictV? then Err(AttributeError("object has no attribute 'items'"))
            else
              var es := ConvertEntries(env, kv, vv, c.entries, []);
              if es.Err? then Err(es.error) else Ok(DictV(es.value))
    else FlatConvert(env, s, v)
  }

  function ConvertItems(env: Env, iv: Spec, items: seq<Value>, acc: seq<Value>): Result<seq<Value>>
  {
    if items == [] then Ok(acc)
    else match FlatConvert(env, iv, items[0])
      case Err(e) => Err(e)
      case Ok(x) => ConvertItems(env, iv, items[1..], acc + [x])
  }

  function ConvertEntries(env: Env, kv: Spec, vv: Spec, entries: seq<(Value, Value)>, acc: seq<(Value, Value)>)
    : Result<seq<(Value, Value)>>
  {
    if entries == [] then Ok(acc)
    else match FlatConvert(env, kv, entries[0].0)
      case Err(e) => Err(e)
      case Ok(k) =>
        match FlatConvert(env, vv, entries[0].1)
        case Err(e) => Err(e)
        case Ok(x) =>
          if !Hashable(k) then Err(Unhashable([k]).value)
          else ConvertEntries(env, kv, vv, entries[1..], Set(acc, k, x))
  }

  /** One entry of the dict comprehension goes through: key and value convert and the key hashes. */
  predicate EntryConverts(env: Env, kv: Spec, vv: Spec, e: (Value, Value))
  {
    FlatConvert(env, kv, e.0).Ok? && FlatConvert(env, vv, e.1).Ok? && Hashable(FlatConvert(env, kv, e.0).value)
  }

  /**
   * The dict comprehension succeeds iff every entry goes through, and a dict it
   * builds holds only hashable keys.
   */
  lemma {:induction false} ConvertEntriesMeaning(env: Env, kv: Spec, vv: Spec,
                                                entries: seq<(Value, Value)>, acc: seq<(Value, Value)>)
    requires KeysHashable(acc)
    ensures var r := ConvertEntries(env, kv, vv, entries, acc);
            (r.Ok? <==> forall j :: 0 <= j < |entries| ==> EntryConverts(env, kv, vv, entries[j]))
            && (r.Ok? ==> KeysHashable(r.value))
    decreases |entries|
  {
    if entries != [] && EntryConverts(env, kv, vv, entries[0]) {
      var k := FlatConvert(env, kv, entries[0].0).value;
      var x := FlatConvert(env, vv, entries[0].1).value;
      SetKeepsHashable(acc, k, x);
      ConvertEntriesMeaning(env, kv, vv, entries[1..], Set(acc, k, x));
      assert forall j :: 0 < j < |entries| ==> entries[j] == entries[1..][j - 1];
    }
  }

  /**
   * When the first entry that does not go through has a key converting to a list or
   * dict and a value that converts, inserting it raises the TypeError of `hash`.
   */
  lemma {:induction false} UnhashableKeyRaises(env: Env, kv: Spec, vv: Spec,
                                              entries: seq<(Value, Value)>, acc: seq<(Value, Value)>, j: nat)
    requires j < |entries| && forall i :: 0 <= i < j ==> EntryConverts(env, kv, vv, entries[i])
    requires FlatConvert(env, kv, entries[j].0).Ok? && FlatConvert(env, vv, entries[j].1).Ok?
    requires !Hashable(FlatConvert(env, kv, entries[j].0).value)
    ensures ConvertEntries(env, kv, vv, entries, acc) == Err(Unhashable([FlatConvert(env, kv, entries[j].0).value]).value)
    ensures ConvertEntries(env, kv, vv, entries, acc).error.TypeError?
    decreases j
  {
    if j > 0 {
      assert EntryConverts(env, kv, vv, entries[0]);
      var k := FlatConvert(env, kv, entries[0].0).value;
      var x := FlatConvert(env, vv, entries[0].1).value;
      assert forall i :: 0 <= i < j - 1 ==> entries[1..][i] == entries[i + 1];
      UnhashableKeyRaises(env, kv, vv, entries[1..], Set(acc, k, x), j - 1);
    }
  }

  /** `Validator.is_valid`: only ValueError from `convert` becomes False. */
  function BaseIsValid(env: Env, subclass: (string, string) -> bool, s: Spec, v: Value): Result<bool>
  {
    if v == NoneV then Ok(s.nullable)
    else if !ConverterOf(env, s.kind).isType(v, s.strict) then Ok(false)
    else match Convert(env, subclass, s, v)
      case Ok(_) => Ok(true)
      case Err(e) => if e.ValueError? then Ok(false) else Err(e)
  }

  /** `is_valid`, dispatched on the class. */
  function IsValid(env: Env, subclass: (string, string) -> bool, s: Spec, v: Value): Result<bool>
  {
    if s.kind != ListKind && s.kind != DictKind then BaseIsValid(env, subclass, s, v)
    else
      var v1 := TryEval(env.eval, v);
      if !Parametrized(s) then BaseIsValid(env, subclass, s, v1)
      else match BaseIsValid(env, subclass, s, v1)
        case Err(e) => Err(e)
        case Ok(valid) =>
          if !valid then Ok(false)
          else if s.kind == ListKind then
            match ItemValidator(s.dtype.value, subclass)
            case Err(e) => Err(e)
            case Ok(iv) =>
              match BaseConvert(env, s, v1)
              case Err(e) => Err(e)
              case Ok(c) =>
                if Iterate(c).None? then Err(TypeError("object is not iterable"))
                else AllValid(env, subclass, iv, Iterate(c).value)
          else
            match BaseConvert(env, s, v1)
            case Err(e) => Err(e)
            case Ok(c) =>
              match ItemValidator(OrAnything(s.keyDtype), subclass)
              case Err(e) => Err(e)
              case Ok(kv) =>
                match ItemValidator(OrAnything(s.valDtype), subclass)
                case Err(e) => Err(e)
                case Ok(vv) =>
                  if !c.DictV? then Err(AttributeError("object has no attribute 'keys'"))
                  else
                    var keysValid := AllValid(env, subclass, kv, Keys(c.entries));
                    if keysValid.Err? then keysValid
                    else if !keysValid.value then Ok(false)
                    else AllValid(env, subclass, vv, seq(|c.entries|, i requires 0 <= i < |c.entries| => c.entries[i].1))
  }

  /** `is_valid` of a freshly built item validator (it has no dtypes of its own). */
  function FlatIsValid(env: Env, subclass: (string, string) -> bool, iv: Spec, v: Value): Result<bool>
  {
    if iv.kind == ListKind || iv.kind == DictKind then BaseIsValid(env, subclass, iv, TryEval(env.eval, v))
    else BaseIsValid(env, subclass, iv, v)
  }

  function AllValid(env: Env, subclass: (string, string) -> bool, iv: Spec, items: seq<Value>): Result<bool>
  {
    if items == [] then Ok(true)
    else match FlatIsValid(env, subclass, iv, items[0])
      case Err(e) => Err(e)
      case Ok(b) =>
        match AllValid(env, subclass, iv, items[1..])
        case Err(e) => Err(e)
        case Ok(rest) => Ok(b && rest)
  }

  // ------------------------------------------------------------- properties

  /** `is_valid(None)` is the nullable flag for a validator without dtypes. */
  lemma IsValidNone(env: Env, subclass: (string, string) -> bool, s: Spec)
    requires !Parametrized(s)
    ensures IsValid(env, subclass, s, NoneV) == Ok(s.nullable)
  {
  }

  /** `convert(None)` is None when nullable and a TypeConversionError otherwise, for the classes that add no post-processing. */
  lemma ConvertNone(env: Env, subclass: (string, string) -> bool, s: Spec)
    requires !Parametrized(s) && s.kind != Unknown && s.kind != DateTime
    ensures Convert(env, subclass, s, NoneV) == if s.nullable then Ok(NoneV) else Err(TypeConversionError)
  {
  }

  /**
   * A nullable list validator with a dtype raises on `convert(None)`: the
   * base conversion gives None and the comprehension iterates over it.
   */
  lemma ConvertNoneParametrizedList(env: Env, subclass: (string, string) -> bool, s: Spec)
    requires s.kind == ListKind && s.dtype.Some? && s.nullable && ItemValidator(s.dtype.value, subclass).Ok?
    ensures Convert(env, subclass, s, NoneV) == Err(TypeError("object is not iterable"))
  {
  }

  /** The evident intent of list and dict `convert`: a nullable validator passes None through. */
  function ConvertIntended(env: Env, subclass: (string, string) -> bool, s: Spec, v: Value): (r: Result<Value>)
    ensures v == NoneV && s.kind in {ListKind, DictKind} ==> r == if s.nullable then Ok(NoneV) else Err(TypeConversionError)
    ensures v != NoneV ==> r == Convert(env, subclass, s, v)
  {
    if v == NoneV && s.kind in {ListKind, DictKind} then
      if s.nullable then Ok(NoneV) else Err(TypeConversionError)
    else Convert(env, subclass, s, v)
  }

  /**
   * The corrected list and dict `convert`: None converts as it would for
   * the same validator without dtypes, passing through exactly when the
   * validator is nullable; any other value a parametrized list validator
   * converts is the list of its items, each through the item validator, in
   * order.
   */
  lemma ConvertIntendedMeaning(env: Env, subclass: (string, string) -> bool, s: Spec, v: Value)
    requires s.kind in {ListKind, DictKind}
    ensures v == NoneV ==> ConvertIntended(env, subclass, s, v) == FlatConvert(env, s, v)
    ensures v == NoneV ==> (ConvertIntended(env, subclass, s, v) == Ok(NoneV) <==> s.nullable)
    ensures s.kind == ListKind && s.dtype.Some? && v != NoneV && ConvertIntended(env, subclass, s, v).Ok? ==>
              ItemValidator(s.dtype.value, subclass).Ok? && BaseConvert(env, s, TryEval(env.eval, v)).Ok?
              && Iterate(BaseConvert(env, s, TryEval(env.eval, v)).value).Some?
              && var items := Iterate(BaseConvert(env, s, TryEval(env.eval, v)).value).value;
                 var r := ConvertIntended(env, subclass, s, v).value;
                 r.ListV? && |r.items| == |items|
                 && forall j :: 0 <= j < |items| ==> FlatConvert(env, ItemValidator(s.dtype.value, subclass).value, items[j]) == Ok(r.items[j])
  {
    if s.kind == ListKind && s.dtype.Some? && v != NoneV && ConvertIntended(env, subclass, s, v).Ok? {
      ConvertIntendedItems(env, subclass, s, v);
    }
  }

  /** The list case of `ConvertIntendedMeaning`. */
  lemma ConvertIntendedItems(env: Env, subclass: (string, string) -> bool, s: Spec, v: Value)
    requires s.kind == ListKind && s.dtype.Some? && v != NoneV && ConvertIntended(env, subclass, s, v).Ok?
    ensures ItemValidator(s.dtype.value, subclass).Ok? && BaseConvert(env, s, TryEval(env.eval, v)).Ok?
            && Iterate(BaseConvert(env, s, TryEval(env.eval, v)).value).Some?
    ensures var items := Iterate(BaseConvert(env, s, TryEval(env.eval, v)).value).value;
            var r := ConvertIntended(env, subclass, s, v).value;
            r.ListV? && |r.items| == |items|
            && forall j :: 0 <= j < |items| ==> FlatConvert(env, ItemValidator(s.dtype.value, subclass).value, items[j]) == Ok(r.items[j])
  {
    var iv := ItemValidator(s.dtype.value, subclass).value;
    var items := Iterate(BaseConvert(env, s, TryEval(env.eval, v)).value).value;
    ConvertItemsMaps(env, iv, items, []);
  }

  /** A TypeConversionError from `convert` escapes `is_valid`: only ValueError is caught. */
  lemma IsValidLetsConversionErrorEscape(env: Env, subclass: (string, string) -> bool, s: Spec, v: Value)
    requires v != NoneV && !Parametrized(s) && s.kind !in {ListKind, DictKind, Unknown, DateTime, Anything}
    requires env.converter(s.kind).isType(v, s.strict) && env.converter(s.kind).convert(v, s.strict).None?
    ensures IsValid(env, subclass, s, v) == Err(TypeConversionError)
  {
  }

  /** `is_valid` answers True only if `convert` succeeds, and never lets a ValueError escape. */
  lemma BaseIsValidSound(env: Env, subclass: (string, string) -> bool, s: Spec, v: Value)
    requires v != NoneV
    ensures BaseIsValid(env, subclass, s, v) == Ok(true) ==> Convert(env, subclass, s, v).Ok?
    ensures BaseIsValid(env, subclass, s, v).Err? ==> !BaseIsValid(env, subclass, s, v).error.ValueError?
  {
  }

  /** A converted value outside the choices raises ValueError whatever the conditions say. */
  lemma ChoicesBeforeConditions(env: Env, subclass: (string, string) -> bool, s: Spec, v: Value, ret: Value)
    requires v != NoneV && !Parametrized(s) && s.kind !in {Unknown, DateTime, ListKind, DictKind}
    requires ConverterOf(env, s.kind).convert(v, s.strict) == Some(ret)
    requires s.choices.Some? && ret !in s.choices.value
    ensures Convert(env, subclass, s, v) == Err(ValueError(NotAChoice))
  {
  }

  /**
   * Past the choices the conditions decide in insertion order: all passing
   * returns the converted value; otherwise the first one not to pass decides.
   */
  lemma ConditionsInOrder(env: Env, subclass: (string, string) -> bool, s: Spec, v: Value, ret: Value)
    requires v != NoneV && !Parametrized(s) && s.kind !in {Unknown, DateTime, ListKind, DictKind}
    requires ConverterOf(env, s.kind).convert(v, s.strict) == Some(ret)
    requires s.choices.None? || ret in s.choices.value
    ensures PassesUpTo(s.conditions, ret, |s.conditions|) ==> Convert(env, subclass, s, v) == Ok(ret)
    ensures forall i :: 0 <= i < |s.conditions| && PassesUpTo(s.conditions, ret, i) && s.conditions[i].test(ret) == Ok(false)
              ==> Convert(env, subclass, s, v) == Err(ValueError(ConditionFailed(i)))
  {
    var verdict := Check(s.conditions, ret);
    forall i | 0 <= i < |s.conditions| && PassesUpTo(s.conditions, ret, i) && s.conditions[i].test(ret) == Ok(false)
      ensures verdict == Fails(i)
    {
      FirstNotPassing(s.conditions, ret, i);
    }
  }

  lemma FirstNotPassing(conds: seq<Condition>, ret: Value, i: nat)
    requires i < |conds| && PassesUpTo(conds, ret, i) && conds[i].test(ret) == Ok(false)
    ensures Check(conds, ret) == Fails(i)
  {
  }

  /**
   * A dict validator given only a key dtype converts each value with an
   * UnknownTypeValidator around an AnythingValidator instance: values come
   * through unchanged, except None, which that non-nullable instance rejects.
   */
  lemma MissingSideIsAnything(env: Env, subclass: (string, string) -> bool, v: Value)
    ensures ItemValidator(OrAnything(None), subclass).Ok?
    ensures var vv := ItemValidator(OrAnything(None), subclass).value;
            vv.kind == Unknown && FlatConvert(env, vv, v) == (if v == NoneV then Err(TypeConversionError) else Ok(v))
  {
  }

  /** Item conversion keeps the number and order of the items. */
  lemma {:induction false} ConvertItemsMaps(env: Env, iv: Spec, items: seq<Value>, acc: seq<Value>)
    requires ConvertItems(env, iv, items, acc).Ok?
    ensures var rs := ConvertItems(env, iv, items, acc).value;
            |rs| == |acc| + |items| && rs[..|acc|] == acc
            && forall j :: 0 <= j < |items| ==> FlatConvert(env, iv, items[j]) == Ok(rs[|acc| + j])
    decreases |items|
  {
    if items != [] {
      var x := FlatConvert(env, iv, items[0]).value;
      ConvertItemsMaps(env, iv, items[1..], acc + [x]);
      var rs := ConvertItems(env, iv, items, acc).value;
      assert rs[..|acc|] == (acc + [x])[..|acc|];
      forall j | 0 <= j < |items|
        ensures FlatConvert(env, iv, items[j]) == Ok(rs[|acc| + j])
      {
        if j > 0 {
          assert items[j] == items[1..][j - 1];
        }
      }
    }
  }

  // ----------------------------------------------------------- the object

  class Validator {
    var kind: Kind
    var ctor: Value -> Result<Value>
    var nullable: bool
    var strict: Strict
    var choices: Option<seq<Value>>
    var conditions: seq<Condition>
    var dtype: Option<TypeArg>
    var keyDtype: Option<TypeArg>
    var valDtype: Option<TypeArg>

    function State(): Spec
      reads this
    {
      Spec(kind, ctor, nullable, strict, choices, conditions, dtype, keyDtype, valDtype)
    }

    predicate Valid()
      reads this
    {
      WellFormed(State())
    }

    /**
     * `__init__(nullable=..., strict=...)`, which goes through the two
     * fluent setters; the list and dict classes take no arguments, so they
     * are built with the defaults only.
     */
    constructor (k: Kind, isNullable: bool, isStrict: bool, constructorArg: Value -> Result<Value>)
      requires k == ListKind || k == DictKind ==> !isNullable && !isStrict
      ensures Valid()
      ensures State() == Fresh(k, constructorArg).(nullable := isNullable, strict := if isStrict then StrictMax else StrictMin)
    {
      kind, ctor := k, constructorArg;
      choices, conditions := None, [];
      dtype, keyDtype, valDtype := None, None, None;
      nullable := isNullable;
      strict := if isStrict then StrictMax else StrictMin;
    }

    method Nullable(isNullable: bool)
      requires Valid()
      modifies this
      ensures Valid() && State() == old(State()).(nullable := isNullable)
    {
      nullable := isNullable;
    }

    /** `strict(True)` selects the MAX strict level, `strict(False)` the MIN one. */
    method SetStrict(isStrict: bool)
      requires Valid()
      modifies this
      ensures Valid() && State() == old(State()).(strict := if isStrict then StrictMax else StrictMin)
    {
      strict := if isStrict then StrictMax else StrictMin;
    }

    /** `choices(enumeration)`: an Enum class gives its members' values, anything else goes through `list()`. */
    method Choices(arg: ChoicesArg) returns (raised: Option<Exc>)
      requires Valid() && !arg.NoChoices?
      modifies this
      ensures Valid()
      ensures arg.EnumClass? ==> raised.None? && State() == old(State()).(choices := Some(Values(arg.members)))
      ensures arg.Iterable? && Iterate(arg.v).Some? ==>
                raised.None? && State() == old(State()).(choices := Some(Iterate(arg.v).value))
      ensures arg.Iterable? && Iterate(arg.v).None? ==> raised.Some? && State() == old(State())
    {
      raised := None;
      if arg.EnumClass? {
        choices := Some(Values(arg.members));
      } else if Iterate(arg.v).Some? {
        choices := Some(Iterate(arg.v).value);
      } else {
        raised := Some(TypeError("object is not iterable"));
      }
    }

    /** `condition(...)`: appended after the existing conditions. */
    method AddCondition(c: Condition)
      requires Valid()
      modifies this
      ensures Valid() && State() == old(State()).(conditions := old(conditions) + [c])
    {
      conditions := conditions + [c];
    }

    method MaxLen(length: int)
      requires Valid() && kind == Str
      modifies this
      ensures Valid() && State() == old(State()).(conditions := old(conditions) + [Checks.MaxLen(length)])
    {
      conditions := conditions + [Checks.MaxLen(length)];
    }

    method MinLen(length: int)
      requires Valid() && kind == Str
      modifies this
      ensures Valid() && State() == old(State()).(conditions := old(conditions) + [Checks.MinLen(length)])
    {
      conditions := conditions + [Checks.MinLen(length)];
    }

    method MaxValue(bound: int)
      requires Valid() && kind in {Int, Float}
      modifies this
      ensures Valid() && State() == old(State()).(conditions := old(conditions) + [Checks.MaxValue(bound)])
    {
      conditions := conditions + [Checks.MaxValue(bound)];
    }

    method MinValue(bound: int)
      requires Valid() && kind in {Int, Float}
      modifies this
      ensures Valid() && State() == old(State()).(conditions := old(conditions) + [Checks.MinValue(bound)])
    {
      conditions := conditions + [Checks.MinValue(bound)];
    }

    /** ListValidator.of_type: stores the dtype; the item validator is built only when used. */
    method OfType(t: Option<TypeArg>)
      requires Valid() && kind == ListKind
      modifies this
      ensures Valid() && State() == old(State()).(dtype := t)
    {
      dtype := t;
    }

    /** DictionaryValidator.of_types. */
    method OfTypes(k: Option<TypeArg>, v: Option<TypeArg>)
      requires Valid() && kind == DictKind
      modifies this
      ensures Valid() && State() == old(State()).(keyDtype := k, valDtype := v)
    {
      keyDtype, valDtype := k, v;
    }

    /** `Validator.convert` on this object's state, looping over the conditions. */
    method BaseConvertValue(env: Env, v: Value) returns (r: Result<Value>)
      ensures r == BaseConvert(env, State(), v)
    {
      if v == NoneV {
        return if nullable then Ok(NoneV) else Err(TypeConversionError);
      }
      var converted := ConverterOf(env, kind).convert(v, strict);
      if converted.None? {
        return Err(TypeConversionError);
      }
      var ret := converted.value;
      if choices.Some? && ret !in choices.value {
        return Err(ValueError(NotAChoice));
      }
      var i := 0;
      while i < |conditions|
        invariant 0 <= i <= |conditions|
        invariant PassesUpTo(conditions, ret, i)
      {
        var outcome := conditions[i].test(ret);
        if outcome.Err? {
          return Err(outcome.error);
        }
        if !outcome.value {
          return Err(ValueError(ConditionFailed(i)));
        }
        i := i + 1;
      }
      r := Ok(ret);
    }

    /** `convert`, dispatched on this object's class. */
    method ConvertValue(env: Env, subclass: (string, string) -> bool, v: Value) returns (r: Result<Value>)
      ensures r == Convert(env, subclass, State(), v)
    {
      if kind == ListKind && dtype.Some? {
        r := ConvertListValue(env, subclass, v);
      } else if kind == DictKind && (keyDtype.Some? || valDtype.Some?) {
        r := ConvertDictValue(env, subclass, v);
      } else if kind == ListKind || kind == DictKind {
        r := BaseConvertValue(env, TryEval(env.eval, v));
      } else {
        r := BaseConvertValue(env, v);
        if r.Ok? && kind == Unknown {
          r := ctor(r.value);
        } else if r.Ok? && kind == DateTime {
          r := env.fromDatetime(r.value);
        }
      }
    }

    /** `convert` of a list validator with an item type: convert the whole, then each item. */
    method ConvertListValue(env: Env, subclass: (string, string) -> bool, v: Value) returns (r: Result<Value>)
      requires kind == ListKind && dtype.Some?
      ensures r == Convert(env, subclass, State(), v)
    {
      var v1 := TryEval(env.eval, v);
      var iv := ItemValidator(dtype.value, subclass);
      if iv.Err? {
        return Err(iv.error);
      }
      var c := BaseConvertValue(env, v1);
      if c.Err? {
        return c;
      }
      if Iterate(c.value).None? {
        return Err(TypeError("object is not iterable"));
      }
      var rs := ConvertEach(env, iv.value, Iterate(c.value).value);
      r := if rs.Err? then Err(rs.error) else Ok(ListV(rs.value));
    }

    /** `convert` of a dict validator with a key or value type: convert the whole, then each entry. */
    method ConvertDictValue(env: Env, subclass: (string, string) -> bool, v: Value) returns (r: Result<Value>)
      requires kind == DictKind && (keyDtype.Some? || valDtype.Some?)
      ensures r == Convert(env, subclass, State(), v)
    {
      var c := BaseConvertValue(env, TryEval(env.eval, v));
      if c.Err? {
        return c;
      }
      var kv := ItemValidator(OrAnything(keyDtype), subclass);
      if kv.Err? {
        return Err(kv.error);
      }
      var vv := ItemValidator(OrAnything(valDtype), subclass);
      if vv.Err? {
        return Err(vv.error);
      }
      if !c.value.DictV? {
        return Err(AttributeError("object has no attribute 'items'"));
      }
      var es := ConvertEachEntry(env, kv.value, vv.value, c.value.entries);
      r := if es.Err? then Err(es.error) else Ok(DictV(es.value));
    }
  }

  /** `[validator(item) for item in items]`. */
  method ConvertEach(env: Env, iv: Spec, items: seq<Value>) returns (r: Result<seq<Value>>)
    ensures r == ConvertItems(env, iv, items, [])
  {
    var acc: seq<Value> := [];
    var i := 0;
    while i < |items|
      invariant 0 <= i <= |items|
      invariant ConvertItems(env, iv, items, []) == ConvertItems(env, iv, items[i..], acc)
    {
      assert items[i..][1..] == items[i + 1..];
      var x := FlatConvert(env, iv, items[i]);
      if x.Err? {
        return Err(x.error);
      }
      acc := acc + [x.value];
      i := i + 1;
    }
    r := Ok(acc);
  }

  /** `{key_validator(key): val_validator(val) for key, val in entries}`. */
  method ConvertEachEntry(env: Env, kv: Spec, vv: Spec, entries: seq<(Value, Value)>) returns (r: Result<seq<(Value, Value)>>)
    ensures r == ConvertEntries(env, kv, vv, entries, [])
  {
    var acc: seq<(Value, Value)> := [];
    var i := 0;
    while i < |entries|
      invariant 0 <= i <= |entries|
      invariant ConvertEntries(env, kv, vv, entries, []) == ConvertEntries(env, kv, vv, entries[i..], acc)
    {
      assert entries[i..][1..] == entries[i + 1..];
      var k := FlatConvert(env, kv, entries[i].0);
      if k.Err? {
        return Err(k.error);
      }
      var x := FlatConvert(env, vv, entries[i].1);
      if x.Err? {
        return Err(x.error);
      }
      if !Hashable(k.value) {
        return Err(Unhashable([k.value]).value);
      }
      acc := Set(acc, k.value, x.value);
      i := i + 1;
    }
    r := Ok(acc);
  }
}
