/**
 * The newest validator generation (iotools/misc/validator.py): a validator
 * handles None by its nullable flag, pre-processes the value (parametrizable
 * validators `eval` strings), converts it with the typepy converter at the
 * MIN strict level, checks the choices, runs the conditions in insertion
 * order and maps the result to a subtype. List, set and dict validators may
 * carry validators for their items, keys and values; `infer_type` picks a
 * validator for a type from the registry filled in class-definition order.
 */
module MiscValidator {
  import opened Python
  import opened Checks

  /** The concrete validator classes. */
  datatype Kind =
    | Boolean | String | Integer | Float | Decimal
    | ListKind | SetKind | Dictionary
    | DateTime | Date | PathKind | FileKind | DirKind | EnumKind
    | Anything | Unknown

  /** Validators that carry item validators (ListValidator and its subclass SetValidator). */
  predicate IsListLike(k: Kind) { k == ListKind || k == SetKind }

  /** ParametrizableValidator subclasses, whose `_pre_process` evaluates strings. */
  predicate IsParametrizable(k: Kind) { k == ListKind || k == SetKind || k == Dictionary || k == EnumKind }

  /** Classes that override `_to_subtype`. */
  predicate HasSubtype(k: Kind) { k in {String, ListKind, SetKind, Dictionary, DateTime, Date} }

  /**
   * Item validators: none, one for list items, one each for dict keys and
   * values, or a dict key validator alone (`val_type` still None), which is
   * what `of_type` leaves when the value type fails to resolve after the key
   * type was stored.
   */
  datatype Deep = Flat | ItemsOf(item: Spec) | EntriesOf(key: Spec, val: Spec) | KeyOnly(key: Spec)

  /**
   * The state of one validator object: its class, the constructor an
   * UnknownTypeValidator calls (unused by every other class), the nullable
   * flag, the choices, the conditions in insertion order and the deep types.
   */
  datatype Spec = Spec(kind: Kind, ctor: Value -> Result<Value>, nullable: bool,
                       choices: Option<seq<Value>>, conditions: seq<Condition>, deep: Deep)

  /** Deep types only on the classes that have them. */
  predicate WellFormed(s: Spec)
  {
    match s.deep
    case Flat => true
    case ItemsOf(d) => IsListLike(s.kind) && WellFormed(d)
    case EntriesOf(k, v) => s.kind == Dictionary && WellFormed(k) && WellFormed(v)
    case KeyOnly(k) => s.kind == Dictionary && WellFormed(k)
  }

  /** The deep types once `self.key_type = k` has run: the value validator, if any, stays. */
  function KeyStored(d: Deep, k: Spec): (r: Deep)
    ensures r.EntriesOf? || r.KeyOnly?
    ensures r.key == k && (r.EntriesOf? <==> d.EntriesOf?)
    ensures d.EntriesOf? ==> r.val == d.val
  {
    match d
    case EntriesOf(_, v) => EntriesOf(k, v)
    case _ => KeyOnly(k)
  }

  function Size(s: Spec): (n: nat)
    ensures n >= 1
  {
    match s.deep
    case Flat => 1
    case ItemsOf(d) => 1 + Size(d)
    case EntriesOf(k, v) => 1 + Size(k) + Size(v)
    case KeyOnly(k) => 1 + Size(k)
  }

  /**
   * What lies outside the model: the typepy converter of each class, the
   * subtype wrappers (`Str`, `List`, `Dict`, `DateTime.from_datetime`,
   * `Date.from_date`) and `eval`.
   */
  datatype Env = Env(converter: Kind -> Converter, wrap: (Kind, Value) -> Value, eval: string -> Option<Value>)

  /** AnythingValidator.Anything, also used by UnknownTypeValidator: accepts and returns anything. */
  const AnythingConverter: Converter := Converter((v, l) => true, (v, l) => Some(v))

  function ConverterOf(env: Env, k: Kind): Converter
  {
    if k == Anything || k == Unknown then AnythingConverter else env.converter(k)
  }

  function PreProcess(env: Env, k: Kind, v: Value): (r: Value)
    ensures !IsParametrizable(k) ==> r == v
  {
    if IsParametrizable(k) then TryEval(env.eval, v) else v
  }

  function ToSubtype(env: Env, k: Kind, v: Value): Value
  {
    if HasSubtype(k) then env.wrap(k, v) else v
  }

  /** `Validator.convert`, the pipeline every class inherits. */
  function BaseConvert(env: Env, s: Spec, v: Value): Result<Value>
  {
    if v == NoneV then
      if s.nullable then Ok(NoneV) else Err(TypeConversionError)
    else
      match ConverterOf(env, s.kind).convert(PreProcess(env, s.kind, v), StrictMin)
      case None => Err(TypeConversionError)
      case Some(ret) =>
        if s.choices.Some? && ret !in s.choices.value then Err(ValueError(NotAChoice))
        else
          var verdict := Check(s.conditions, ret);
          if verdict.AllPass? then Ok(ToSubtype(env, s.kind, ret)) else Err(VerdictError(verdict))
  }

  /**
   * `convert` as dispatched on the object's class: UnknownTypeValidator
   * passes the result to its constructor; a parametrized list or dict
   * validator converts the items, or the keys and values, with its deep
   * validators.
   */
  function Convert(env: Env, s: Spec, v: Value): Result<Value>
    decreases Size(s), 0
  {
    if s.kind == Unknown then
      match BaseConvert(env, s, v)
      case Err(e) => Err(e)
      case Ok(x) => s.ctor(x)
    else match s.deep
      case Flat => BaseConvert(env, s, v)
      case ItemsOf(d) =>
        (match BaseConvert(env, s, v)
         case Err(e) => Err(e)
         case Ok(c) =>
           if c == NoneV then Ok(NoneV)
           else if Iterate(c).None? then Err(TypeError("object is not iterable"))
           else
             var rs := ConvertItems(env, d, Iterate(c).value, []);
             if rs.Err? then Err(rs.error) else Ok(ListV(rs.value)))
      case EntriesOf(kd, vd) =>
        (match BaseConvert(env, s, v)
         case Err(e) => Err(e)
         case Ok(c) =>
           if c == NoneV then Ok(NoneV)
           else if !c.DictV? then Err(AttributeError("object has no attribute 'items'"))
           else
             var es := ConvertEntries(env, kd, vd, c.entries, []);
             if es.Err? then Err(es.error) else Ok(DictV(es.value)))
      case KeyOnly(kd) =>
        match BaseConvert(env, s, v)
        case Err(e) => Err(e)
        case Ok(c) =>
          if c == NoneV then Ok(NoneV)
          else if !c.DictV? then Err(AttributeError("object has no attribute 'items'"))
          else if c.entries == [] then Ok(DictV([]))
          else
            match Convert(env, kd, c.entries[0].0)
            case Err(e) => Err(e)
            case Ok(_) => Err(NoneCalled)
  }

  /** Calling the missing value validator, `None(val)`. */
  const NoneCalled := TypeError("'NoneType' object is not callable")

  /** Asking the missing value validator, `None.is_valid(item)`. */
  const NoneAsked := AttributeError("'NoneType' object has no attribute 'is_valid'")

  /** `[deep_type(item) for item in items]`, appended to `acc`; the first failure propagates. */
  function ConvertItems(env: Env, d: Spec, items: seq<Value>, acc: seq<Value>): Result<seq<Value>>
    decreases Size(d), |items|
  {
    if items == [] then Ok(acc)
    else match Convert(env, d, items[0])
      case Err(e) => Err(e)
      case Ok(x) => ConvertItems(env, d, items[1..], acc + [x])
  }

  /**
   * `{key_type(k): val_type(v) for k, v in entries}` inserted into `acc`: key converted
   * first, then the value, then the key hashed on insertion.
   */
  function ConvertEntries(env: Env, kd: Spec, vd: Spec, entries: seq<(Value, Value)>, acc: seq<(Value, Value)>)
    : Result<seq<(Value, Value)>>
    decreases Size(kd) + Size(vd), |entries|
  {
    if entries == [] then Ok(acc)
    else match Convert(env, kd, entries[0].0)
      case Err(e) => Err(e)
      case Ok(k) =>
        match Convert(env, vd, entries[0].1)
        case Err(e) => Err(e)
        case Ok(x) =>
          if !Hashable(k) then Err(Unhashable([k]).value)
          else ConvertEntries(env, kd, vd, entries[1..], Set(acc, k, x))
  }

  /** One entry of the dict comprehension goes through: key and value convert and the key hashes. */
  predicate EntryConverts(env: Env, kd: Spec, vd: Spec, e: (Value, Value))
  {
    Convert(env, kd, e.0).Ok? && Convert(env, vd, e.1).Ok? && Hashable(Convert(env, kd, e.0).value)
  }

  /**
   * The dict comprehension succeeds iff every entry goes through, and a dict it
   * builds holds only hashable keys.
   */
  lemma {:induction false} ConvertEntriesMeaning(env: Env, kd: Spec, vd: Spec,
                                                entries: seq<(Value, Value)>, acc: seq<(Value, Value)>)
    requires KeysHashable(acc)
    ensures var r := ConvertEntries(env, kd, vd, entries, acc);
            (r.Ok? <==> forall j :: 0 <= j < |entries| ==> EntryConverts(env, kd, vd, entries[j]))
            && (r.Ok? ==> KeysHashable(r.value))
    decreases |entries|
  {
    if entries != [] && EntryConverts(env, kd, vd, entries[0]) {
      var k := Convert(env, kd, entries[0].0).value;
      var x := Convert(env, vd, entries[0].1).value;
      SetKeepsHashable(acc, k, x);
      ConvertEntriesMeaning(env, kd, vd, entries[1..], Set(acc, k, x));
      assert forall j :: 0 < j < |entries| ==> entries[j] == entries[1..][j - 1];
    }
  }

  /**
   * When the first entry that does not go through has a key converting to a list or
   * dict and a value that converts, inserting it raises the TypeError of `hash`.
   */
  lemma {:induction false} UnhashableKeyRaises(env: Env, kd: Spec, vd: Spec,
                                              entries: seq<(Value, Value)>, acc: seq<(Value, Value)>, j: nat)
    requires j < |entries| && forall i :: 0 <= i < j ==> EntryConverts(env, kd, vd, entries[i])
    requires Convert(env, kd, entries[j].0).Ok? && Convert(env, vd, entries[j].1).Ok?
    requires !Hashable(Convert(env, kd, entries[j].0).value)
    ensures ConvertEntries(env, kd, vd, entries, acc) == Err(Unhashable([Convert(env, kd, entries[j].0).value]).value)
    ensures ConvertEntries(env, kd, vd, entries, acc).error.TypeError?
    decreases j
  {
    var k := Convert(env, kd, entries[0].0).value;
    var x := Convert(env, vd, entries[0].1).value;
    if j > 0 {
      assert EntryConverts(env, kd, vd, entries[0]);
      EntriesStep(env, kd, vd, entries, acc);
      assert forall i :: 0 <= i < j - 1 ==> entries[1..][i] == entries[i + 1];
      UnhashableKeyRaises(env, kd, vd, entries[1..], Set(acc, k, x), j - 1);
    } else {
      assert ConvertEntries(env, kd, vd, entries, acc) == Err(Unhashable([k]).value);
    }
  }

  /** An entry that goes through is inserted, and the comprehension goes on with the rest. */
  lemma EntriesStep(env: Env, kd: Spec, vd: Spec, entries: seq<(Value, Value)>, acc: seq<(Value, Value)>)
    requires entries != [] && EntryConverts(env, kd, vd, entries[0])
    ensures ConvertEntries(env, kd, vd, entries, acc)
            == ConvertEntries(env, kd, vd, entries[1..],
                              Set(acc, Convert(env, kd, entries[0].0).value, Convert(env, vd, entries[0].1).value))
  {
  }

  /** `Validator.is_valid`: it pre-processes, then calls the class's own `convert`, which pre-processes again. */
  function BaseIsValid(env: Env, s: Spec, v: Value): Result<bool>
    decreases Size(s), 1
  {
    if v == NoneV then Ok(s.nullable)
    else
      var v1 := PreProcess(env, s.kind, v);
      if !ConverterOf(env, s.kind).isType(v1, StrictMin) then Ok(false)
      else match Convert(env, s, v1)
        case Ok(_) => Ok(true)
        case Err(e) => if e.ValueError? || e.TypeConversionError? then Ok(false) else Err(e)
  }

  /**
   * `is_valid` as dispatched on the object's class: a parametrized list or
   * dict validator also asks its deep validators about each item of the
   * base conversion of the value.
   */
  function IsValid(env: Env, s: Spec, v: Value): Result<bool>
    decreases Size(s), 2
  {
    match BaseIsValid(env, s, v)
    case Err(e) => Err(e)
    case Ok(valid) =>
      if s.kind == Unknown then Ok(valid)
      else match s.deep
        case Flat => Ok(valid)
        case ItemsOf(d) =>
          if !valid then Ok(false)
          else
            (match BaseConvert(env, s, v)
             case Err(e) => Err(e)
             case Ok(c) =>
               if Iterate(c).None? then Err(TypeError("object is not iterable"))
               else AllValid(env, d, Iterate(c).value))
        case EntriesOf(kd, vd) =>
          if !valid then Ok(false)
          else (match BaseConvert(env, s, v)
            case Err(e) => Err(e)
            case Ok(c) =>
              if !c.DictV? then Err(AttributeError("object has no attribute 'keys'"))
              else
                var keysValid := AllValid(env, kd, Keys(c.entries));
                if keysValid.Err? then Err(keysValid.error)
                else if !keysValid.value then Ok(false)
                else AllValid(env, vd, seq(|c.entries|, i requires 0 <= i < |c.entries| => c.entries[i].1)))
        case KeyOnly(kd) =>
          if !valid then Ok(false)
          else match BaseConvert(env, s, v)
            case Err(e) => Err(e)
            case Ok(c) =>
              if !c.DictV? then Err(AttributeError("object has no attribute 'keys'"))
              else
                var keysValid := AllValid(env, kd, Keys(c.entries));
                if keysValid.Err? then Err(keysValid.error)
                else if !keysValid.value then Ok(false)
                else if c.entries == [] then Ok(true)
                else Err(NoneAsked)
  }

  /** `all([d.is_valid(item) for item in items])`: every item is asked; the first exception propagates. */
  function AllValid(env: Env, d: Spec, items: seq<Value>): Result<bool>
    decreases Size(d), 3, |items|
  {
    if items == [] then Ok(true)
    else match IsValid(env, d, items[0])
      case Err(e) => Err(e)
      case Ok(b) =>
        match AllValid(env, d, items[1..])
        case Err(e) => Err(e)
        case Ok(rest) => Ok(b && rest)
  }

  // ------------------------------------------------------------- properties

  /** `is_valid(None)` is the nullable flag, for every validator without deep types. */
  lemma IsValidNone(env: Env, s: Spec)
    requires s.deep.Flat?
    ensures IsValid(env, s, NoneV) == Ok(s.nullable)
  {
  }

  /**
   * A nullable validator with deep types does not answer True for None:
   * the base check passes, then iterating over `super().convert(None)`,
   * which is None, raises.
   */
  lemma IsValidNoneWithDeepTypes(env: Env, s: Spec)
    requires s.kind != Unknown && !s.deep.Flat? && s.nullable
    ensures IsValid(env, s, NoneV).Err?
  {
  }

  /** The evident intent of `is_valid`: None answers the nullable flag whatever the deep types. */
  function IsValidIntended(env: Env, s: Spec, v: Value): (r: Result<bool>)
    ensures v == NoneV ==> r == Ok(s.nullable)
    ensures v != NoneV ==> r == IsValid(env, s, v)
  {
    if v == NoneV then Ok(s.nullable) else IsValid(env, s, v)
  }

  /**
   * The corrected `is_valid` keeps its promise to `convert`, item validators
   * or not: it accepts None exactly when `convert(None)` gives None back, and
   * any value it accepts converts.
   */
  lemma IntendedMatchesConvert(env: Env, s: Spec, v: Value)
    requires s.kind != Unknown
    requires v != NoneV ==> PreProcess(env, s.kind, v) != NoneV
                            && PreProcess(env, s.kind, PreProcess(env, s.kind, v)) == PreProcess(env, s.kind, v)
    ensures v == NoneV ==> (IsValidIntended(env, s, v) == Ok(true) <==> Convert(env, s, v) == Ok(NoneV))
    ensures IsValidIntended(env, s, v) == Ok(true) ==> Convert(env, s, v).Ok?
  {
    if v == NoneV {
      ConvertNone(env, s);
    } else if IsValid(env, s, v) == Ok(true) {
      IsValidThenConverts(env, s, v);
    }
  }

  /** `convert(None)` is None when nullable and a TypeConversionError otherwise (constructors of unknown types aside). */
  lemma ConvertNone(env: Env, s: Spec)
    requires s.kind != Unknown
    ensures Convert(env, s, NoneV) == if s.nullable then Ok(NoneV) else Err(TypeConversionError)
  {
  }

  /** A converted value outside the choices raises ValueError whatever the conditions say. */
  lemma ChoicesBeforeConditions(env: Env, s: Spec, v: Value, ret: Value)
    requires v != NoneV && s.kind != Unknown && s.deep.Flat?
    requires ConverterOf(env, s.kind).convert(PreProcess(env, s.kind, v), StrictMin) == Some(ret)
    requires s.choices.Some? && ret !in s.choices.value
    ensures Convert(env, s, v) == Err(ValueError(NotAChoice))
  {
  }

  /**
   * Past the choices, the conditions decide in insertion order: when all
   * pass, the subtype of the converted value is returned; otherwise the
   * first condition that does not pass decides, a falsy answer raising
   * ValueError and an exception escaping as it is.
   */
  lemma {:induction false} ConditionsInOrder(env: Env, s: Spec, v: Value, ret: Value)
    requires v != NoneV && s.kind != Unknown && s.deep.Flat?
    requires ConverterOf(env, s.kind).convert(PreProcess(env, s.kind, v), StrictMin) == Some(ret)
    requires s.choices.None? || ret in s.choices.value
    ensures PassesUpTo(s.conditions, ret, |s.conditions|) ==> Convert(env, s, v) == Ok(ToSubtype(env, s.kind, ret))
    ensures forall i :: 0 <= i < |s.conditions| && PassesUpTo(s.conditions, ret, i) && s.conditions[i].test(ret) == Ok(false)
              ==> Convert(env, s, v) == Err(ValueError(ConditionFailed(i)))
    ensures forall i :: 0 <= i < |s.conditions| && PassesUpTo(s.conditions, ret, i) && s.conditions[i].test(ret).Err?
              ==> Convert(env, s, v) == Err(s.conditions[i].test(ret).error)
  {
    var verdict := Check(s.conditions, ret);
    assert Convert(env, s, v) == if verdict.AllPass? then Ok(ToSubtype(env, s.kind, ret)) else Err(VerdictError(verdict));
    forall i | 0 <= i < |s.conditions| && PassesUpTo(s.conditions, ret, i) && s.conditions[i].test(ret) != Ok(true)
      ensures !verdict.AllPass? && verdict.index == i
    {
      FirstNonPassing(s.conditions, ret, i, verdict);
    }
  }

  /** Two positions both "first not to pass" are the same position. */
  lemma FirstNonPassing(conds: seq<Condition>, ret: Value, i: nat, verdict: Verdict)
    requires i < |conds| && PassesUpTo(conds, ret, i) && conds[i].test(ret) != Ok(true)
    requires verdict == Check(conds, ret)
    ensures !verdict.AllPass? && verdict.index == i
  {
  }

  /**
   * `is_valid` answers True only when the class's `convert` succeeds on the
   * pre-processed value, and never lets a ValueError or TypeConversionError
   * escape from it.
   */
  lemma BaseIsValidSound(env: Env, s: Spec, v: Value)
    requires v != NoneV
    ensures BaseIsValid(env, s, v) == Ok(true) ==> Convert(env, s, PreProcess(env, s.kind, v)).Ok?
    ensures BaseIsValid(env, s, v).Err? ==>
              !BaseIsValid(env, s, v).error.ValueError? && !BaseIsValid(env, s, v).error.TypeConversionError?
  {
  }

  /**
   * When pre-processing changes nothing more the second time (always so for
   * classes that do not evaluate strings), `is_valid(v)` implies that
   * `convert(v)` succeeds, for flat validators and for list and dict
   * validators with item validators alike.
   */
  lemma IsValidThenConverts(env: Env, s: Spec, v: Value)
    requires v != NoneV && PreProcess(env, s.kind, v) != NoneV
    requires PreProcess(env, s.kind, PreProcess(env, s.kind, v)) == PreProcess(env, s.kind, v)
    requires IsValid(env, s, v) == Ok(true)
    ensures Convert(env, s, v).Ok?
  {
    BaseIsValidSound(env, s, v);
    var v1 := PreProcess(env, s.kind, v);
    assert Convert(env, s, v1) == Convert(env, s, v) by {
      assert BaseConvert(env, s, v1) == BaseConvert(env, s, v);
    }
  }

  /**
   * A dict validator left holding only its key validator is parametrized:
   * it still converts an empty dict, but a dict with entries whose first
   * key converts raises TypeError calling the missing value validator,
   * where the same validator without item validators returns the dict.
   */
  lemma KeyOnlyConvert(env: Env, s: Spec, v: Value, es: seq<(Value, Value)>)
    requires s.kind == Dictionary && s.deep.KeyOnly?
    requires BaseConvert(env, s, v) == Ok(DictV(es))
    ensures es == [] ==> Convert(env, s, v) == Ok(DictV([]))
    ensures es != [] ==> Convert(env, s, v).Err?
    ensures es != [] && Convert(env, s.deep.key, es[0].0).Ok? ==> Convert(env, s, v) == Err(NoneCalled)
    ensures Convert(env, s.(deep := Flat), v) == Ok(DictV(es))
  {
    assert BaseConvert(env, s.(deep := Flat), v) == BaseConvert(env, s, v);
  }

  /**
   * Asked about a dict, a dict validator holding only its key validator
   * fails inside the base `is_valid` already: its own `convert` calls the
   * missing value validator, and the TypeError this raises is not among the
   * exceptions `is_valid` catches. An empty dict is valid.
   */
  lemma KeyOnlyIsValid(env: Env, s: Spec, v: Value, es: seq<(Value, Value)>)
    requires s.kind == Dictionary && s.deep.KeyOnly? && v != NoneV
    requires ConverterOf(env, s.kind).isType(PreProcess(env, s.kind, v), StrictMin)
    requires BaseConvert(env, s, PreProcess(env, s.kind, v)) == Ok(DictV(es))
    ensures es != [] && Convert(env, s.deep.key, es[0].0).Ok? ==> IsValid(env, s, v) == Err(NoneCalled)
    ensures es == [] && BaseConvert(env, s, v) == Ok(DictV([])) ==> IsValid(env, s, v) == Ok(true)
  {
    KeyOnlyConvert(env, s, PreProcess(env, s.kind, v), es);
  }

  /** Item conversion keeps the number and order of the items. */
  lemma {:induction false} ConvertItemsMaps(env: Env, d: Spec, items: seq<Value>, acc: seq<Value>)
    requires ConvertItems(env, d, items, acc).Ok?
    ensures var rs := ConvertItems(env, d, items, acc).value;
            |rs| == |acc| + |items| && rs[..|acc|] == acc
            && forall j :: 0 <= j < |items| ==> Convert(env, d, items[j]) == Ok(rs[|acc| + j])
    decreases |items|
  {
    if items != [] {
      var x := Convert(env, d, items[0]).value;
      ConvertItemsMaps(env, d, items[1..], acc + [x]);
      var rs := ConvertItems(env, d, items, acc).value;
      assert rs[..|acc| + 1] == acc + [x];
      assert rs[..|acc|] == (acc + [x])[..|acc|];
      forall j | 0 <= j < |items|
        ensures Convert(env, d, items[j]) == Ok(rs[|acc| + j])
      {
        if j > 0 {
          assert items[j] == items[1..][j - 1];
        }
      }
    }
  }

  /** Any item that fails to convert makes the list conversion fail. */
  lemma {:induction false} ConvertItemsFails(env: Env, d: Spec, items: seq<Value>, acc: seq<Value>, j: nat)
    requires j < |items| && Convert(env, d, items[j]).Err?
    ensures ConvertItems(env, d, items, acc).Err?
    decreases |items|
  {
    if j > 0 && Convert(env, d, items[0]).Ok? {
      assert items[1..][j - 1] == items[j];
      ConvertItemsFails(env, d, items[1..], acc + [Convert(env, d, items[0]).value], j - 1);
    }
  }

  /**
   * A list validator with an item validator converts a list item by item:
   * the result has the same length and order, each element being the item
   * validator's conversion of the element at the same position.
   */
  lemma ListConvertMapsItems(env: Env, s: Spec, v: Value, items: seq<Value>)
    requires s.kind != Unknown && s.deep.ItemsOf?
    requires BaseConvert(env, s, v) == Ok(ListV(items))
    ensures Convert(env, s, v).Ok? <==> forall j :: 0 <= j < |items| ==> Convert(env, s.deep.item, items[j]).Ok?
    ensures Convert(env, s, v).Ok? ==>
              Convert(env, s, v).value.ListV? && |Convert(env, s, v).value.items| == |items|
              && forall j :: 0 <= j < |items| ==> Convert(env, s.deep.item, items[j]) == Ok(Convert(env, s, v).value.items[j])
  {
    var d := s.deep.item;
    if ConvertItems(env, d, items, []).Ok? {
      ConvertItemsMaps(env, d, items, []);
    } else {
      if forall j :: 0 <= j < |items| ==> Convert(env, d, items[j]).Ok? {
        ConvertAllOk(env, d, items, []);
      }
    }
  }

  lemma {:induction false} ConvertAllOk(env: Env, d: Spec, items: seq<Value>, acc: seq<Value>)
    requires forall j :: 0 <= j < |items| ==> Convert(env, d, items[j]).Ok?
    ensures ConvertItems(env, d, items, acc).Ok?
    decreases |items|
  {
    if items != [] {
      assert forall j :: 0 <= j < |items| - 1 ==> items[1..][j] == items[j + 1];
      ConvertAllOk(env, d, items[1..], acc + [Convert(env, d, items[0]).value]);
    }
  }

  // ------------------------------------------------------------- infer_type

  /** What `infer_type` is given. */
  datatype TypeArg =
    | Instance(spec: Spec)                                   // a Validator object
    | NoType                                                 // None
    | ValidatorClass(kind: Kind)                             // a Validator subclass
    | PyType(name: string, ctor: Value -> Result<Value>)     // any other class, callable as a constructor

  /**
   * ValidatorMeta.registry: the `type_affinity` of each class, in class
   * definition order (NumericValidator and ParametrizableValidator have none).
   */
  const Registry: seq<(string, Kind)> := [
    ("bool", Boolean), ("str", String), ("int", Integer), ("float", Float), ("Decimal", Decimal),
    ("list", ListKind), ("set", SetKind), ("dict", Dictionary), ("datetime", DateTime), ("date", Date),
    ("Path", PathKind), ("File", FileKind), ("Dir", DirKind), ("Enum", EnumKind)]

  function NoConstructor(v: Value): Result<Value> { Ok(v) }

  /** A freshly constructed validator of a class: no choices, no conditions, no deep types. */
  function Fresh(k: Kind, nullable: bool, ctor: Value -> Result<Value>): (s: Spec)
    ensures WellFormed(s)
  {
    Spec(k, ctor, nullable, None, [], Flat)
  }

  /**
   * `Validate.infer_type(type_, nullable=...)`: an instance as is, None as
   * AnythingValidator, a Validator subclass instantiated (UnknownTypeValidator
   * needs a constructor argument, so instantiating it bare is a TypeError),
   * then the exact registry key, then the first registry key the type
   * subclasses, then UnknownTypeValidator around the type.
   */
  function InferType(arg: TypeArg, nullable: bool, subclass: (string, string) -> bool): (r: Result<Spec>)
    ensures arg.Instance? ==> r == Ok(arg.spec)
    ensures !arg.Instance? && r.Ok? ==> WellFormed(r.value)
    ensures arg.NoType? ==> r.Ok? && r.value.kind == Anything && r.value.nullable == nullable
    ensures arg.ValidatorClass? ==> (r.Ok? <==> arg.kind != Unknown)
    ensures arg.ValidatorClass? && r.Ok? ==> r.value.kind == arg.kind && r.value.nullable == nullable
    ensures arg.PyType? ==> r.Ok? && r.value.nullable == nullable && r.value.deep.Flat?
    ensures arg.PyType? ==> r.value.kind == RegistryKind(arg.name, subclass)
    ensures arg.PyType? && RegistryKind(arg.name, subclass) == Unknown ==> r.value.ctor == arg.ctor
  {
    match arg
    case Instance(s) => Ok(s)
    case NoType => Ok(Fresh(Anything, nullable, NoConstructor))
    case ValidatorClass(k) =>
      if k == Unknown then Err(TypeError("missing required argument: 'constructor'"))
      else Ok(Fresh(k, nullable, NoConstructor))
    case PyType(name, ctor) =>
      var k := RegistryKind(name, subclass);
      if k == Unknown then Ok(Fresh(Unknown, nullable, ctor)) else Ok(Fresh(k, nullable, NoConstructor))
  }

  /** The kind a class maps to: its own registry key, else the first key it subclasses, else Unknown. */
  function RegistryKind(name: string, subclass: (string, string) -> bool): (k: Kind)
    ensures forall i :: 0 <= i < |Registry| && Registry[i].0 == name ==> k == Registry[i].1
    ensures (forall i :: 0 <= i < |Registry| ==> Registry[i].0 != name) ==>
              forall i :: (0 <= i < |Registry| && subclass(name, Registry[i].0)
                           && forall j :: 0 <= j < i ==> !subclass(name, Registry[j].0))
                          ==> k == Registry[i].1
    ensures (forall i :: 0 <= i < |Registry| ==> Registry[i].0 != name && !subclass(name, Registry[i].0)) ==> k == Unknown
  {
    RegistryKeysDistinct();
    ClassLookup(Registry, name, subclass, Unknown)
  }

  lemma RegistryKeysDistinct()
    ensures forall i, j :: 0 <= i < j < |Registry| ==> Registry[i].0 != Registry[j].0
  {
  }

  /** An exact registry key wins over any subclass match earlier in the registry. */
  lemma ExactBeforeSubclass(nullable: bool, subclass: (string, string) -> bool, ctor: Value -> Result<Value>)
    ensures InferType(PyType("bool", ctor), nullable, subclass).value.kind == Boolean
    ensures InferType(PyType("date", ctor), nullable, subclass).value.kind == Date
  {
    assert Registry[0].0 == "bool";
    assert Registry[9].0 == "date";
  }

  // ----------------------------------------------------------- the object

  /** What `add_conditions` is given: a dict of named conditions or a list of conditions. */
  datatype ConditionsArg =
    | Named(entries: seq<(string, Value -> Result<bool>)>)
    | Plain(conds: seq<Condition>)

  function NamedConditions(entries: seq<(string, Value -> Result<bool>)>): (r: seq<Condition>)
    ensures |r| == |entries|
    ensures forall i :: 0 <= i < |entries| ==> r[i] == Condition(entries[i].0, entries[i].1)
  {
    seq(|entries|, i requires 0 <= i < |entries| => Condition(entries[i].0, entries[i].1))
  }

  class Validator {
    var kind: Kind
    var ctor: Value -> Result<Value>
    var nullable: bool
    var choices: Option<seq<Value>>
    var conditions: seq<Condition>
    var deep: Deep

    function State(): Spec
      reads this
    {
      Spec(kind, ctor, nullable, choices, conditions, deep)
    }

    predicate Valid()
      reads this
    {
      WellFormed(State())
    }

    /** `Validator.__init__(nullable=...)`: no choices, no conditions, no deep types. */
    constructor (k: Kind, isNullable: bool, constructorArg: Value -> Result<Value>)
      ensures Valid() && State() == Fresh(k, isNullable, constructorArg)
    {
      kind, ctor, nullable := k, constructorArg, isNullable;
      choices, conditions, deep := None, [], Flat;
    }

    method SetNullable(isNullable: bool)
      requires Valid()
      modifies this
      ensures Valid() && State() == old(State()).(nullable := isNullable)
    {
      nullable := isNullable;
    }

    /**
     * `set_choices`: None clears the choices, an Enum class gives its
     * members' values, anything else is copied with `list()` (a TypeError
     * for a non-iterable, which leaves the choices as they were).
     */
    method SetChoices(arg: ChoicesArg) returns (raised: Option<Exc>)
      requires Valid()
      modifies this
      ensures Valid()
      ensures arg.NoChoices? ==> raised.None? && State() == old(State()).(choices := None)
      ensures arg.EnumClass? ==> raised.None? && State() == old(State()).(choices := Some(Values(arg.members)))
      ensures arg.Iterable? && Iterate(arg.v).Some? ==>
                raised.None? && State() == old(State()).(choices := Some(Iterate(arg.v).value))
      ensures arg.Iterable? && Iterate(arg.v).None? ==> raised.Some? && raised.value.TypeError? && State() == old(State())
    {
      raised := None;
      match arg
      case NoChoices => choices := None;
      case EnumClass(members) => choices := Some(Values(members));
      case Iterable(v) =>
        match Iterate(v)
        case Some(items) => choices := Some(items);
        case None => raised := Some(TypeError("object is not iterable"));
    }

    /** `add_condition`: the condition goes to the end of the list. */
    method AddCondition(c: Condition)
      requires Valid()
      modifies this
      ensures Valid() && State() == old(State()).(conditions := old(conditions) + [c])
    {
      conditions := conditions + [c];
    }

    /** `add_conditions`: a dict adds one named condition per entry, in order; a list adds its conditions. */
    method AddConditions(arg: ConditionsArg)
      requires Valid()
      modifies this
      ensures Valid()
      ensures arg.Named? ==> State() == old(State()).(conditions := old(conditions) + NamedConditions(arg.entries))
      ensures arg.Plain? ==> State() == old(State()).(conditions := old(conditions) + arg.conds)
    {
      match arg
      case Named(entries) => conditions := conditions + NamedConditions(entries);
      case Plain(conds) => conditions := conditions + conds;
    }

    /** StringValidator.max_len. */
    method MaxLen(length: int)
      requires Valid() && kind == String
      modifies this
      ensures Valid() && State() == old(State()).(conditions := old(conditions) + [Checks.MaxLen(length)])
    {
      conditions := conditions + [Checks.MaxLen(length)];
    }

    /** StringValidator.min_len. */
    method MinLen(length: int)
      requires Valid() && kind == String
      modifies this
      ensures Valid() && State() == old(State()).(conditions := old(conditions) + [Checks.MinLen(length)])
    {
      conditions := conditions + [Checks.MinLen(length)];
    }

    /** NumericValidator.max_value. */
    method MaxValue(bound: int)
      requires Valid() && kind in {Integer, Float, Decimal}
      modifies this
      ensures Valid() && State() == old(State()).(conditions := old(conditions) + [Checks.MaxValue(bound)])
    {
      conditions := conditions + [Checks.MaxValue(bound)];
    }

    /** NumericValidator.min_value. */
    method MinValue(bound: int)
      requires Valid() && kind in {Integer, Float, Decimal}
      modifies this
      ensures Valid() && State() == old(State()).(conditions := old(conditions) + [Checks.MinValue(bound)])
    {
      conditions := conditions + [Checks.MinValue(bound)];
    }

    /** ListValidator.of_type: the item validator is inferred with nullable=True. */
    method OfType(arg: TypeArg, subclass: (string, string) -> bool) returns (raised: Option<Exc>)
      requires Valid() && IsListLike(kind)
      requires arg.Instance? ==> WellFormed(arg.spec)
      modifies this
      ensures Valid()
      ensures InferType(arg, true, subclass).Ok? ==>
                raised.None? && State() == old(State()).(deep := ItemsOf(InferType(arg, true, subclass).value))
      ensures InferType(arg, true, subclass).Err? ==> raised.Some? && State() == old(State())
    {
      match InferType(arg, true, subclass)
      case Ok(d) => deep := ItemsOf(d); raised := None;
      case Err(e) => raised := Some(e);
    }

    /**
     * DictionaryValidator.of_type: the key validator is inferred with
     * nullable=True and stored, then the value validator. When the second
     * inference raises, the new key validator stays, beside the old value
     * validator if there was one.
     */
    method OfTypes(keyArg: TypeArg, valArg: TypeArg, subclass: (string, string) -> bool) returns (raised: Option<Exc>)
      requires Valid() && kind == Dictionary
      requires keyArg.Instance? ==> WellFormed(keyArg.spec)
      requires valArg.Instance? ==> WellFormed(valArg.spec)
      modifies this
      ensures Valid()
      ensures InferType(keyArg, true, subclass).Ok? && InferType(valArg, true, subclass).Ok? ==>
                raised.None? && State() == old(State()).(deep := EntriesOf(InferType(keyArg, true, subclass).value,
                                                                           InferType(valArg, true, subclass).value))
      ensures InferType(keyArg, true, subclass).Err? ==>
                raised == Some(InferType(keyArg, true, subclass).error) && State() == old(State())
      ensures InferType(keyArg, true, subclass).Ok? && InferType(valArg, true, subclass).Err? ==>
                raised == Some(InferType(valArg, true, subclass).error)
                && State() == old(State()).(deep := KeyStored(old(deep), InferType(keyArg, true, subclass).value))
    {
      var k := InferType(keyArg, true, subclass);
      if k.Err? {
        return Some(k.error);
      }
      deep := KeyStored(deep, k.value);
      var v := InferType(valArg, true, subclass);
      if v.Err? {
        return Some(v.error);
      }
      deep := EntriesOf(k.value, v.value);
      raised := None;
    }

    /** `Validator.convert` on this object's state: the straight-line checks and the loop over the conditions. */
    method BaseConvertValue(env: Env, v: Value) returns (r: Result<Value>)
      ensures r == BaseConvert(env, State(), v)
    {
      if v == NoneV {
        return if nullable then Ok(NoneV) else Err(TypeConversionError);
      }
      var converted := ConverterOf(env, kind).convert(PreProcess(env, kind, v), StrictMin);
      if converted.None? {
        return Err(TypeConversionError);
      }
      var ret := converted.value;
      if choices.Some? && ret !in choices.value {
        return Err(ValueError(NotAChoice));
      }
      var i := 0;
      while i < |conditions|
        invariant 0 <= i <= |conditions|
        invariant PassesUpTo(conditions, ret, i)
      {
        var outcome := conditions[i].test(ret);
        if outcome.Err? {
          return Err(outcome.error);
        }
        if !outcome.value {
          return Err(ValueError(ConditionFailed(i)));
        }
        i := i + 1;
      }
      r := Ok(ToSubtype(env, kind, ret));
    }

    /** `convert`, dispatched on this object's class. */
    method ConvertValue(env: Env, v: Value) returns (r: Result<Value>)
      ensures r == Convert(env, State(), v)
    {
      r := BaseConvertValue(env, v);
      if r.Err? {
        return;
      }
      if kind == Unknown {
        return ctor(r.value);
      }
      match deep
      case Flat =>
      case ItemsOf(d) =>
        var c := r.value;
        if c == NoneV {
          return;
        }
        var it := Iterate(c);
        if it.None? {
          return Err(TypeError("object is not iterable"));
        }
        var rs := ConvertEach(env, d, it.value);
        r := if rs.Err? then Err(rs.error) else Ok(ListV(rs.value));
      case EntriesOf(kd, vd) =>
        var c := r.value;
        if c == NoneV {
          return;
        }
        if !c.DictV? {
          return Err(AttributeError("object has no attribute 'items'"));
        }
        var es := ConvertEachEntry(env, kd, vd, c.entries);
        r := if es.Err? then Err(es.error) else Ok(DictV(es.value));
      case KeyOnly(kd) =>
        var c := r.value;
        if c == NoneV {
          return;
        }
        if !c.DictV? {
          return Err(AttributeError("object has no attribute 'items'"));
        }
        if c.entries != [] {
          var k := Convert(env, kd, c.entries[0].0);
          r := if k.Err? then Err(k.error) else Err(NoneCalled);
        } else {
          r := Ok(DictV([]));
        }
    }

    /** `is_valid`, dispatched on this object's class; it calls `convert` as the source does. */
    method IsValidValue(env: Env, v: Value) returns (r: Result<bool>)
      ensures r == IsValid(env, State(), v)
    {
      if v == NoneV {
        r := Ok(nullable);
      } else {
        var v1 := PreProcess(env, kind, v);
        if !ConverterOf(env, kind).isType(v1, StrictMin) {
          r := Ok(false);
        } else {
          var c := ConvertValue(env, v1);
          r := if c.Ok? then Ok(true) else if c.error.ValueError? || c.error.TypeConversionError? then Ok(false) else Err(c.error);
        }
      }
      if r.Err? || kind == Unknown || deep.Flat? || !r.value {
        return;
      }
      var base := BaseConvertValue(env, v);
      if base.Err? {
        return Err(base.error);
      }
      var c := base.value;
      if deep.ItemsOf? {
        r := if Iterate(c).None? then Err(TypeError("object is not iterable")) else AllValid(env, deep.item, Iterate(c).value);
      } else if !c.DictV? {
        r := Err(AttributeError("object has no attribute 'keys'"));
      } else {
        var keysValid := AllValid(env, deep.key, Keys(c.entries));
        r := if keysValid.Err? then Err(keysValid.error)
             else if !keysValid.value then Ok(false)
             else if deep.KeyOnly? then (if c.entries == [] then Ok(true) else Err(NoneAsked))
             else AllValid(env, deep.val, seq(|c.entries|, i requires 0 <= i < |c.entries| => c.entries[i].1));
      }
    }
  }

  /** The list comprehension of ListValidator.convert. */
  method ConvertEach(env: Env, d: Spec, items: seq<Value>) returns (r: Result<seq<Value>>)
    ensures r == ConvertItems(env, d, items, [])
  {
    var acc: seq<Value> := [];
    var i := 0;
    while i < |items|
      invariant 0 <= i <= |items|
      invariant ConvertItems(env, d, items, []) == ConvertItems(env, d, items[i..], acc)
    {
      assert items[i..][1..] == items[i + 1..];
      var x := Convert(env, d, items[i]);
      if x.Err? {
        return Err(x.error);
      }
      acc := acc + [x.value];
      i := i + 1;
    }
    r := Ok(acc);
  }

  /** The dict comprehension of DictionaryValidator.convert. */
  method ConvertEachEntry(env: Env, kd: Spec, vd: Spec, entries: seq<(Value, Value)>) returns (r: Result<seq<(Value, Value)>>)
    ensures r == ConvertEntries(env, kd, vd, entries, [])
  {
    var acc: seq<(Value, Value)> := [];
    var i := 0;
    while i < |entries|
      invariant 0 <= i <= |entries|
      invariant ConvertEntries(env, kd, vd, entries, []) == ConvertEntries(env, kd, vd, entries[i..], acc)
    {
      assert entries[i..][1..] == entries[i + 1..];
      var k := Convert(env, kd, entries[i].0);
      if k.Err? {
        return Err(k.error);
      }
      var x := Convert(env, vd, entries[i].1);
      if x.Err? {
        return Err(x.error);
      }
      if !Hashable(k.value) {
        return Err(Unhashable([k.value]).value);
      }
      acc := Set(acc, k.value, x.value);
      i := i + 1;
    }
    r := Ok(acc);
  }
}
