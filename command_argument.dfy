/**
 * A command argument (iotools/command/argument.py): its name and aliases,
 * its default and current value, whether it is required, and the
 * validator of the argument's class that every new value goes through.
 */
module CommandArgument {
  import opened Python
  import opened Checks
  import opened Aliases
  import MiscValidator

  /** The validator classes the argument classes name as `validator_constructor`. */
  predicate ArgumentKind(k: MiscValidator.Kind)
  {
    k in {MiscValidator.String, MiscValidator.Boolean, MiscValidator.Integer, MiscValidator.Float,
          MiscValidator.Decimal, MiscValidator.DateTime, MiscValidator.Date, MiscValidator.ListKind,
          MiscValidator.Dictionary, MiscValidator.SetKind, MiscValidator.PathKind,
          MiscValidator.FileKind, MiscValidator.DirKind}
  }

  /** What `choices` is given: nothing, an Enum class (its members' names and values) or a list. */
  datatype ChoicesGiven = Unrestricted | EnumMembers(members: seq<(string, Value)>) | Listed(items: seq<Value>)

  /** What `conditions` is given: nothing, one callable, a list of them, or a dict of named ones. */
  datatype ConditionsGiven =
    | NoConditions
    | Single(c: Condition)
    | ListOf(conds: seq<Condition>)
    | DictOf(entries: seq<(string, Value -> Result<bool>)>)

  /** The `choices` attribute: an Enum becomes the list of its member values, a list is kept. */
  function StoredChoices(c: ChoicesGiven): (r: Option<seq<Value>>)
    ensures c.Unrestricted? <==> r.None?
    ensures c.EnumMembers? ==> |r.value| == |c.members| && forall i :: 0 <= i < |c.members| ==> r.value[i] == c.members[i].1
    ensures c.Listed? ==> r == Some(c.items)
  {
    match c
    case Unrestricted => None
    case EnumMembers(members) => Some(Values(members))
    case Listed(items) => Some(items)
  }

  /** The conditions the constructor adds, in order; an empty list or dict adds none. */
  function AddedConditions(c: ConditionsGiven): (r: seq<Condition>)
    ensures c.NoConditions? ==> r == []
    ensures c.Single? ==> r == [c.c]
    ensures c.ListOf? ==> r == c.conds
    ensures c.DictOf? ==> |r| == |c.entries|
    ensures c.DictOf? ==> forall i :: 0 <= i < |c.entries| ==> r[i].name == c.entries[i].0 && r[i].test == c.entries[i].1
  {
    match c
    case NoConditions => []
    case Single(cond) => [cond]
    case ListOf(conds) => conds
    case DictOf(entries) => MiscValidator.NamedConditions(entries)
  }

  /**
   * `validator_constructor(nullable=..., choices=...)` as written: every
   * misc validator class takes the keyword `nullable` only, so the keyword
   * `choices` raises TypeError whatever the argument's class;
   * UnknownTypeValidator fails earlier, for want of its constructor.
   */
  function ValidatorAsWritten(k: MiscValidator.Kind, nullable: bool, choices: ChoicesGiven): (r: Result<MiscValidator.Spec>)
    ensures r.Err? && r.error.TypeError?
  {
    if k == MiscValidator.Unknown then Err(TypeError("__init__() missing 1 required positional argument: 'constructor'"))
    else Err(TypeError("__init__() got an unexpected keyword argument 'choices'"))
  }

  /**
   * The validator an argument builds: its class's validator, nullable as
   * the argument is, restricted to the choices, carrying the conditions.
   */
  function ArgumentValidator(k: MiscValidator.Kind, nullable: bool, choices: ChoicesGiven, conditions: ConditionsGiven): (s: MiscValidator.Spec)
    ensures MiscValidator.WellFormed(s) && s.kind == k && s.nullable == nullable
    ensures s.choices == StoredChoices(choices) && s.conditions == AddedConditions(conditions)
  {
    MiscValidator.Fresh(k, nullable, MiscValidator.NoConstructor).(choices := StoredChoices(choices), conditions := AddedConditions(conditions))
  }

  /** `required`: no default and not nullable. */
  predicate Required(default: Value, nullable: bool)
  {
    default == NoneV && !nullable
  }

  /** `__bool__`: nullable, or holding a value. */
  predicate Provided(nullable: bool, value: Value)
  {
    nullable || value != NoneV
  }

  /** Before any value is set, an argument is falsy exactly when it is required. */
  lemma FreshProvidedIffNotRequired(default: Value, nullable: bool)
    ensures Provided(nullable, default) <==> !Required(default, nullable)
  {
  }

  /**
   * A value set through the validator never leaves a non-nullable argument
   * falsy: None is refused before it can be stored.
   */
  lemma StoredValueProvided(env: MiscValidator.Env, s: MiscValidator.Spec, v: Value)
    requires !s.nullable && s.kind != MiscValidator.Unknown && MiscValidator.Convert(env, s, v).Ok?
    requires MiscValidator.Convert(env, s, v).value == NoneV
    ensures v != NoneV
  {
    MiscValidator.ConvertNone(env, s);
  }

  class Argument {
    const kind: MiscValidator.Kind
    const name: string
    var aliasSet: seq<string>            // `_aliases`, a set, held in insertion order
    var info: Option<string>
    var nullable: bool
    var default: Value
    var value: Value                     // `_value`
    var required: bool
    var choices: Option<seq<Value>>
    var validator: MiscValidator.Spec

    predicate Valid()
      reads this
    {
      Distinct(aliasSet) && name in aliasSet && MiscValidator.WellFormed(validator)
    }

    /** `__bool__`. */
    predicate Truthy()
      reads this
    {
      Provided(nullable, value)
    }

    /**
     * `__init__`: the aliases are the name and the given aliases, the value
     * starts as the default, and the validator is built from the nullable
     * flag, the choices and the conditions (line 32 as written raises
     * TypeError instead; see `ValidatorAsWritten`).
     */
    constructor (k: MiscValidator.Kind, argName: string, aliases: Option<seq<string>>, argInfo: Option<string>,
                 argDefault: Value, isNullable: bool, conditions: ConditionsGiven, choicesGiven: ChoicesGiven)
      requires ArgumentKind(k)
      ensures Valid()
      ensures kind == k && name == argName && info == argInfo && nullable == isNullable
      ensures aliasSet == Dedup([argName] + (if aliases.Some? then aliases.value else []))
      ensures default == argDefault && value == argDefault
      ensures required == Required(argDefault, isNullable)
      ensures Truthy() <==> !required
      ensures choices == StoredChoices(choicesGiven)
      ensures validator == ArgumentValidator(k, isNullable, choicesGiven, conditions)
    {
      var names := Dedup([argName] + (if aliases.Some? then aliases.value else []));
      var spec := ArgumentValidator(k, isNullable, choicesGiven, conditions);
      assert Distinct(names) && argName in names && MiscValidator.WellFormed(spec);
      var isRequired := argDefault == NoneV && !isNullable;
      assert isRequired == Required(argDefault, isNullable) && (Provided(isNullable, argDefault) <==> !isRequired);
      kind, name, info, nullable := k, argName, argInfo, isNullable;
      aliasSet, validator, required := names, spec, isRequired;
      default, value := argDefault, argDefault;
      choices := StoredChoices(choicesGiven);
    }

    /**
     * The `value` setter: the validator's conversion of the new value is
     * stored; when the conversion raises, the exception propagates and the
     * old value stays.
     */
    method SetValue(env: MiscValidator.Env, v: Value) returns (raised: Option<Exc>)
      requires Valid()
      modifies this
      ensures Valid()
      ensures MiscValidator.Convert(env, validator, v).Ok? ==>
                raised.None? && value == MiscValidator.Convert(env, validator, v).value
      ensures MiscValidator.Convert(env, validator, v).Err? ==>
                raised == Some(MiscValidator.Convert(env, validator, v).error) && value == old(value)
      ensures aliasSet == old(aliasSet) && nullable == old(nullable) && default == old(default)
      ensures required == old(required) && choices == old(choices) && validator == old(validator) && info == old(info)
    {
      match MiscValidator.Convert(env, validator, v)
      case Ok(r) =>
        value := r;
        raised := None;
      case Err(e) =>
        raised := Some(e);
    }

    /**
     * The `aliases` getter: every non-empty name as `-x` or `--name`, each
     * once, shortest first.
     */
    function Aliases(): (r: seq<string>)
      requires Valid()
      reads this
      ensures SortedByLen(r) && Distinct(r)
      ensures forall f :: f in r <==> exists n :: n in aliasSet && n != [] && f == Render(n)
      ensures name != [] ==> Render(name) in r
    {
      SortedFlagsDistinct(aliasSet);
      SortedFlags(aliasSet)
    }

    /** The `aliases` setter: the name together with the given names, as a set. */
    method SetAliases(val: Option<seq<string>>)
      requires Valid()
      modifies this
      ensures Valid()
      ensures aliasSet == Dedup([name] + (if val.Some? then val.value else []))
      ensures forall n :: n in aliasSet <==> n == name || (val.Some? && n in val.value)
      ensures value == old(value) && nullable == old(nullable) && default == old(default)
      ensures required == old(required) && choices == old(choices) && validator == old(validator) && info == old(info)
    {
      aliasSet := Dedup([name] + (if val.Some? then val.value else []));
    }
  }
}
