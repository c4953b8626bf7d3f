/**
 * The argument of the ArgHandler generation (iotools/handler/argument.py):
 * the default doubles as the first value, `required` is derived when not
 * given, the aliases are the name and the given aliases as a set sorted by
 * length, and the command-line flags are computed once and cached.
 */
module HandlerArgument {
  import opened Python
  import opened Checks
  import opened Aliases
  import MiscValidator
  import CommandArgument

  /**
   * What building a `Condition` around a list or a dict raises: its name is
   * read from the object's `__name__`, which neither has.
   */
  function NoName(c: CommandArgument.ConditionsGiven): Exc
  {
    if c.DictOf? then AttributeError("'dict' object has no attribute '__name__'") else ListNoName
  }

  const ListNoName: Exc := AttributeError("'list' object has no attribute '__name__'")

  /** `if conditions:`: a callable is truthy, a list or dict only when not empty. */
  predicate ConditionsTruthy(c: CommandArgument.ConditionsGiven)
  {
    match c
    case NoConditions => false
    case Single(_) => true
    case ListOf(conds) => conds != []
    case DictOf(entries) => entries != []
  }

  /**
   * The conditions the constructor adds, as written: the type test asks
   * whether the class `list` is a dict, which it never is, so whatever was
   * given goes to `add_condition` whole. For a list or a dict the
   * `Condition` built around it looks up the object's `__name__`, so the
   * constructor raises AttributeError before any value is checked.
   */
  function ConditionsAsWritten(c: CommandArgument.ConditionsGiven): (r: Result<seq<Condition>>)
    ensures !ConditionsTruthy(c) ==> r == Ok([])
    ensures c.Single? ==> r == Ok([c.c])
    ensures r.Err? <==> ConditionsTruthy(c) && !c.Single?
    ensures r.Err? ==> r.error.AttributeError?
  {
    if !ConditionsTruthy(c) then Ok([])
    else if c.Single? then Ok([c.c])
    else Err(NoName(c))
  }

  /**
   * As written, a list holding one condition makes building the argument
   * raise AttributeError; with the list's conditions added one by one, a
   * value that condition accepts passes.
   */
  lemma ConditionListCalled(c: Condition, v: Value)
    requires c.test(v) == Ok(true)
    ensures ConditionsAsWritten(CommandArgument.ListOf([c])) == Err(ListNoName)
    ensures Check(CommandArgument.AddedConditions(CommandArgument.ListOf([c])), v) == AllPass
  {
    assert CheckFrom([c], v, 1) == AllPass;
  }

  /** `required` as given, or, when not given, no default and not nullable. */
  function RequiredFor(given: Option<bool>, default: Value, nullable: bool): (r: bool)
    ensures given.Some? ==> r == given.value
    ensures given.None? ==> (r <==> CommandArgument.Required(default, nullable))
  {
    if given.Some? then given.value else default == NoneV && !nullable
  }

  class Argument {
    const kind: MiscValidator.Kind
    const name: string
    var aliasesGiven: Option<seq<string>>   // `_aliases`
    var info: Option<string>
    var default: Value                      // `_default`
    var value: Value                        // `_value`
    var nullable: bool
    var required: bool
    var choices: Option<seq<Value>>
    var validator: MiscValidator.Spec
    var flagCache: Option<seq<string>>      // the cached `commandline_aliases`

    predicate Valid()
      reads this
    {
      MiscValidator.WellFormed(validator)
    }

    /** The `aliases` getter. */
    function Aliases(): (r: seq<string>)
      reads this
      ensures name in r
    {
      NameSet(name, aliasesGiven)
    }

    /**
     * `__init__`: the value starts as None and the default setter then
     * makes the default the value; `required` is derived when not given;
     * the validator gets the nullable flag, the choices and the conditions
     * (a list or dict of conditions added one by one). As written, line 31
     * raises TypeError (`CommandArgument.ValidatorAsWritten`) and line 34
     * AttributeError for a list or dict (`ConditionsAsWritten`).
     */
    constructor (k: MiscValidator.Kind, argName: string, aliases: Option<seq<string>>, argInfo: Option<string>,
                 argDefault: Value, isNullable: bool, isRequired: Option<bool>,
                 conditions: CommandArgument.ConditionsGiven, choicesGiven: CommandArgument.ChoicesGiven)
      requires CommandArgument.ArgumentKind(k)
      ensures Valid()
      ensures kind == k && name == argName && aliasesGiven == aliases && info == argInfo && nullable == isNullable
      ensures default == argDefault && value == argDefault
      ensures required == RequiredFor(isRequired, argDefault, isNullable)
      ensures choices == CommandArgument.StoredChoices(choicesGiven)
      ensures validator == CommandArgument.ArgumentValidator(k, isNullable, choicesGiven, conditions)
      ensures flagCache.None?
    {
      kind, name, aliasesGiven, info, nullable := k, argName, aliases, argInfo, isNullable;
      value, default := NoneV, NoneV;
      required := false;
      choices := CommandArgument.StoredChoices(choicesGiven);
      validator := CommandArgument.ArgumentValidator(k, isNullable, choicesGiven, conditions);
      flagCache := None;
      new;
      SetDefault(argDefault);
      required := RequiredFor(isRequired, default, nullable);
    }

    /** The `default` setter: the value follows the default only while it is still None. */
    method SetDefault(val: Value)
      modifies this
      ensures default == val
      ensures value == if old(value) == NoneV then val else old(value)
      ensures aliasesGiven == old(aliasesGiven) && info == old(info) && nullable == old(nullable)
      ensures required == old(required) && choices == old(choices) && validator == old(validator)
      ensures flagCache == old(flagCache)
    {
      default := val;
      if value == NoneV {
        value := val;
      }
    }

    /**
     * The `value` setter: the validator's conversion is stored; when the
     * conversion raises, the exception propagates and the value stays.
     */
    method SetValue(env: MiscValidator.Env, v: Value) returns (raised: Option<Exc>)
      modifies this
      ensures MiscValidator.Convert(env, validator, v).Ok? ==>
                raised.None? && value == MiscValidator.Convert(env, validator, v).value
      ensures MiscValidator.Convert(env, validator, v).Err? ==>
                raised == Some(MiscValidator.Convert(env, validator, v).error) && value == old(value)
      ensures aliasesGiven == old(aliasesGiven) && info == old(info) && nullable == old(nullable) && default == old(default)
      ensures required == old(required) && choices == old(choices) && validator == old(validator)
      ensures flagCache == old(flagCache)
    {
      match MiscValidator.Convert(env, validator, v)
      case Ok(r) =>
        value := r;
        raised := None;
      case Err(e) =>
        raised := Some(e);
    }

    /** The `aliases` setter: the given list is kept as it is. */
    method SetAliases(val: Option<seq<string>>)
      modifies this
      ensures aliasesGiven == val
      ensures forall n :: n in Aliases() <==> n == name || (val.Some? && n in val.value)
      ensures value == old(value) && info == old(info) && nullable == old(nullable) && default == old(default)
      ensures required == old(required) && choices == old(choices) && validator == old(validator)
      ensures flagCache == old(flagCache)
    {
      aliasesGiven := val;
    }

    /**
     * `commandline_aliases`, a cached property: the first read renders the
     * aliases of that moment and every later read returns the same list.
     */
    method CommandlineAliases() returns (flags: seq<string>)
      modifies this
      ensures old(flagCache).Some? ==> flags == old(flagCache).value && flagCache == old(flagCache)
      ensures old(flagCache).None? ==> flags == FlagList(Aliases()) && flagCache == Some(flags)
      ensures aliasesGiven == old(aliasesGiven) && value == old(value) && info == old(info) && nullable == old(nullable)
      ensures default == old(default) && required == old(required) && choices == old(choices) && validator == old(validator)
    {
      if flagCache.None? {
        flagCache := Some(FlagList(Aliases()));
      }
      flags := flagCache.value;
    }

    /** `__str__` of the base class: an argument cannot be turned into a string implicitly. */
    function Str(className: string): (r: Result<string>)
      ensures r.Err? && r.error.TypeError?
    {
      Err(TypeError("Cannot implicitly stringify a " + className + "."))
    }
  }

  /** The flags of an argument name each of its aliases once, and stripping a flag gives back its alias. */
  lemma CommandlineFlags(name: string, given: Option<seq<string>>)
    ensures Distinct(FlagList(NameSet(name, given)))
    ensures forall i :: 0 <= i < |NameSet(name, given)| ==> Unflag(FlagList(NameSet(name, given))[i]) == NameSet(name, given)[i]
    ensures Render(name) in FlagList(NameSet(name, given))
  {
    var names := NameSet(name, given);
    FlagListNames(names);
    assert name in names;
    var i :| 0 <= i < |names| && names[i] == name;
    assert FlagList(names)[i] == Render(name);
  }
}
