/**
 * The IOHandler generation (iotools/iohandler.py): a handler keeps its
 * arguments and subcommands in dicts keyed by name, hands out short
 * aliases from a pool of letters, and is pushed on a class-wide stack
 * inside a `with` block so that `Argument.add` finds it. Its arguments
 * convert their values with the validators of iotools/validator.py.
 */
module IOHandlers {
  import opened Python
  import opened Checks
  import opened Aliases
  import V = IoToolsValidator
  import CommandArgument

  /** `RunMode`. */
  datatype RunMode = Smart | Commandline | Gui | Programmatic

  /** The ways `process` can collect the arguments. */
  datatype Route = FromCommandline | AsGui | Programmatically

  /**
   * The route `process` takes: a mode other than SMART names it; in SMART
   * mode a subcommand or a non-empty argument dict selects the programmatic
   * run, and otherwise the GUI is used exactly when the command line
   * carries no arguments.
   */
  function ProcessRoute(mode: RunMode, subcommandGiven: bool, argumentsGiven: bool, argv: seq<string>): (r: Route)
    ensures mode == Commandline ==> r == FromCommandline
    ensures mode == Gui ==> r == AsGui
    ensures mode == Programmatic ==> r == Programmatically
    ensures mode == Smart ==> (r == Programmatically <==> subcommandGiven || argumentsGiven)
    ensures mode == Smart && !subcommandGiven && !argumentsGiven ==> (r == AsGui <==> |argv| <= 1)
  {
    match mode
    case Commandline => FromCommandline
    case Gui => AsGui
    case Programmatic => Programmatically
    case Smart =>
      if subcommandGiven || argumentsGiven then Programmatically
      else if |argv| <= 1 then AsGui
      else FromCommandline
  }

  /** `optional` as given, or, when not given, a default or a nullable argument. */
  function Optional(given: Option<bool>, default: Value, nullable: bool): (r: bool)
    ensures given.Some? ==> r == given.value
    ensures given.None? ==> (r <==> default != NoneV || nullable)
  {
    if given.Some? then given.value else default != NoneV || nullable
  }

  /** Left to itself, an IOHandler argument is optional exactly when a command argument is not required. */
  lemma OptionalIsNotRequired(default: Value, nullable: bool)
    ensures Optional(None, default, nullable) <==> !CommandArgument.Required(default, nullable)
  {
  }

  /**
   * `Validate.Type(argtype, nullable=..., choices=...)` as written: every
   * class it can instantiate takes the keywords `nullable` and `strict` only
   * (the list and dict validators take none), so the keyword `choices`
   * raises TypeError whatever the type; a Validator class that needs a
   * constructor fails the same way before that.
   */
  function ArgTypeAsWritten(t: V.TypeArg, nullable: bool, choices: Option<seq<Value>>,
                            subclass: (string, string) -> bool): (r: Result<V.Spec>)
    ensures r.Err? && r.error.TypeError?
  {
    match V.Type(t, subclass)
    case Err(e) => Err(e)
    case Ok(s) =>
      if s.kind in {V.ListKind, V.DictKind} then Err(TypeError("__init__() got an unexpected keyword argument 'nullable'"))
      else Err(TypeError("__init__() got an unexpected keyword argument 'choices'"))
  }

  /**
   * What lines 195-196 would leave were line 194 to build the validator of
   * the type with the argument's nullability and choices: the condition goes
   * to an attribute `conditions` that `convert` never reads, so the
   * validator is left without conditions.
   */
  function ConditionStoredAsWritten(t: V.TypeArg, nullable: bool, choices: Option<seq<Value>>,
                                    subclass: (string, string) -> bool): (r: Result<V.Spec>)
    ensures r.Ok? <==> V.Type(t, subclass).Ok?
    ensures r.Ok? ==> r.value.nullable == nullable && r.value.choices == choices && r.value.conditions == []
  {
    match V.Type(t, subclass)
    case Err(e) => Err(e)
    case Ok(s) => Ok(s.(nullable := nullable, choices := choices))
  }

  /**
   * The validator as the argument evidently intends it: the validator of
   * the type, with the argument's nullability and choices set on it and the
   * condition among the ones `convert` checks.
   */
  function ArgType(t: V.TypeArg, nullable: bool, choices: Option<seq<Value>>, condition: Option<Condition>,
                   subclass: (string, string) -> bool): (r: Result<V.Spec>)
    ensures r.Ok? <==> V.Type(t, subclass).Ok?
    ensures r.Ok? ==> r.value.nullable == nullable && r.value.choices == choices
    ensures r.Ok? ==> r.value.conditions == if condition.Some? then [condition.value] else []
    ensures r.Ok? ==> !V.Parametrized(r.value)
  {
    match V.Type(t, subclass)
    case Err(e) => Err(e)
    case Ok(s) => Ok(s.(nullable := nullable, choices := choices, conditions := if condition.Some? then [condition.value] else []))
  }

  /** The validator an argument keeps. */
  function Validator(t: V.TypeArg, nullable: bool, choices: Option<seq<Value>>, condition: Option<Condition>,
                     subclass: (string, string) -> bool): V.Spec
    requires V.Type(t, subclass).Ok?
  {
    ArgType(t, nullable, choices, condition, subclass).value
  }

  /**
   * Past line 194, a value the converter turns into one the condition
   * refuses would be accepted as written; with the condition in place it is
   * refused with a ValueError.
   */
  lemma ConditionIgnored(env: V.Env, subclass: (string, string) -> bool, t: V.TypeArg, nullable: bool,
                         c: Condition, v: Value, ret: Value)
    requires ConditionStoredAsWritten(t, nullable, None, subclass).Ok?
    requires var s := ConditionStoredAsWritten(t, nullable, None, subclass).value;
             s.kind !in {V.Unknown, V.DateTime, V.ListKind, V.DictKind} && v != NoneV
             && V.ConverterOf(env, s.kind).convert(v, s.strict) == Some(ret)
    requires c.test(ret) == Ok(false)
    ensures V.Convert(env, subclass, ConditionStoredAsWritten(t, nullable, None, subclass).value, v) == Ok(ret)
    ensures V.Convert(env, subclass, ArgType(t, nullable, None, Some(c), subclass).value, v)
              == Err(ValueError(ConditionFailed(0)))
  {
    var s := ConditionStoredAsWritten(t, nullable, None, subclass).value;
    V.ConditionsInOrder(env, subclass, s, v, ret);
    V.ConditionsInOrder(env, subclass, ArgType(t, nullable, None, Some(c), subclass).value, v, ret);
  }

  /** A validator's `convert`, given the validator. */
  type Converter = (V.Spec, Value) -> Result<Value>

  /** The `convert` of the validators of iotools/validator.py. */
  function Converting(env: V.Env, subclass: (string, string) -> bool): (c: Converter)
    ensures forall s, v :: c(s, v) == V.Convert(env, subclass, s, v)
  {
    (s, v) => V.Convert(env, subclass, s, v)
  }

  /** The class-wide `IOHandler.stack`. */
  class HandlerStack {
    var entries: seq<IOHandler>

    constructor ()
      ensures entries == []
    {
      entries := [];
    }
  }

  /** `stack.pop()`: the last entry goes, and an empty stack raises IndexError. */
  function Pop(s: seq<IOHandler>): (r: (Option<Exc>, seq<IOHandler>))
    ensures s == [] ==> r == (Some(IndexError), s)
    ensures s != [] ==> r.0.None? && r.1 + [s[|s| - 1]] == s
  {
    if s == [] then (Some(IndexError), s) else (None, s[..|s| - 1])
  }

  /** Pushing handlers and popping as many again, as nested `with` blocks do, restores the stack. */
  lemma {:induction false} NestedBlocks(s: seq<IOHandler>, hs: seq<IOHandler>)
    ensures PopTimes(s + hs, |hs|) == s
  {
    if hs != [] {
      var last := hs[|hs| - 1];
      var init := hs[..|hs| - 1];
      assert s + hs == (s + init) + [last];
      assert Pop(s + hs).1 == s + init;
      NestedBlocks(s, init);
    }
  }

  /** The stack after `n` exits that all find an entry to pop. */
  function PopTimes(s: seq<IOHandler>, n: nat): seq<IOHandler>
  {
    if n == 0 || s == [] then s else PopTimes(Pop(s).1, n - 1)
  }

  class Argument {
    const name: string
    var default: Value
    var nullable: bool
    var magnitude: Option<int>
    var info: Option<string>
    var aliases: seq<string>            // `_aliases`
    var value: Value                    // `_value`
    var choices: Option<seq<Value>>
    var optional: bool
    var condition: Option<Condition>
    var argtype: V.Spec
    var flagCache: Option<seq<string>>  // the lazily computed `commandline_aliases`

    /**
     * `__init__`: the value starts as the default; the aliases setter
     * turns the given aliases into the name set; the choices of an Enum are
     * its member values; `optional` is derived when not given; and the
     * validator is the corrected one of `ArgType`, carrying the condition
     * (line 194 as written raises TypeError instead; see `ArgTypeAsWritten`).
     */
    constructor (argName: string, t: V.TypeArg, argDefault: Value, isNullable: bool, isOptional: Option<bool>,
                 choicesGiven: CommandArgument.ChoicesGiven, cond: Option<Condition>, mag: Option<int>,
                 argInfo: Option<string>, given: Option<seq<string>>, subclass: (string, string) -> bool)
      requires V.Type(t, subclass).Ok?
      ensures name == argName && default == argDefault && nullable == isNullable && magnitude == mag && info == argInfo
      ensures value == argDefault && aliases == NameSet(argName, given)
      ensures choices == CommandArgument.StoredChoices(choicesGiven)
      ensures optional == Optional(isOptional, argDefault, isNullable) && condition == cond
      ensures argtype == Validator(t, isNullable, CommandArgument.StoredChoices(choicesGiven), cond, subclass)
      ensures flagCache.None?
    {
      var stored := CommandArgument.StoredChoices(choicesGiven);
      var spec := Validator(t, isNullable, stored, cond, subclass);
      name, default, nullable, magnitude, info, aliases, value := argName, argDefault, isNullable, mag, argInfo, [], argDefault;
      choices, optional, condition, argtype, flagCache := stored, Optional(isOptional, argDefault, isNullable), cond, spec, None;
      new;
      SetAliases(given);
    }

    /**
     * The `value` setter: the conversion by the argument's validator is
     * stored, or its exception propagates and the value stays.
     */
    method SetValue(convert: Converter, v: Value) returns (raised: Option<Exc>)
      modifies this
      ensures convert(argtype, v).Ok? ==> raised.None? && value == convert(argtype, v).value
      ensures convert(argtype, v).Err? ==> raised == Some(convert(argtype, v).error) && value == old(value)
      ensures aliases == old(aliases) && argtype == old(argtype) && default == old(default) && flagCache == old(flagCache)
    {
      match convert(argtype, v)
      case Ok(r) =>
        value := r;
        raised := None;
      case Err(e) =>
        raised := Some(e);
    }

    /** The `aliases` setter: the name alone for None, else the set of the name and the aliases sorted by length. */
    method SetAliases(val: Option<seq<string>>)
      modifies this
      ensures aliases == NameSet(name, val)
      ensures value == old(value) && argtype == old(argtype) && default == old(default) && flagCache == old(flagCache)
      ensures nullable == old(nullable) && magnitude == old(magnitude) && info == old(info) && choices == old(choices)
      ensures optional == old(optional) && condition == old(condition)
    {
      aliases := NameSet(name, val);
    }

    /** `commandline_aliases`, computed on the first read and kept from then on. */
    method CommandlineAliases() returns (flags: seq<string>)
      modifies this
      ensures old(flagCache).Some? ==> flags == old(flagCache).value && flagCache == old(flagCache)
      ensures old(flagCache).None? ==> flags == FlagList(aliases) && flagCache == Some(flags)
      ensures aliases == old(aliases) && value == old(value) && argtype == old(argtype) && default == old(default)
    {
      if flagCache.None? {
        flagCache := Some(FlagList(aliases));
      }
      flags := flagCache.value;
    }

    /** `add`: attach the argument to the handler on top of the stack; an empty stack raises IndexError. */
    method Add(stack: HandlerStack) returns (raised: Option<Exc>)
      requires stack.entries != [] ==> stack.entries[|stack.entries| - 1].Valid()
      modifies this, if stack.entries == [] then {} else {stack.entries[|stack.entries| - 1]}
      ensures stack.entries == old(stack.entries)
      ensures old(stack.entries) == [] ==> raised == Some(IndexError) && aliases == old(aliases)
      ensures old(stack.entries) != [] ==>
                var top := stack.entries[|stack.entries| - 1];
                var letter := ShortAlias(name, old(top.remainingLetters));
                top.Valid() && raised == old(top.Refusal(name)) && top.subcommands == old(top.subcommands)
                && (raised.Some? ==> top.arguments == old(top.arguments) && top.remainingLetters == old(top.remainingLetters)
                                     && aliases == old(aliases))
                && (raised.None? ==> top.arguments == old(top.arguments) + [(name, this)]
                                     && top.remainingLetters == Without(old(top.remainingLetters), letter)
                                     && aliases == if letter.Some? then NameSet(name, Some(SortByLen([[letter.value]] + old(aliases))))
                                                   else old(aliases))
      ensures value == old(value) && argtype == old(argtype)
    {
      if stack.entries == [] {
        return Some(IndexError);
      }
      var top := stack.entries[|stack.entries| - 1];
      raised := top.AddArgument(this);
    }
  }

  class IOHandler {
    const name: string
    const appName: string
    const appDesc: string
    const runMode: RunMode
    const parent: IOHandler?
    var arguments: seq<(string, Argument)>
    var subcommands: seq<(string, IOHandler)>
    var remainingLetters: set<char>

    /** Each argument is stored under its own name, once, and `h` is never in the pool. */
    predicate Valid()
      reads this
    {
      StoredUnderNames(arguments) && remainingLetters <= ShortPool
    }

    /** `__init__`: no arguments, no subcommands, the whole pool but `h`. */
    constructor (app: string, desc: string, handlerName: string, mode: RunMode, parentHandler: IOHandler?)
      ensures Valid()
      ensures name == handlerName && appName == app && appDesc == desc && runMode == mode && parent == parentHandler
      ensures arguments == [] && subcommands == [] && remainingLetters == ShortPool
    {
      name, appName, appDesc, runMode, parent := handlerName, app, desc, mode, parentHandler;
      arguments, subcommands := [], [];
      remainingLetters := ShortPool;
    }

    /** `__enter__`: this handler goes on top of the stack. */
    method Enter(stack: HandlerStack)
      modifies stack
      ensures stack.entries == old(stack.entries) + [this]
    {
      stack.entries := stack.entries + [this];
    }

    /** `__exit__`: the top of the stack goes, whatever the block raised. */
    method Exit(stack: HandlerStack) returns (raised: Option<Exc>)
      modifies stack
      ensures (raised, stack.entries) == Pop(old(stack.entries))
    {
      if stack.entries == [] {
        return Some(IndexError);
      }
      stack.entries := stack.entries[..|stack.entries| - 1];
      raised := None;
    }

    /**
     * `add_subcommand`: a new handler with the same application, mode and
     * configuration, this handler as its parent, stored under its name
     * (replacing any subcommand of that name).
     */
    method AddSubcommand(n: string) returns (sub: IOHandler)
      modifies this
      ensures fresh(sub) && sub.Valid()
      ensures sub.name == n && sub.parent == this && sub.appName == appName && sub.appDesc == appDesc && sub.runMode == runMode
      ensures sub.arguments == [] && sub.subcommands == []
      ensures subcommands == Set(old(subcommands), n, sub)
      ensures Get(subcommands, n) == Some(sub) && forall k :: k != n ==> Get(subcommands, k) == Get(old(subcommands), k)
      ensures arguments == old(arguments) && remainingLetters == old(remainingLetters)
    {
      sub := new IOHandler(appName, appDesc, n, runMode, this);
      subcommands := Set(subcommands, n, sub);
    }

    /** `_validate_arg_name`: a NameError for a name already attached. */
    function Refusal(n: string): (r: Option<Exc>)
      reads this
      ensures r.Some? <==> HasKey(arguments, n)
      ensures r.Some? ==> r.value.NameError?
    {
      if HasKey(arguments, n) then Some(NameError("argument name is already in use")) else None
    }

    /** `_determine_shortform_alias`: the first free lower-cased alphanumeric character, taken out of the pool. */
    method DetermineShortformAlias(n: string) returns (letter: Option<char>)
      requires Valid()
      modifies this
      ensures Valid()
      ensures letter == ShortAlias(n, old(remainingLetters))
      ensures remainingLetters == Without(old(remainingLetters), letter)
      ensures letter.Some? ==> letter.value !in remainingLetters && letter.value != 'h'
      ensures arguments == old(arguments) && subcommands == old(subcommands)
    {
      ShortPoolLetters();
      letter, remainingLetters := TakeShortAlias(n, remainingLetters);
    }

    /**
     * `_add_argument`: the name is checked; a short alias found joins the
     * aliases through the setter; the argument is stored under its name.
     */
    method AddArgument(arg: Argument) returns (raised: Option<Exc>)
      requires Valid()
      modifies this, arg
      ensures Valid()
      ensures raised == old(Refusal(arg.name))
      ensures raised.Some? ==> arguments == old(arguments) && remainingLetters == old(remainingLetters) && arg.aliases == old(arg.aliases)
      ensures raised.None? ==> arguments == old(arguments) + [(arg.name, arg)]
      ensures raised.None? ==>
                var letter := ShortAlias(arg.name, old(remainingLetters));
                remainingLetters == Without(old(remainingLetters), letter)
                && arg.aliases == if letter.Some? then NameSet(arg.name, Some(SortByLen([[letter.value]] + old(arg.aliases))))
                                  else old(arg.aliases)
      ensures subcommands == old(subcommands) && arg.value == old(arg.value) && arg.argtype == old(arg.argtype)
    {
      raised := Refusal(arg.name);
      if raised.Some? {
        return;
      }
      var letter := DetermineShortformAlias(arg.name);
      if letter.Some? {
        arg.SetAliases(Some(SortByLen([[letter.value]] + arg.aliases)));
      }
      StoredNew(arguments, arg);
      arguments := Set(arguments, arg.name, arg);
    }
  }

  /** Each argument is stored under its own name, and no name twice. */
  predicate StoredUnderNames(args: seq<(string, Argument)>)
  {
    Distinct(Keys(args)) && forall i :: 0 <= i < |args| ==> args[i].0 == args[i].1.name
  }

  /** Storing an argument under a name not yet used appends it and keeps every argument under its own name. */
  lemma StoredNew(args: seq<(string, Argument)>, arg: Argument)
    requires StoredUnderNames(args) && !HasKey(args, arg.name)
    ensures Set(args, arg.name, arg) == args + [(arg.name, arg)]
    ensures StoredUnderNames(args + [(arg.name, arg)])
  {
    var after := args + [(arg.name, arg)];
    KeysHasKey(args, arg.name);
    var keys := Keys(after);
    assert keys == Keys(args) + [arg.name];
    forall i, j | 0 <= i < j < |keys| ensures keys[i] != keys[j] {
      if j == |args| {
        assert keys[i] == Keys(args)[i];
      } else {
        assert keys[i] == Keys(args)[i] && keys[j] == Keys(args)[j];
      }
    }
  }

  /** The objects of a handler's arguments. */
  function ArgObjects(args: seq<(string, Argument)>): set<Argument>
  {
    set i | 0 <= i < |args| :: args[i].1
  }

  /** `NameSpaceDict({name: arg.value ...})`: each argument's name with its current value, in order. */
  function Namespace(args: seq<(string, Argument)>): (r: seq<(string, Value)>)
    reads ArgObjects(args)
    ensures |r| == |args| && forall i :: 0 <= i < |args| ==> r[i] == (args[i].0, args[i].1.value)
  {
    seq(|args|, i requires 0 <= i < |args| reads ArgObjects(args) => (args[i].0, args[i].1.value))
  }

  /**
   * `_run_programatically` as written: the handler is the subcommand given
   * or this one; with arguments it calls `_set_arguments_from_namespace`,
   * which no class defines, so it raises AttributeError; without, it
   * returns the handler's namespace.
   */
  method RunProgrammaticallyAsWritten(self: IOHandler, arguments: seq<(Value, Value)>, subcommand: IOHandler?)
    returns (r: Result<seq<(string, Value)>>)
    ensures var h := if subcommand != null then subcommand else self;
            r == if arguments != [] then Err(AttributeError("object has no attribute _set_arguments_from_namespace")) else Ok(Namespace(h.arguments))
  {
    var handler := if subcommand != null then subcommand else self;
    if arguments != [] {
      return Err(AttributeError("object has no attribute _set_arguments_from_namespace"));
    }
    r := Ok(Namespace(handler.arguments));
  }

  /**
   * What setting each argument from a namespace gives: None for an
   * argument whose name is not a key, otherwise the conversion of the
   * key's value by the argument's validator.
   */
  function Outcomes(convert: Converter, snap: seq<(string, V.Spec)>,
                    ns: seq<(Value, Value)>): (r: seq<Option<Result<Value>>>)
    ensures |r| == |snap|
  {
    if snap == [] then []
    else
      var k := StrV(snap[0].0);
      [if HasKey(ns, k) then Some(convert(snap[0].1, Get(ns, k).value)) else None] + Outcomes(convert, snap[1..], ns)
  }

  /** The outcome of the `j`-th argument. */
  lemma {:induction false} OutcomeAt(convert: Converter, snap: seq<(string, V.Spec)>, ns: seq<(Value, Value)>, j: nat)
    requires j < |snap|
    ensures Outcomes(convert, snap, ns)[j]
              == if HasKey(ns, StrV(snap[j].0)) then Some(convert(snap[j].1, Get(ns, StrV(snap[j].0)).value))
                 else None
    decreases j
  {
    if j > 0 {
      OutcomeAt(convert, snap[1..], ns, j - 1);
      assert snap[1..][j - 1] == snap[j];
    }
  }

  /**
   * The walk that assigns from a namespace, from the `i`-th argument on:
   * an argument with a successful conversion takes it, an argument whose
   * name is not a key keeps its value, and the first conversion that
   * raises stops the walk.
   */
  function Walk(outs: seq<Option<Result<Value>>>, i: nat, cur: seq<Value>): (r: (Option<Exc>, seq<Value>))
    requires i <= |outs| && |cur| == |outs|
    ensures |r.1| == |outs|
    decreases |outs| - i
  {
    if i == |outs| then (None, cur)
    else if outs[i].None? then Walk(outs, i + 1, cur)
    else if outs[i].value.Err? then (Some(outs[i].value.error), cur)
    else Walk(outs, i + 1, cur[i := outs[i].value.value])
  }

  /** The first conversion from the `i`-th on that raises. */
  function FirstRefused(outs: seq<Option<Result<Value>>>, i: nat): (m: Option<nat>)
    requires i <= |outs|
    ensures m.Some? ==> i <= m.value < |outs| && outs[m.value].Some? && outs[m.value].value.Err?
    ensures m.Some? ==> forall j :: i <= j < m.value && outs[j].Some? ==> outs[j].value.Ok?
    ensures m.None? ==> forall j :: i <= j < |outs| && outs[j].Some? ==> outs[j].value.Ok?
    decreases |outs| - i
  {
    if i == |outs| then None
    else if outs[i].Some? && outs[i].value.Err? then Some(i)
    else FirstRefused(outs, i + 1)
  }

  /**
   * The walk from the `i`-th argument raises exactly when some conversion
   * does, and then with the first one's exception; every argument before
   * that one (or before the end) with a conversion holds it, and every
   * other argument keeps its value.
   */
  lemma {:induction false} WalkMeaning(outs: seq<Option<Result<Value>>>, i: nat, cur: seq<Value>)
    requires i <= |outs| && |cur| == |outs|
    ensures var r, m := Walk(outs, i, cur), FirstRefused(outs, i);
            r.0 == if m.Some? then Some(outs[m.value].value.error) else None
    ensures var r, m := Walk(outs, i, cur), FirstRefused(outs, i);
            var stop := if m.Some? then m.value else |outs|;
            forall j :: 0 <= j < |outs| ==>
              r.1[j] == if i <= j < stop && outs[j].Some? then outs[j].value.value else cur[j]
    decreases |outs| - i
  {
    if i < |outs| && !(outs[i].Some? && outs[i].value.Err?) {
      var next := if outs[i].Some? then cur[i := outs[i].value.value] else cur;
      WalkMeaning(outs, i + 1, next);
      assert Walk(outs, i, cur) == Walk(outs, i + 1, next);
      forall j | 0 <= j < |outs| && j != i ensures next[j] == cur[j] { }
    }
  }

  /**
   * Setting a handler's arguments from a namespace leaves what the walk
   * over their outcomes gives, starting from their current values.
   */
  function AssignFrom(convert: Converter, snap: seq<(string, V.Spec)>,
                      ns: seq<(Value, Value)>, olds: seq<Value>): (r: (Option<Exc>, seq<Value>))
    requires |olds| == |snap|
    ensures |r.1| == |snap|
  {
    Walk(Outcomes(convert, snap, ns), 0, olds)
  }

  /**
   * A namespace that names none of the arguments leaves them as they are
   * and raises nothing.
   */
  lemma UnrelatedNamespace(convert: Converter, snap: seq<(string, V.Spec)>, ns: seq<(Value, Value)>, olds: seq<Value>)
    requires |olds| == |snap|
    requires forall j :: 0 <= j < |snap| ==> !HasKey(ns, StrV(snap[j].0))
    ensures AssignFrom(convert, snap, ns, olds) == (None, olds)
  {
    var outs := Outcomes(convert, snap, ns);
    forall j | 0 <= j < |snap| ensures outs[j].None? {
      OutcomeAt(convert, snap, ns, j);
    }
    WalkMeaning(outs, 0, olds);
    var r := Walk(outs, 0, olds);
    assert FirstRefused(outs, 0).None?;
    assert r.1 == olds;
  }

  /** The name and validator of each argument, in order. */
  function Snapshot(args: seq<(string, Argument)>): (r: seq<(string, V.Spec)>)
    reads ArgObjects(args)
    ensures |r| == |args| && forall i :: 0 <= i < |args| ==> r[i] == (args[i].0, args[i].1.argtype)
  {
    seq(|args|, i requires 0 <= i < |args| reads ArgObjects(args) => (args[i].0, args[i].1.argtype))
  }

  /** Arguments stored under distinct names are distinct objects. */
  lemma DistinctObjects(args: seq<(string, Argument)>)
    requires StoredUnderNames(args)
    ensures forall i, j :: 0 <= i < |args| && 0 <= j < |args| && i != j ==> args[i].1 != args[j].1
  {
    forall i, j | 0 <= i < |args| && 0 <= j < |args| && i != j ensures args[i].1 != args[j].1 {
      assert Keys(args)[i] != Keys(args)[j];
    }
  }

  /**
   * Setting the handler's arguments from a namespace, as the hierarchy's
   * `set_values_from_namespace` does: each argument whose name is a key
   * takes the key's value through its setter, in order, and the first
   * setter that raises stops the walk.
   */
  method SetArgumentsFromNamespace(handler: IOHandler, convert: Converter, ns: seq<(Value, Value)>)
    returns (raised: Option<Exc>)
    requires handler.Valid()
    modifies ArgObjects(handler.arguments)
    ensures Snapshot(handler.arguments) == old(Snapshot(handler.arguments))
    ensures (raised, Values(handler.arguments))
              == AssignFrom(convert, old(Snapshot(handler.arguments)), ns, old(Values(handler.arguments)))
  {
    var args := handler.arguments;
    ghost var snap, olds := Snapshot(args), Values(args);
    ghost var outs := Outcomes(convert, snap, ns);
    ghost var cur := olds;
    ghost var goal := Walk(outs, 0, olds);
    raised := None;
    var i := 0;
    while i < |args| && raised.None?
      invariant 0 <= i <= |args| && |cur| == |args| && StoredUnderNames(args)
      invariant forall j :: 0 <= j < |args| ==> args[j].1.argtype == snap[j].1
      invariant forall j :: 0 <= j < |args| ==> args[j].1.value == cur[j]
      invariant raised.None? ==> goal == Walk(outs, i, cur)
      invariant raised.Some? ==> goal == (raised, cur)
      decreases |args| - i, raised.None?
    {
      OutcomeAt(convert, snap, ns, i);
      assert args[i].1 in ArgObjects(args);
      raised, cur := AssignOne(args, i, convert, ns, outs[i], cur);
      if raised.None? {
        i := i + 1;
      }
    }
    assert Values(args) == cur;
    assert Snapshot(args) == snap;
  }

  /**
   * One step of setting from a namespace: the `i`-th argument takes the
   * key's value through its setter when its name is a key; no other
   * argument changes.
   */
  method AssignOne(args: seq<(string, Argument)>, i: nat, convert: Converter, ns: seq<(Value, Value)>,
                   ghost outcome: Option<Result<Value>>, ghost cur: seq<Value>)
    returns (raised: Option<Exc>, ghost next: seq<Value>)
    requires StoredUnderNames(args) && i < |args| == |cur|
    requires outcome == if HasKey(ns, StrV(args[i].0)) then Some(convert(args[i].1.argtype, Get(ns, StrV(args[i].0)).value)) else None
    requires forall j :: 0 <= j < |args| ==> args[j].1.value == cur[j]
    modifies args[i].1
    ensures forall j :: 0 <= j < |args| ==> args[j].1.argtype == old(args[j].1.argtype)
    ensures |next| == |args| && forall j :: 0 <= j < |args| ==> args[j].1.value == next[j]
    ensures outcome.Some? && outcome.value.Err? ==> raised == Some(outcome.value.error)
    ensures !(outcome.Some? && outcome.value.Err?) ==> raised.None?
    ensures next == if outcome.Some? && outcome.value.Ok? then cur[i := outcome.value.value] else cur
  {
    var arg := args[i].1;
    var k := StrV(args[i].0);
    next := cur;
    raised := None;
    if HasKey(ns, k) {
      raised := arg.SetValue(convert, Get(ns, k).value);
      if raised.None? {
        next := cur[i := arg.value];
      }
    }
    DistinctObjects(args);
  }

  /** The current value of each argument, in order. */
  function Values(args: seq<(string, Argument)>): (r: seq<Value>)
    reads ArgObjects(args)
    ensures |r| == |args| && forall i :: 0 <= i < |args| ==> r[i] == args[i].1.value
  {
    seq(|args|, i requires 0 <= i < |args| reads ArgObjects(args) => args[i].1.value)
  }

  /**
   * `_run_programatically` as evidently intended: with arguments, the
   * handler's arguments are set from them, a setter's exception
   * propagating; then the handler's namespace is returned.
   */
  method RunProgrammatically(self: IOHandler, env: V.Env, subclass: (string, string) -> bool,
                             arguments: seq<(Value, Value)>, subcommand: IOHandler?)
    returns (r: Result<seq<(string, Value)>>)
    requires (if subcommand != null then subcommand else self).Valid()
    modifies ArgObjects((if subcommand != null then subcommand else self).arguments)
    ensures var h := if subcommand != null then subcommand else self;
            var a := AssignFrom(Converting(env, subclass), old(Snapshot(h.arguments)), arguments, old(Values(h.arguments)));
            Values(h.arguments) == (if arguments != [] then a.1 else old(Values(h.arguments)))
            && r == if arguments != [] && a.0.Some? then Err(a.0.value) else Ok(Namespace(h.arguments))
  {
    var handler := if subcommand != null then subcommand else self;
    if arguments != [] {
      var raised := SetArgumentsFromNamespace(handler, Converting(env, subclass), arguments);
      if raised.Some? {
        return Err(raised.value);
      }
    }
    r := Ok(Namespace(handler.arguments));
  }
}
