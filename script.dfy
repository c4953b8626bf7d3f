/**
 * Scripts (iotools/misc/script.py): a `Script` subclass has its methods
 * replaced, when the class is created, by wrappers that log every call (its
 * arguments, then what it returned) to a nested print log whose lines are
 * indented one level per call in progress; its constructor is further
 * wrapped so that a failure is logged, the object possibly serialised, and
 * the exception raised again.
 */
module Scripts {
  import opened Python

  /** `Enums.LoggingLevel`. */
  datatype LoggingLevel = TextOnly | SerializeOnFailure | AlwaysSerialize

  /** `Enums.FunctionType`. */
  datatype FunctionType = Instance | Static | Class | Unknown

  /** What sort of callable a class attribute is. */
  datatype CallKind =
    | PlainFunction       // `inspect.isfunction` holds
    | StaticMethod        // a `staticmethod` object
    | ClassMethod         // a `classmethod` object
    | BoundMethod         // any other object with a `__func__`

  /** A layer a class attribute has been wrapped in. */
  datatype Wrapper = ScriptWrapper | InitWrapper

  /** A class attribute, as `FunctionSpec` and `_recursively_wrap` tell them apart. */
  datatype Member =
    | Callable(kind: CallKind, wrappers: seq<Wrapper>)
    | NestedClass(members: seq<(string, Member)>)
    | Other               // any other attribute value: it has no `__func__`

  // ----------------------------------------------------------- FunctionSpec

  /** What `FunctionSpec.__init__` keeps: the qualified name, the kind, and the wrappers of the underlying function. */
  datatype FunctionSpec = FunctionSpec(name: string, kind: FunctionType, wrappers: seq<Wrapper>)

  /**
   * `FunctionSpec(parent, name, parent_reference)`: a plain function is an
   * instance method, a staticmethod or classmethod object is itself; any
   * other object with a `__func__` is of unknown type, and one without
   * makes reading `__func__` raise an AttributeError.
   */
  function Spec(parentName: string, name: string, ref: Member): (r: Result<FunctionSpec>)
    ensures r.Ok? <==> ref.Callable?
    ensures r.Err? ==> r.error.AttributeError?
    ensures r.Ok? ==> r.value.name == parentName + "." + name && r.value.wrappers == ref.wrappers
    ensures r.Ok? ==> (r.value.kind == Instance <==> ref.kind == PlainFunction)
    ensures r.Ok? ==> (r.value.kind == Static <==> ref.kind == StaticMethod)
    ensures r.Ok? ==> (r.value.kind == Class <==> ref.kind == ClassMethod)
    ensures r.Ok? ==> (r.value.kind == Unknown <==> ref.kind == BoundMethod)
  {
    match ref
    case Callable(kind, wrappers) =>
      var t := match kind
        case PlainFunction => Instance
        case StaticMethod => Static
        case ClassMethod => Class
        case BoundMethod => Unknown;
      Ok(FunctionSpec(parentName + "." + name, t, wrappers))
    case _ => Err(AttributeError("__func__"))
  }

  /** `is_bound`: the call receives the instance or the class first. */
  predicate IsBound(t: FunctionType)
  {
    t == Instance || t == Class
  }

  /**
   * `wrap`: the wrapper is given the same kind as the wrapped member (bare
   * for an instance method, re-wrapped in staticmethod or classmethod
   * otherwise); a spec of unknown type raises a ValueError.
   */
  function Wrap(spec: FunctionSpec, layer: Wrapper): (r: Result<Member>)
    ensures r.Err? <==> spec.kind == Unknown
    ensures r.Err? ==> r.error.ValueError?
    ensures r.Ok? ==> r.value.Callable? && r.value.wrappers == spec.wrappers + [layer]
  {
    match spec.kind
    case Instance => Ok(Callable(PlainFunction, spec.wrappers + [layer]))
    case Static => Ok(Callable(StaticMethod, spec.wrappers + [layer]))
    case Class => Ok(Callable(ClassMethod, spec.wrappers + [layer]))
    case Unknown => Err(ValueError(Message("Don't know function type of spec.")))
  }

  /** `_is_valid_function_type`: a plain function, a staticmethod or a classmethod. */
  predicate IsValidFunctionType(m: Member)
  {
    m.Callable? && m.kind != BoundMethod
  }

  /**
   * Wrapping keeps the kind: every valid function type gets a spec, and
   * wrapping that spec gives a member of the same kind with one more layer;
   * reading the spec of the wrapped member again gives the same kind.
   */
  lemma WrapKeepsKind(parentName: string, name: string, m: Member, layer: Wrapper)
    requires IsValidFunctionType(m)
    ensures Spec(parentName, name, m).Ok?
    ensures var spec := Spec(parentName, name, m).value;
            Wrap(spec, layer) == Ok(Callable(m.kind, m.wrappers + [layer]))
            && Spec(parentName, name, Wrap(spec, layer).value).value.kind == spec.kind
  {
  }

  /** Only a member of unknown type cannot be wrapped, and it is exactly a bound method. */
  lemma WrapFailsOnlyForBoundMethods(parentName: string, name: string, m: Member, layer: Wrapper)
    requires m.Callable?
    ensures Wrap(Spec(parentName, name, m).value, layer).Err? <==> m.kind == BoundMethod
  {
  }

  // ------------------------------------------------------ wrapping a class

  /** A dunder name: it starts and ends with two underscores. */
  predicate IsDunder(name: string)
  {
    |name| >= 2 && name[..2] == "__" && name[|name| - 2..] == "__"
  }

  /** The members `_recursively_wrap` replaces: functions named `__init__` or not dunder. */
  predicate ShouldWrap(name: string, m: Member)
  {
    IsValidFunctionType(m) && (name == "__init__" || !IsDunder(name))
  }

  /**
   * What `_recursively_wrap` leaves under one attribute name: a member it
   * should wrap gets a script wrapper of its own kind, a nested class is
   * visited in turn, and anything else stays.
   */
  function WrapOne(name: string, m: Member): Member
    decreases m, 1
  {
    if ShouldWrap(name, m) then Callable(m.kind, m.wrappers + [ScriptWrapper])
    else if m.NestedClass? then NestedClass(WrapFrom(m, 0))
    else m
  }

  /** `_recursively_wrap` over the attributes of class `c` from position `i` on, in order. */
  function WrapFrom(c: Member, i: nat): (r: seq<(string, Member)>)
    requires c.NestedClass? && i <= |c.members|
    ensures |r| == |c.members| - i
    ensures forall k :: 0 <= k < |r| ==> r[k] == (c.members[i + k].0, WrapOne(c.members[i + k].0, c.members[i + k].1))
    decreases c, 0, |c.members| - i
  {
    if i == |c.members| then []
    else [(c.members[i].0, WrapOne(c.members[i].0, c.members[i].1))] + WrapFrom(c, i + 1)
  }

  /** `_recursively_wrap(item)` for a class with the given attributes. */
  function WrapMembers(ms: seq<(string, Member)>): (r: seq<(string, Member)>)
    ensures |r| == |ms| && forall k :: 0 <= k < |ms| ==> r[k] == (ms[k].0, WrapOne(ms[k].0, ms[k].1))
  {
    WrapFrom(NestedClass(ms), 0)
  }

  /** The member with its wrappers removed, at every depth. */
  function Unwrapped(m: Member): (r: Member)
    ensures r.Callable? <==> m.Callable?
    decreases m, 1
  {
    match m
    case Callable(kind, _) => Callable(kind, [])
    case NestedClass(members) => NestedClass(UnwrappedFrom(m, 0))
    case Other => Other
  }

  /** `Unwrapped` on the attributes of class `c` from position `i` on. */
  function UnwrappedFrom(c: Member, i: nat): (r: seq<(string, Member)>)
    requires c.NestedClass? && i <= |c.members|
    ensures |r| == |c.members| - i
    ensures forall k :: 0 <= k < |r| ==> r[k] == (c.members[i + k].0, Unwrapped(c.members[i + k].1))
    decreases c, 0, |c.members| - i
  {
    if i == |c.members| then []
    else [(c.members[i].0, Unwrapped(c.members[i].1))] + UnwrappedFrom(c, i + 1)
  }

  /** A wrapped attribute is the original but for its wrappers, at every depth. */
  lemma {:induction false} WrapOneShape(name: string, m: Member)
    ensures Unwrapped(WrapOne(name, m)) == Unwrapped(m)
    decreases m
  {
    if !ShouldWrap(name, m) && m.NestedClass? {
      var w := NestedClass(WrapFrom(m, 0));
      forall k | 0 <= k < |m.members|
        ensures Unwrapped(WrapOne(m.members[k].0, m.members[k].1)) == Unwrapped(m.members[k].1)
      {
        WrapOneShape(m.members[k].0, m.members[k].1);
      }
      assert UnwrappedFrom(w, 0) == UnwrappedFrom(m, 0);
    }
  }

  /**
   * Wrapping a class changes nothing but wrappers: the names, their order,
   * the kinds and the nesting stay; every member that should be wrapped
   * gains exactly one script wrapper, and every other callable or plain
   * attribute is left as it was.
   */
  lemma WrapMembersShape(ms: seq<(string, Member)>)
    ensures Unwrapped(NestedClass(WrapMembers(ms))) == Unwrapped(NestedClass(ms))
    ensures forall k :: 0 <= k < |ms| && ShouldWrap(ms[k].0, ms[k].1) ==>
              WrapMembers(ms)[k].1 == Callable(ms[k].1.kind, ms[k].1.wrappers + [ScriptWrapper])
    ensures forall k :: 0 <= k < |ms| && !ms[k].1.NestedClass? && !ShouldWrap(ms[k].0, ms[k].1) ==>
              WrapMembers(ms)[k].1 == ms[k].1
  {
    WrapOneShape("", NestedClass(ms));
  }

  /** The member an attribute lookup finds: the class's own, or else the inherited one. */
  function Lookup(ms: seq<(string, Member)>, name: string, inherited: Member): Member
  {
    match Get(ms, name)
    case Some(m) => m
    case None => inherited
  }

  /**
   * `ScriptMeta.__init__`: a class with bases has its members wrapped, and
   * then the `__init__` it sees (its own, now wrapped, or the inherited
   * one) wrapped again by the init wrapper and set on the class; the base
   * `Script` class itself is left alone.
   */
  function Created(name: string, hasBases: bool, ms: seq<(string, Member)>, inheritedInit: Member): (r: seq<(string, Member)>)
    ensures !hasBases ==> r == ms
    ensures hasBases ==> HasKey(r, "__init__")
  {
    if !hasBases then ms
    else
      var wrapped := WrapMembers(ms);
      var init := Lookup(wrapped, "__init__", inheritedInit);
      var wrappers := if init.Callable? then init.wrappers else [];
      Set(wrapped, "__init__", Callable(PlainFunction, wrappers + [InitWrapper]))
  }

  /**
   * The constructor of a script subclass is wrapped twice: a plain
   * `__init__` of its own ends with a script wrapper (its call is logged)
   * inside the init wrapper; one it inherits gains only the init wrapper.
   */
  lemma CreatedInit(name: string, ms: seq<(string, Member)>, inheritedInit: Member)
    ensures var init := Get(Created(name, true, ms, inheritedInit), "__init__");
            init.Some? && init.value.Callable? && init.value.kind == PlainFunction
            && (match Get(ms, "__init__")
                case Some(own) =>
                  own.Callable? && own.kind == PlainFunction ==>
                    init.value.wrappers == own.wrappers + [ScriptWrapper, InitWrapper]
                case None =>
                  inheritedInit.Callable? ==> init.value.wrappers == inheritedInit.wrappers + [InitWrapper])
  {
    var wrapped := WrapMembers(ms);
    var seen := Lookup(wrapped, "__init__", inheritedInit);
    var wrappers := if seen.Callable? then seen.wrappers else [];
    assert Created(name, true, ms, inheritedInit) == Set(wrapped, "__init__", Callable(PlainFunction, wrappers + [InitWrapper]));
    GetWrapped(ms, "__init__");
  }

  /** Looking a name up among the wrapped members finds the wrapped member under it. */
  lemma GetWrapped(ms: seq<(string, Member)>, key: string)
    ensures Get(WrapMembers(ms), key) == match Get(ms, key)
                                          case Some(m) => Some(WrapOne(key, m))
                                          case None => None
  {
    var wrapped := WrapMembers(ms);
    KeysSame(wrapped, ms);
    KeysHasKey(ms, key);
    KeysHasKey(wrapped, key);
    if Get(ms, key).Some? {
      var i := GetIndex(ms, key);
      GetAt(wrapped, i);
    }
  }

  /** Two entry lists with the same names at the same places have the same keys. */
  lemma KeysSame<V>(a: seq<(string, V)>, b: seq<(string, V)>)
    requires |a| == |b| && forall i :: 0 <= i < |a| ==> a[i].0 == b[i].0
    ensures Keys(a) == Keys(b)
  {
  }

  /** The position of the first entry under a key that is present. */
  function GetIndex<V>(ms: seq<(string, V)>, name: string): (i: nat)
    requires Get(ms, name).Some?
    ensures i < |ms| && ms[i].0 == name && Get(ms, name) == Some(ms[i].1)
    ensures forall j :: 0 <= j < i ==> ms[j].0 != name
  {
    if ms[0].0 == name then 0 else 1 + GetIndex(ms[1..], name)
  }

  /** An entry list whose first `i` names differ from `name` and whose entry `i` has it gives that entry. */
  lemma {:induction false} GetAt<V>(ms: seq<(string, V)>, i: nat)
    requires i < |ms| && forall j :: 0 <= j < i ==> ms[j].0 != ms[i].0
    ensures Get(ms, ms[i].0) == Some(ms[i].1)
  {
    if i > 0 {
      GetAt(ms[1..], i - 1);
    }
  }

  // ------------------------------------------------------ the nested print log

  /** `Maybe(arg).else_(default)`: the argument when one is given. */
  function Chosen(arg: Option<bool>, default: bool): bool
  {
    if arg.Some? then arg.value else default
  }

  /** Each line behind the prefix, an empty line staying empty. */
  function PrefixedLines(prefix: string, lines: seq<string>): (r: seq<string>)
    ensures |r| == |lines|
    ensures forall i :: 0 <= i < |lines| ==> r[i] == if lines[i] == "" then "" else prefix + lines[i]
  {
    seq(|lines|, i requires 0 <= i < |lines| => if lines[i] == "" then "" else prefix + lines[i])
  }

  /** What `write` sends to the file: the text's lines, each non-empty one behind the prefix. */
  function PrefixedText(prefix: string, text: string): string
  {
    Join("\n", PrefixedLines(prefix, Split(text, '\n')))
  }

  /**
   * Prefixing keeps the lines: as many as the text has, an empty one
   * staying empty and any other getting the prefix; dropping the prefix
   * again gives the text back.
   */
  lemma PrefixedTextLines(prefix: string, text: string)
    requires '\n' !in prefix
    ensures var lines := Split(text, '\n');
            var out := Split(PrefixedText(prefix, text), '\n');
            |out| == |lines|
            && (forall i :: 0 <= i < |lines| ==> (out[i] == "" <==> lines[i] == ""))
            && (forall i :: 0 <= i < |lines| && lines[i] != "" ==> out[i] == prefix + lines[i])
            && Join("\n", seq(|out|, i requires 0 <= i < |out| => if out[i] == "" then "" else out[i][|prefix|..])) == text
  {
    var lines := Split(text, '\n');
    var prefixed := PrefixedLines(prefix, lines);
    forall i | 0 <= i < |prefixed| ensures '\n' !in prefixed[i] {
      assert '\n' !in lines[i];
    }
    SplitJoin(prefixed, '\n');
    var out := Split(PrefixedText(prefix, text), '\n');
    var back := seq(|out|, i requires 0 <= i < |out| => if out[i] == "" then "" else out[i][|prefix|..]);
    assert back == lines by {
      forall i | 0 <= i < |lines| ensures back[i] == lines[i] {
        if lines[i] != "" {
          assert out[i] == prefix + lines[i];
        }
      }
    }
    JoinSplit(text, '\n');
  }

  /** The prefix of a line written at `level`: the time stamp, a dash, and the token repeated. */
  function LinePrefix(stamp: string, token: string, level: int): string
  {
    stamp + " - " + Repeat(token, level)
  }

  /**
   * `NestedPrintLog`: a print log whose file lines are indented by the
   * token repeated to the current level. `stream` and `file` hold the texts
   * handed to the base class's `write` for each channel, in order.
   */
  class NestedPrintLog {
    const token: string
    const toStream: bool
    const toFile: bool
    var level: int
    var stream: seq<string>
    var file: seq<string>

    /** `__init__`: level zero, nothing written. */
    constructor (writeToStream: bool, writeToFile: bool, indentationToken: string)
      ensures token == indentationToken && toStream == writeToStream && toFile == writeToFile
      ensures level == 0 && stream == [] && file == []
    {
      token, toStream, toFile := indentationToken, writeToStream, writeToFile;
      level, stream, file := 0, [], [];
    }

    /**
     * `write`: the text goes to the stream as it is and to the file with
     * every non-empty line behind the time stamp and the indentation; each
     * channel is used when its argument says so, or by default when none is
     * given. `stamp` is the clock's reading in the log format.
     */
    method Write(text: string, stamp: string, streamArg: Option<bool>, fileArg: Option<bool>)
      modifies this
      ensures stream == old(stream) + if Chosen(streamArg, toStream) then [text] else []
      ensures file == old(file) + if Chosen(fileArg, toFile) then [PrefixedText(LinePrefix(stamp, token, level), text)] else []
      ensures level == old(level)
    {
      if Chosen(streamArg, toStream) {
        stream := stream + [text];
      }
      if Chosen(fileArg, toFile) {
        var prefix := stamp + " - " + Repeat(token, level);
        file := file + [PrefixedText(prefix, text)];
      }
    }

    /** `indentation`, entering: one level deeper. */
    method EnterIndentation()
      modifies this
      ensures level == old(level) + 1
      ensures stream == old(stream) && file == old(file)
    {
      level := level + 1;
    }

    /** `indentation`, leaving: one level back only on normal exit, as there is no `finally`. */
    method ExitIndentation(raised: bool)
      modifies this
      ensures level == if raised then old(level) else old(level) - 1
      ensures stream == old(stream) && file == old(file)
    {
      if !raised {
        level := level - 1;
      }
    }
  }

  // ------------------------------------------------------------ logging calls

  /** The positional arguments shown: the receiver of a bound call is left out. */
  function ShownPositional(kind: FunctionType, args: seq<string>): (r: seq<string>)
    ensures IsBound(kind) && args != [] ==> r == args[1..]
    ensures !IsBound(kind) || args == [] ==> r == args
  {
    if IsBound(kind) && args != [] then args[1..] else args
  }

  /** `name=value` for each keyword argument, in order. */
  function KeywordParts(kwargs: seq<(string, string)>): (r: seq<string>)
    ensures |r| == |kwargs| && forall i :: 0 <= i < |kwargs| ==> r[i] == kwargs[i].0 + "=" + kwargs[i].1
  {
    seq(|kwargs|, i requires 0 <= i < |kwargs| => kwargs[i].0 + "=" + kwargs[i].1)
  }

  /**
   * The argument list `script_wrapper` logs, from the `repr` of each
   * argument: the positional part and the keyword part, each joined by
   * commas, with a comma between them only when both are non-empty.
   */
  function Arguments(kind: FunctionType, args: seq<string>, kwargs: seq<(string, string)>): (r: string)
  {
    var positional := Join(", ", ShownPositional(kind, args));
    var keyword := Join(", ", KeywordParts(kwargs));
    positional + (if positional != "" && keyword != "" then ", " else "") + keyword
  }

  /** A joined list is empty exactly when it has no parts or a single empty one. */
  lemma JoinEmpty(sep: string, parts: seq<string>)
    requires sep != ""
    ensures Join(sep, parts) == "" <==> parts == [] || parts == [""]
  {
    if |parts| > 1 {
      assert |Join(sep, parts)| >= |sep|;
    }
  }

  /**
   * The separator rule: with no keyword arguments the list is the shown
   * positional ones, with no shown positional ones it is the keywords, and
   * otherwise it is both with a comma between.
   */
  lemma ArgumentsShape(kind: FunctionType, args: seq<string>, kwargs: seq<(string, string)>)
    ensures kwargs == [] ==> Arguments(kind, args, kwargs) == Join(", ", ShownPositional(kind, args))
    ensures ShownPositional(kind, args) == [] ==> Arguments(kind, args, kwargs) == Join(", ", KeywordParts(kwargs))
    ensures ShownPositional(kind, args) != [] && kwargs != [] && Join(", ", ShownPositional(kind, args)) != "" ==>
              Arguments(kind, args, kwargs) == Join(", ", ShownPositional(kind, args)) + ", " + Join(", ", KeywordParts(kwargs))
  {
    var kw := KeywordParts(kwargs);
    if kwargs != [] {
      assert kw[0] == kwargs[0].0 + "=" + kwargs[0].1;
      JoinEmpty(", ", kw);
    }
  }

  /** The receiver of a bound call does not show: any receiver gives the same list, as a static call without it would. */
  lemma ReceiverHidden(kind: FunctionType, receiver: string, args: seq<string>, kwargs: seq<(string, string)>)
    requires IsBound(kind)
    ensures Arguments(kind, [receiver] + args, kwargs) == Arguments(Static, args, kwargs)
  {
    assert ([receiver] + args)[1..] == args;
  }

  /** The line logged when a wrapped call starts. */
  function StartLine(name: string, arguments: string): string
  {
    name + "(" + arguments + ") starting...\n"
  }

  /** The line logged when a wrapped call returns. */
  function FinishLine(name: string, period: string, returned: string): string
  {
    name + " finished in " + period + " seconds, returning: " + returned + ".\n"
  }

  /** How the wrapped function's own call ended: its return value's `repr`, or the exception it raised. */
  datatype Outcome = Returned(repr: string) | Raised(exc: Exc)

  /**
   * `script_wrapper`: an instance method called without arguments fails
   * reading its receiver before anything is logged. Otherwise the start line
   * is logged (to the stream only when `verbose`), the function runs one
   * level deeper (`outcome` is how it ended, `period` the timer's reading),
   * and on return the level comes back and the finish line is logged; an
   * exception propagates with nothing more logged and the level left raised.
   */
  method LoggedCall(log: NestedPrintLog, spec: FunctionSpec, args: seq<string>, kwargs: seq<(string, string)>,
                    verbose: bool, startStamp: string, endStamp: string, period: string, outcome: Outcome)
    returns (r: Outcome)
    modifies log
    ensures spec.kind == Instance && args == [] ==>
              r == Raised(IndexError) && log.level == old(log.level) && log.file == old(log.file) && log.stream == old(log.stream)
    ensures !(spec.kind == Instance && args == []) ==> r == outcome && log.level == LevelAfter(old(log.level), [outcome])
    ensures !(spec.kind == Instance && args == []) ==>
              var start := StartLine(spec.name, Arguments(spec.kind, args, kwargs));
              var startFile := [PrefixedText(LinePrefix(startStamp, log.token, old(log.level)), start)];
              var startStream := if verbose then [start] else [];
              match outcome
              case Returned(repr) =>
                var finish := FinishLine(spec.name, period, repr);
                log.level == old(log.level)
                && log.file == old(log.file) + startFile + [PrefixedText(LinePrefix(endStamp, log.token, old(log.level)), finish)]
                && log.stream == old(log.stream) + startStream + (if verbose then [finish] else [])
              case Raised(_) =>
                log.level == old(log.level) + 1
                && log.file == old(log.file) + startFile
                && log.stream == old(log.stream) + startStream
  {
    if spec.kind == Instance && args == [] {
      return Raised(IndexError);
    }
    var arguments := Arguments(spec.kind, args, kwargs);
    log.Write(StartLine(spec.name, arguments), startStamp, Some(verbose), Some(true));
    log.EnterIndentation();
    log.ExitIndentation(outcome.Raised?);
    if outcome.Raised? {
      return outcome;
    }
    log.Write(FinishLine(spec.name, period, outcome.repr), endStamp, Some(verbose), Some(true));
    r := outcome;
  }

  /**
   * Every wrapped call that raises leaves the log one level deeper; a run of
   * `n` calls that each raised (an exception passing up through `n` wrapped
   * frames) leaves it `n` levels deeper.
   */
  lemma {:induction false} LeakedLevels(level: int, outcomes: seq<Outcome>)
    requires forall i :: 0 <= i < |outcomes| ==> outcomes[i].Raised?
    ensures LevelAfter(level, outcomes) == level + |outcomes|
    decreases |outcomes|
  {
    if outcomes != [] {
      LeakedLevels(level + 1, outcomes[1..]);
    }
  }

  /** The level after a run of wrapped calls, in order, each ending as given. */
  function LevelAfter(level: int, outcomes: seq<Outcome>): int
    decreases |outcomes|
  {
    if outcomes == [] then level
    else LevelAfter(if outcomes[0].Raised? then level + 1 else level, outcomes[1..])
  }

  /**
   * Successive wrapped calls compose: the level after one run and then
   * another is the level after the two runs together, so a `LoggedCall`
   * after each of the calls of a run leaves the level `LevelAfter` gives.
   */
  lemma {:induction false} LevelAfterConcat(level: int, first: seq<Outcome>, second: seq<Outcome>)
    ensures LevelAfter(level, first + second) == LevelAfter(LevelAfter(level, first), second)
    decreases |first|
  {
    if first != [] {
      assert (first + second)[1..] == first[1..] + second;
      LevelAfterConcat(if first[0].Raised? then level + 1 else level, first[1..], second);
    } else {
      assert first + second == second;
    }
  }

  /** Calls that all return leave the level where it was. */
  lemma {:induction false} BalancedLevels(level: int, outcomes: seq<Outcome>)
    requires forall i :: 0 <= i < |outcomes| ==> outcomes[i].Returned?
    ensures LevelAfter(level, outcomes) == level
    decreases |outcomes|
  {
    if outcomes != [] {
      BalancedLevels(level, outcomes[1..]);
    }
  }

  // ------------------------------------------------------- the init wrapper

  /** `__repr__` of a script: its type name and its public attributes' reprs. */
  function ScriptRepr(typeName: string, attrs: seq<(string, string)>): string
  {
    typeName + "(" + Join(", ", PublicParts(attrs)) + ")"
  }

  /** `name=value` for each attribute whose name does not start with an underscore. */
  function PublicParts(attrs: seq<(string, string)>): (r: seq<string>)
    ensures |r| <= |attrs|
    ensures forall p :: p in r ==> exists i :: 0 <= i < |attrs| && (attrs[i].0 == [] || attrs[i].0[0] != '_') && p == attrs[i].0 + "=" + attrs[i].1
  {
    if attrs == [] then []
    else
      var rest := PublicParts(attrs[1..]);
      var name := attrs[0].0;
      if name != [] && name[0] == '_' then rest else [name + "=" + attrs[0].1] + rest
  }

  /** Private attributes do not show in a script's repr. */
  lemma {:induction false} PrivateHidden(typeName: string, attrs: seq<(string, string)>, name: string, value: string)
    requires name != [] && name[0] == '_'
    ensures ScriptRepr(typeName, attrs + [(name, value)]) == ScriptRepr(typeName, attrs)
  {
    PrivateHiddenParts(attrs, name, value);
  }

  /** `PublicParts` skips a private attribute at the end. */
  lemma {:induction false} PrivateHiddenParts(attrs: seq<(string, string)>, name: string, value: string)
    requires name != [] && name[0] == '_'
    ensures PublicParts(attrs + [(name, value)]) == PublicParts(attrs)
  {
    if attrs == [] {
      assert PublicParts([(name, value)]) == PublicParts([]);
    } else {
      assert (attrs + [(name, value)])[1..] == attrs[1..] + [(name, value)];
      PrivateHiddenParts(attrs[1..], name, value);
    }
  }

  /** The text written to the file when the constructor is left. */
  function FinalState(scriptRepr: string): string
  {
    "\nAt point of exit, the final state of the script object was:\n" + scriptRepr + "\n"
  }

  /** Whether the script object is serialised, given whether an exception was caught. */
  predicate Serialises(loggingLevel: LoggingLevel, caught: bool)
  {
    loggingLevel == AlwaysSerialize || (loggingLevel == SerializeOnFailure && caught)
  }

  /**
   * `init_wrapper`, after the wrapped constructor has run (`outcome`): an
   * exception it caught is logged to the file only, by the nested log
   * (`traceback` is its formatted traceback); then, in any case, the final
   * state is written to the file by the base class, unindented. Unless a
   * KeyboardInterrupt or SystemExit is on its way out, the object is
   * serialised when the logging level asks for it and a caught exception is
   * raised again.
   */
  method FinishInit(log: NestedPrintLog, loggingLevel: LoggingLevel, outcome: Outcome, traceback: string,
                    scriptRepr: string, stamp: string)
    returns (serialised: bool, raised: Option<Exc>)
    modifies log
    ensures var caught := outcome.Raised? && IsException(outcome.exc);
            serialised == ((!outcome.Raised? || caught) && Serialises(loggingLevel, caught))
    ensures raised == if outcome.Raised? then Some(outcome.exc) else None
    ensures var caught := outcome.Raised? && IsException(outcome.exc);
            log.file == old(log.file)
                        + (if caught then [PrefixedText(LinePrefix(stamp, log.token, log.level), traceback)] else [])
                        + [FinalState(scriptRepr)]
    ensures log.stream == old(log.stream) && log.level == old(log.level)
  {
    var caught := outcome.Raised? && IsException(outcome.exc);
    if caught {
      log.Write(traceback, stamp, Some(false), Some(true));
    }
    log.file := log.file + [FinalState(scriptRepr)];
    if outcome.Raised? && !caught {
      return false, Some(outcome.exc);
    }
    serialised := Serialises(loggingLevel, caught);
    raised := if caught then Some(outcome.exc) else None;
  }

  /** Serialisation happens on failure only when asked for, and always under ALWAYS_SERIALIZE; never for TEXT_ONLY. */
  lemma SerialisesCases(caught: bool)
    ensures !Serialises(TextOnly, caught)
    ensures Serialises(AlwaysSerialize, caught)
    ensures Serialises(SerializeOnFailure, caught) <==> caught
  {
  }

  // ---------------------------------------------------------- the log file

  /** `f"{n:02d}"`: at least two digits, zero-padded. */
  function TwoDigits(n: nat): (r: string)
    ensures n < 100 ==> |r| == 2
  {
    if n < 10 then "0" + NatStr(n)
    else
      assert n < 100 ==> |NatStr(n / 10)| == 1;
      NatStr(n)
  }

  /** The value of a decimal digit character. */
  function DigitValue(c: char): int
  {
    c as int - '0' as int
  }

  /** Two digits read back give the number. */
  lemma TwoDigitsValue(n: nat)
    requires n < 100
    ensures DigitValue(TwoDigits(n)[0]) * 10 + DigitValue(TwoDigits(n)[1]) == n
  {
    if n >= 10 {
      assert NatStr(n) == NatStr(n / 10) + [DigitChar(n % 10)];
      assert NatStr(n / 10) == [DigitChar(n / 10)];
    }
  }

  /** The name of a run's log file, from the hour, minute and second it started. */
  function LogFileName(hour: nat, minute: nat, second: nat): string
  {
    "[" + TwoDigits(hour) + "h " + TwoDigits(minute) + "m " + TwoDigits(second) + "s].txt"
  }

  /** For a time of day, the name has a fixed layout from which the time can be read back. */
  lemma LogFileNameTime(hour: nat, minute: nat, second: nat)
    requires hour < 100 && minute < 100 && second < 100
    ensures var f := LogFileName(hour, minute, second);
            |f| == 17 && f[0] == '[' && f[3..5] == "h " && f[7..9] == "m " && f[11..] == "s].txt"
            && DigitValue(f[1]) * 10 + DigitValue(f[2]) == hour
            && DigitValue(f[5]) * 10 + DigitValue(f[6]) == minute
            && DigitValue(f[9]) * 10 + DigitValue(f[10]) == second
  {
    TwoDigitsValue(hour);
    TwoDigitsValue(minute);
    TwoDigitsValue(second);
    var f := LogFileName(hour, minute, second);
    assert f == "[" + TwoDigits(hour) + "h " + TwoDigits(minute) + "m " + TwoDigits(second) + "s].txt";
  }
}
