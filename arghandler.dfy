/**
 * The ArgHandler (iotools/handler/arghandler.py): a list of arguments and a
 * list of subhandlers sharing one namespace of identifier names, and a
 * pool of short-alias letters that shrinks as arguments take them.
 */
module ArgHandlers {
  import opened Python
  import opened Aliases
  import HandlerArgument

  class ArgHandler {
    const name: string
    var parent: ArgHandler?
    var arguments: seq<HandlerArgument.Argument>
    var subhandlers: seq<ArgHandler>
    var remainingLetters: set<char>

    /** The names of the arguments, then of the subhandlers. */
    function Names(): (r: seq<string>)
      reads this
      ensures |r| == |arguments| + |subhandlers|
    {
      NamesOf(arguments, ArgName) + NamesOf(subhandlers, HandlerName)
    }

    /** Every name attached is an identifier and attached once, and `h` is never in the pool. */
    predicate Valid()
      reads this
    {
      Distinct(Names()) && (forall n :: n in Names() ==> IsIdentifier(n))
        && remainingLetters <= ShortPool
    }

    /** `__init__`: no arguments, no subhandlers, and the whole pool but `h`. */
    constructor (handlerName: string, parentHandler: ArgHandler?)
      ensures Valid()
      ensures name == handlerName && parent == parentHandler
      ensures arguments == [] && subhandlers == [] && remainingLetters == ShortPool
    {
      name, parent := handlerName, parentHandler;
      arguments, subhandlers := [], [];
      remainingLetters := ShortPool;
    }

    /**
     * `validate_name`: a ValueError for a name that is not an identifier,
     * or one already attached as an argument or a subhandler.
     */
    function Refusal(n: string): (r: Option<Exc>)
      reads this
      ensures r.None? <==> IsIdentifier(n) && n !in Names()
      ensures r.Some? ==> r.value.ValueError?
    {
      if !IsIdentifier(n) then Some(ValueError(Message("is not a valid Python identifier")))
      else if n in Names() then Some(ValueError(Message("is already attached to this ArgHandler")))
      else None
    }

    /**
     * `determine_shortform_alias`: the first alphanumeric character of the
     * name, lower-cased, that is still in the pool, taken out of the pool.
     */
    method DetermineShortformAlias(n: string) returns (letter: Option<char>)
      requires Valid()
      modifies this
      ensures Valid()
      ensures letter == ShortAlias(n, old(remainingLetters))
      ensures remainingLetters == Without(old(remainingLetters), letter)
      ensures letter.Some? ==> letter.value !in remainingLetters && letter.value != 'h'
      ensures arguments == old(arguments) && subhandlers == old(subhandlers) && parent == old(parent)
    {
      ShortPoolLetters();
      letter, remainingLetters := TakeShortAlias(n, remainingLetters);
    }

    /**
     * `add_argument`: the name is checked; when a short alias is found, the
     * argument's aliases become the letter and its aliases sorted by
     * length; the argument goes at the end of the list.
     */
    method AddArgument(arg: HandlerArgument.Argument) returns (raised: Option<Exc>)
      requires Valid()
      modifies this, arg
      ensures Valid()
      ensures raised == old(Refusal(arg.name))
      ensures raised.Some? ==> arguments == old(arguments) && remainingLetters == old(remainingLetters)
                               && arg.aliasesGiven == old(arg.aliasesGiven)
      ensures raised.None? ==> arguments == old(arguments) + [arg]
      ensures raised.None? ==>
                var letter := ShortAlias(arg.name, old(remainingLetters));
                remainingLetters == Without(old(remainingLetters), letter)
                && arg.aliasesGiven == if letter.Some? then Some(SortByLen([[letter.value]] + old(arg.Aliases())))
                                       else old(arg.aliasesGiven)
      ensures subhandlers == old(subhandlers) && parent == old(parent)
      ensures arg.value == old(arg.value) && arg.default == old(arg.default) && arg.validator == old(arg.validator)
    {
      raised := Refusal(arg.name);
      if raised.Some? {
        return;
      }
      ghost var names := Names();
      var letter := DetermineShortformAlias(arg.name);
      if letter.Some? {
        arg.SetAliases(Some(SortByLen([[letter.value]] + arg.Aliases())));
      }
      arguments := arguments + [arg];
      assert NamesOf(arguments, ArgName) == NamesOf(old(arguments), ArgName) + [arg.name];
      assert names[..|old(arguments)|] == NamesOf(old(arguments), ArgName) && names[|old(arguments)|..] == NamesOf(subhandlers, HandlerName);
      NameAdded(names, |old(arguments)|, arg.name);
    }

    /** `add_subhandler`: the name is checked, the subhandler appended and made a child of this handler. */
    method AddSubhandler(sub: ArgHandler) returns (r: ArgHandler, raised: Option<Exc>)
      requires Valid()
      modifies this, sub
      ensures raised == old(Refusal(sub.name))
      ensures raised.Some? ==> subhandlers == old(subhandlers) && sub.parent == old(sub.parent)
      ensures raised.None? ==> subhandlers == old(subhandlers) + [sub] && sub.parent == this && r == sub
      ensures Valid()
      ensures arguments == old(arguments) && remainingLetters == old(remainingLetters)
    {
      r := sub;
      raised := Refusal(sub.name);
      if raised.Some? {
        return;
      }
      ghost var names := Names();
      subhandlers := subhandlers + [sub];
      sub.parent := this;
      assert NamesOf(subhandlers, HandlerName) == NamesOf(old(subhandlers), HandlerName) + [sub.name];
      assert Names() == names[..|names|] + [sub.name] + names[|names|..];
      NameAdded(names, |names|, sub.name);
    }
  }

  /** The names of the given arguments or subhandlers, in order, read with `nameOf`. */
  function NamesOf<T>(xs: seq<T>, nameOf: T -> string): (r: seq<string>)
    ensures |r| == |xs| && forall i :: 0 <= i < |xs| ==> r[i] == nameOf(xs[i])
  {
    seq(|xs|, i requires 0 <= i < |xs| => nameOf(xs[i]))
  }

  function ArgName(a: HandlerArgument.Argument): string
  {
    a.name
  }

  function HandlerName(h: ArgHandler): string
  {
    h.name
  }

  /** A name not among identifier names, put anywhere among them, keeps them distinct identifiers. */
  lemma NameAdded(names: seq<string>, at: nat, n: string)
    requires at <= |names| && Distinct(names) && (forall m :: m in names ==> IsIdentifier(m))
    requires IsIdentifier(n) && n !in names
    ensures var s := names[..at] + [n] + names[at..];
            Distinct(s) && forall m :: m in s ==> IsIdentifier(m)
  {
    var s := names[..at] + [n] + names[at..];
    forall i, j | 0 <= i < j < |s| ensures s[i] != s[j] {
      if i < at && j < at {
        assert s[i] == names[i] && s[j] == names[j];
      } else if i < at && j > at {
        assert s[i] == names[i] && s[j] == names[j - 1];
      } else if i > at {
        assert s[i] == names[i - 1] && s[j] == names[j - 1];
      } else if i == at {
        assert s[j] == names[j - 1];
      } else {
        assert s[i] == names[i];
      }
    }
    assert forall m :: m in s ==> m in names || m == n;
  }
}
