/**
 * Command and group handlers (iotools/command/handler.py). Every handler
 * object of a program lives in one HandlerTree and is referred to by its
 * position there, so that parent pointers, the groups a handler holds and
 * its subhandlers are positions too; arguments are shared
 * `CommandArgument.Argument` objects, held by the group that declares them
 * and by the command handler above it.
 */
module CommandHandlers {
  import opened Python
  import opened Aliases
  import opened CommandArgument

  /** The `group` a GroupHandler belongs to: an inclusive group, an exclusive one, or neither. */
  datatype Mode = Inclusive | Exclusive | Plain

  /** CommandHandler or GroupHandler. */
  datatype Kind = Command | Group(mode: Mode)

  /**
   * One handler object: its name, class, parent, the lists `arguments`,
   * `groups` and `subhandlers` (only a command handler adds subhandlers),
   * the `names` registered so far and, for a command handler,
   * `remaining_letters`.
   */
  datatype Node = Node(name: string, kind: Kind, parent: Option<nat>,
                       arguments: seq<Argument>, groups: seq<nat>, subhandlers: seq<nat>,
                       names: set<string>, remaining: set<char>)

  /** Positions below `n`. */
  predicate InRange(hs: seq<nat>, n: nat)
  {
    forall k :: 0 <= k < |hs| ==> hs[k] < n
  }

  /** Every position a handler refers to names a handler. */
  predicate Linked(ns: seq<Node>)
  {
    forall i :: 0 <= i < |ns| ==>
      (ns[i].parent.Some? ==> ns[i].parent.value < |ns|) &&
      InRange(ns[i].groups, |ns|) && InRange(ns[i].subhandlers, |ns|)
  }

  /** The argument objects the handlers hold. */
  function ArgObjects(ns: seq<Node>): set<Argument>
  {
    set i, a | 0 <= i < |ns| && a in ns[i].arguments :: a
  }

  // --------------------------------------------------------- truthiness

  function Count(bs: seq<bool>): (n: nat)
    ensures n <= |bs|
  {
    if bs == [] then 0 else (if bs[0] then 1 else 0) + Count(bs[1..])
  }

  predicate AllTrue(bs: seq<bool>)
  {
    forall i :: 0 <= i < |bs| ==> bs[i]
  }

  predicate AnyTrue(bs: seq<bool>)
  {
    exists i :: 0 <= i < |bs| && bs[i]
  }

  /** At most one truthy member, counted, is the same as no two truthy members. */
  lemma {:induction false} AtMostOne(bs: seq<bool>)
    ensures Count(bs) <= 1 <==> forall i, j :: 0 <= i < j < |bs| ==> !(bs[i] && bs[j])
  {
    if bs != [] {
      var tail := bs[1..];
      AtMostOne(tail);
      NoneTrue(tail);
      if bs[0] && Count(tail) >= 1 {
        var k :| 0 <= k < |tail| && tail[k];
        assert bs[0] && bs[k + 1];
      }
      if Count(bs) > 1 && !bs[0] {
        var i, j :| 0 <= i < j < |tail| && tail[i] && tail[j];
        assert bs[i + 1] && bs[j + 1];
      }
      if Count(bs) <= 1 {
        forall i, j | 0 <= i < j < |bs| ensures !(bs[i] && bs[j]) {
          if i > 0 {
            assert bs[i] == tail[i - 1] && bs[j] == tail[j - 1];
          } else if bs[0] {
            assert !tail[j - 1];
          }
        }
      }
    }
  }

  /** No truthy member is the same as a count of zero. */
  lemma {:induction false} NoneTrue(bs: seq<bool>)
    ensures Count(bs) == 0 <==> !AnyTrue(bs)
  {
    if bs != [] {
      NoneTrue(bs[1..]);
      if AnyTrue(bs[1..]) {
        var k :| 0 <= k < |bs[1..]| && bs[1..][k];
        assert bs[k + 1];
      }
      if AnyTrue(bs) && !bs[0] {
        var k :| 0 <= k < |bs| && bs[k];
        assert bs[1..][k - 1];
      }
    }
  }

  /** `bool(argument)` for each argument, in order. */
  function ArgFlags(args: seq<Argument>): (r: seq<bool>)
    reads set a | a in args
    ensures |r| == |args| && forall i :: 0 <= i < |args| ==> r[i] == args[i].Truthy()
  {
    if args == [] then [] else [args[0].Truthy()] + ArgFlags(args[1..])
  }

  /**
   * `bool(handler)`, with the depth of groups followed bounded by `fuel`:
   * an exclusive group is truthy when at most one of its arguments and
   * groups is, every other handler when all of them are.
   */
  function Truthy(ns: seq<Node>, h: nat, fuel: nat): bool
    requires Linked(ns) && h < |ns|
    reads ArgObjects(ns)
    decreases fuel, 0
  {
    if fuel == 0 then true
    else
      var members := Members(ns, h, fuel - 1);
      if ns[h].kind == Group(Exclusive) then Count(members) <= 1 else AllTrue(members)
  }

  /** `[*self.arguments, *self.groups]`, each as its truthiness. */
  function Members(ns: seq<Node>, h: nat, fuel: nat): (r: seq<bool>)
    requires Linked(ns) && h < |ns|
    reads ArgObjects(ns)
    ensures |r| == |ns[h].arguments| + |ns[h].groups|
    ensures forall i :: 0 <= i < |ns[h].arguments| ==> r[i] == ns[h].arguments[i].Truthy()
    ensures forall i :: 0 <= i < |ns[h].groups| ==> r[|ns[h].arguments| + i] == Truthy(ns, ns[h].groups[i], fuel)
    decreases fuel, 2
  {
    ArgFlags(ns[h].arguments) + GroupFlags(ns, ns[h].groups, fuel)
  }

  function GroupFlags(ns: seq<Node>, gs: seq<nat>, fuel: nat): (r: seq<bool>)
    requires Linked(ns) && InRange(gs, |ns|)
    reads ArgObjects(ns)
    ensures |r| == |gs| && forall i :: 0 <= i < |gs| ==> r[i] == Truthy(ns, gs[i], fuel)
    decreases fuel, 1, |gs|
  {
    if gs == [] then [] else [Truthy(ns, gs[0], fuel)] + GroupFlags(ns, gs[1..], fuel)
  }

  // ---------------------------------------------------------- validation

  const AlwaysValid := "group is valid in all circumstances"
  const AlwaysProvided := "group holds a member that is always provided"
  const MoreThanOne := "at most one member of an exclusive group can be provided"

  /**
   * `pre_validate`: a command handler checks its groups, then its
   * subhandlers, the first error propagating; an inclusive group fails
   * when all its members are truthy already, an exclusive one when any is.
   */
  function PreValidate(ns: seq<Node>, h: nat, fuel: nat): (r: Option<Exc>)
    requires Linked(ns) && h < |ns|
    reads ArgObjects(ns)
    ensures fuel > 0 && ns[h].kind == Group(Inclusive) ==>
              (r.Some? <==> AllTrue(Members(ns, h, fuel - 1)))
    ensures fuel > 0 && ns[h].kind == Group(Exclusive) ==>
              (r.Some? <==> AnyTrue(Members(ns, h, fuel - 1)))
    ensures ns[h].kind == Group(Plain) ==> r.None?
    ensures r.Some? ==> r.value.RuntimeError?
    decreases fuel, 0
  {
    if fuel == 0 then None
    else match ns[h].kind
      case Group(Inclusive) => if AllTrue(Members(ns, h, fuel - 1)) then Some(RuntimeError(AlwaysValid)) else None
      case Group(Exclusive) => if AnyTrue(Members(ns, h, fuel - 1)) then Some(RuntimeError(AlwaysProvided)) else None
      case Group(Plain) => None
      case Command => PreValidateAll(ns, ns[h].groups + ns[h].subhandlers, fuel - 1)
  }

  /** `pre_validate` on each handler in turn; the first error stops the loop. */
  function PreValidateAll(ns: seq<Node>, hs: seq<nat>, fuel: nat): (r: Option<Exc>)
    requires Linked(ns) && InRange(hs, |ns|)
    reads ArgObjects(ns)
    ensures r.None? <==> forall i :: 0 <= i < |hs| ==> PreValidate(ns, hs[i], fuel).None?
    ensures r.Some? ==> r.value.RuntimeError?
    decreases fuel, 1, |hs|
  {
    if hs == [] then None
    else match PreValidate(ns, hs[0], fuel)
      case Some(e) => Some(e)
      case None =>
        var r := PreValidateAll(ns, hs[1..], fuel);
        assert forall i :: 0 < i < |hs| ==> hs[i] == hs[1..][i - 1];
        r
  }

  /** An exclusive group that passes `pre_validate` starts out truthy: none of its members is. */
  lemma PreValidatedExclusiveTruthy(ns: seq<Node>, g: nat, fuel: nat)
    requires Linked(ns) && g < |ns| && fuel > 0
    requires ns[g].kind == Group(Exclusive) && PreValidate(ns, g, fuel).None?
    ensures Truthy(ns, g, fuel)
  {
    NoneTrue(Members(ns, g, fuel - 1));
  }

  /** An inclusive group that passes `pre_validate` starts out falsy: something in it must be provided. */
  lemma PreValidatedInclusiveFalsy(ns: seq<Node>, g: nat, fuel: nat)
    requires Linked(ns) && g < |ns| && fuel > 0
    requires ns[g].kind == Group(Inclusive) && PreValidate(ns, g, fuel).None?
    ensures !Truthy(ns, g, fuel)
  {
  }

  /** The position of the first falsy argument, if any. */
  function FirstFalsy(args: seq<Argument>): (r: Option<nat>)
    reads set a | a in args
    ensures r.Some? ==> r.value < |args| && !args[r.value].Truthy() &&
                        forall j :: 0 <= j < r.value ==> args[j].Truthy()
    ensures r.None? ==> forall j :: 0 <= j < |args| ==> args[j].Truthy()
  {
    FirstMatch(ArgFlags(args), b => !b)
  }

  /**
   * `post_validate`: a command handler checks its groups in turn; a falsy
   * exclusive group raises; a falsy inclusive group raises for its first
   * falsy argument, and otherwise passes the check on to its falsy groups.
   */
  function PostValidate(ns: seq<Node>, h: nat, fuel: nat): (r: Option<Exc>)
    requires Linked(ns) && h < |ns|
    reads ArgObjects(ns)
    ensures ns[h].kind.Group? && Truthy(ns, h, fuel) ==> r.None?
    ensures fuel > 0 && ns[h].kind == Group(Exclusive) && !Truthy(ns, h, fuel) ==> r == Some(RuntimeError(MoreThanOne))
    ensures fuel > 0 && ns[h].kind == Group(Inclusive) && !Truthy(ns, h, fuel) && FirstFalsy(ns[h].arguments).Some? ==>
              r == Some(RuntimeError(ns[h].arguments[FirstFalsy(ns[h].arguments).value].name))
    ensures ns[h].kind == Group(Plain) ==> r.None?
    decreases fuel, 0
  {
    if fuel == 0 then None
    else match ns[h].kind
      case Command => PostValidateAll(ns, ns[h].groups, false, fuel - 1)
      case Group(mode) =>
        if Truthy(ns, h, fuel) then None
        else match mode
          case Exclusive => Some(RuntimeError(MoreThanOne))
          case Plain => None
          case Inclusive =>
            match FirstFalsy(ns[h].arguments)
            case Some(i) => Some(RuntimeError(ns[h].arguments[i].name))
            case None => PostValidateAll(ns, ns[h].groups, true, fuel - 1)
  }

  /** `post_validate` on each handler in turn (only on the falsy ones with `onlyFalsy`); the first error stops the loop. */
  function PostValidateAll(ns: seq<Node>, hs: seq<nat>, onlyFalsy: bool, fuel: nat): (r: Option<Exc>)
    requires Linked(ns) && InRange(hs, |ns|)
    reads ArgObjects(ns)
    ensures r.None? <==> forall i :: 0 <= i < |hs| && (!onlyFalsy || !Truthy(ns, hs[i], fuel)) ==>
                                     PostValidate(ns, hs[i], fuel).None?
    decreases fuel, 1, |hs|
  {
    if hs == [] then None
    else
      var r0 := if !onlyFalsy || !Truthy(ns, hs[0], fuel) then PostValidate(ns, hs[0], fuel) else None;
      match r0
      case Some(e) => Some(e)
      case None =>
        var r := PostValidateAll(ns, hs[1..], onlyFalsy, fuel);
        assert forall i :: 0 < i < |hs| ==> hs[i] == hs[1..][i - 1];
        r
  }

  /** The handler and the groups under it, all the way down, are inclusive or exclusive groups. */
  predicate Moded(ns: seq<Node>, h: nat, fuel: nat)
    requires Linked(ns) && h < |ns|
    decreases fuel
  {
    fuel == 0 ||
    (ns[h].kind.Group? && ns[h].kind.mode != Plain && forall k :: 0 <= k < |ns[h].groups| ==> Moded(ns, ns[h].groups[k], fuel - 1))
  }

  /** Flags that are not all true, of which the first part are, have a false one in the second part. */
  lemma FalseInSecond(a: seq<bool>, b: seq<bool>) returns (i: nat)
    requires AllTrue(a) && !AllTrue(a + b)
    ensures i < |b| && !b[i]
  {
    var k :| 0 <= k < |a + b| && !(a + b)[k];
    i := k - |a|;
  }

  /** A falsy inclusive group whose arguments are all truthy holds a falsy group. */
  lemma FalsySubgroup(ns: seq<Node>, g: nat, fuel: nat) returns (i: nat)
    requires Linked(ns) && g < |ns| && fuel > 0 && ns[g].kind == Group(Inclusive)
    requires !Truthy(ns, g, fuel) && FirstFalsy(ns[g].arguments).None?
    ensures i < |ns[g].groups| && !Truthy(ns, ns[g].groups[i], fuel - 1)
  {
    var args := ArgFlags(ns[g].arguments);
    var flags := GroupFlags(ns, ns[g].groups, fuel - 1);
    assert Members(ns, g, fuel - 1) == args + flags;
    assert AllTrue(args);
    i := FalseInSecond(args, flags);
    assert flags[i] == Truthy(ns, ns[g].groups[i], fuel - 1);
  }

  /** What `post_validate` on such a group comes to: the check of its falsy groups. */
  lemma PostValidateFalsyInclusive(ns: seq<Node>, g: nat, fuel: nat)
    requires Linked(ns) && g < |ns| && fuel > 0 && ns[g].kind == Group(Inclusive)
    requires !Truthy(ns, g, fuel) && FirstFalsy(ns[g].arguments).None?
    ensures PostValidate(ns, g, fuel) == PostValidateAll(ns, ns[g].groups, true, fuel - 1)
  {
  }

  /**
   * A group that passes `post_validate` is truthy, as long as it and the
   * groups under it are all inclusive or exclusive.
   */
  lemma {:induction false} PostValidatedTruthy(ns: seq<Node>, g: nat, fuel: nat)
    requires Linked(ns) && g < |ns| && ns[g].kind.Group?
    requires Moded(ns, g, fuel) && PostValidate(ns, g, fuel).None?
    ensures Truthy(ns, g, fuel)
    decreases fuel
  {
    if fuel > 0 && !Truthy(ns, g, fuel) {
      assert ns[g].kind == Group(Inclusive);
      assert FirstFalsy(ns[g].arguments).None?;
      var i := FalsySubgroup(ns, g, fuel);
      PostValidateFalsyInclusive(ns, g, fuel);
      var sub := ns[g].groups[i];
      assert !Truthy(ns, sub, fuel - 1);
      assert fuel - 1 > 0;
      assert PostValidate(ns, sub, fuel - 1).None?;
      assert Moded(ns, sub, fuel - 1);
      assert ns[sub].kind.Group?;
      PostValidatedTruthy(ns, sub, fuel - 1);
      assert false;
    }
  }

  // ----------------------------------------------------- the parent walk

  /**
   * The nearest command handler at or above position `p`, the `while`
   * loop of `GroupHandler.add_argument`: a missing parent is an
   * AttributeError; more steps than there are handlers means the parents
   * form a cycle.
   */
  function NearestCommand(ns: seq<Node>, p: Option<nat>, fuel: nat): (r: Result<nat>)
    requires Linked(ns) && (p.Some? ==> p.value < |ns|)
    ensures r.Ok? ==> r.value < |ns| && ns[r.value].kind == Command
    ensures p.Some? && ns[p.value].kind == Command ==> r == Ok(p.value)
    ensures r.Err? ==> r.error.AttributeError? || r.error.RuntimeError?
    decreases fuel
  {
    match p
    case None => Err(AttributeError("'NoneType' object has no attribute 'parent'"))
    case Some(i) =>
      if ns[i].kind == Command then Ok(i)
      else if fuel == 0 then Err(RuntimeError("parent cycle"))
      else NearestCommand(ns, ns[i].parent, fuel - 1)
  }

  /**
   * The `while` loop of `GroupHandler.add_argument`: from the parent given,
   * step up through group handlers until a command handler is reached.
   */
  method WalkToCommand(ns: seq<Node>, parent: Option<nat>) returns (up: Result<nat>)
    requires Linked(ns) && (parent.Some? ==> parent.value < |ns|)
    ensures up == NearestCommand(ns, parent, |ns|)
  {
    var p := parent;
    var fuel: nat := |ns|;
    while p.Some? && ns[p.value].kind != Command && fuel > 0
      invariant p.Some? ==> p.value < |ns|
      invariant NearestCommand(ns, parent, |ns|) == NearestCommand(ns, p, fuel)
      decreases fuel
    {
      p := ns[p.value].parent;
      fuel := fuel - 1;
    }
    match p
    case None =>
      up := Err(AttributeError("'NoneType' object has no attribute 'parent'"));
    case Some(i) =>
      up := if ns[i].kind == Command then Ok(i) else Err(RuntimeError("parent cycle"));
  }

  /** A name among an argument's aliases shows among its flags. */
  lemma FlagShown(arg: Argument, n: string)
    requires arg.Valid() && n in arg.aliasSet && n != []
    ensures Render(n) in arg.Aliases()
  {
  }

  // ---------------------------------------------------------- the tree

  /** A handler that has taken `arg` in: its name registered, the argument at the end. */
  function WithArgument(n: Node, arg: Argument): Node
  {
    n.(names := n.names + {arg.name}, arguments := n.arguments + [arg])
  }

  /** `_aliases.add(letter)`: the short name joins the argument's names unless already there. */
  function AddAlias(aliasSet: seq<string>, letter: Option<char>): (r: seq<string>)
    ensures Distinct(aliasSet) ==> Distinct(r)
    ensures forall n :: n in r <==> n in aliasSet || (letter.Some? && n == [letter.value])
  {
    if letter.Some? && [letter.value] !in aliasSet then aliasSet + [[letter.value]] else aliasSet
  }

  /** Why `register_name` refuses a name, if it does. */
  function Refusal(n: Node, name: string): (r: Option<Exc>)
    ensures r.Some? <==> !IsIdentifier(name) || name in n.names
    ensures r.Some? ==> r.value.ValueError?
  {
    if !IsIdentifier(name) then Some(ValueError(Message("not a valid Python identifier")))
    else if name in n.names then Some(ValueError(Message("already attached to this handler")))
    else None
  }

  class HandlerTree {
    var nodes: seq<Node>

    predicate Valid()
      reads this
    {
      Linked(nodes) && forall i :: 0 <= i < |nodes| ==> nodes[i].remaining <= ShortPool
    }

    constructor ()
      ensures Valid() && nodes == []
    {
      nodes := [];
    }

    /** `CommandHandler(name, parent=...)`: no names yet, and every letter but `h` available. */
    method NewCommand(name: string, parent: Option<nat>) returns (id: nat)
      requires Valid() && (parent.Some? ==> parent.value < |nodes|)
      modifies this
      ensures Valid() && id == old(|nodes|)
      ensures nodes == old(nodes) + [Node(name, Command, parent, [], [], [], {}, ShortPool)]
    {
      id := |nodes|;
      nodes := nodes + [Node(name, Command, parent, [], [], [], {}, ShortPool)];
    }

    /** `GroupHandler(name, parent=..., group=...)`. */
    method NewGroup(name: string, parent: Option<nat>, mode: Mode) returns (id: nat)
      requires Valid() && (parent.Some? ==> parent.value < |nodes|)
      modifies this
      ensures Valid() && id == old(|nodes|)
      ensures nodes == old(nodes) + [Node(name, Group(mode), parent, [], [], [], {}, {})]
    {
      id := |nodes|;
      nodes := nodes + [Node(name, Group(mode), parent, [], [], [], {}, {})];
    }

    /**
     * `register_name`: a ValueError for a name that is not an identifier or
     * is taken already by an argument, group or subhandler; otherwise the
     * handler's names grow by exactly that name.
     */
    method RegisterName(h: nat, name: string) returns (raised: Option<Exc>)
      requires Valid() && h < |nodes|
      modifies this
      ensures Valid()
      ensures raised == Refusal(old(nodes[h]), name)
      ensures raised.Some? ==> nodes == old(nodes)
      ensures raised.None? ==> nodes == old(nodes)[h := old(nodes[h]).(names := old(nodes[h].names) + {name})]
    {
      if !IsIdentifier(name) {
        return Some(ValueError(Message("not a valid Python identifier")));
      }
      if name in nodes[h].names {
        return Some(ValueError(Message("already attached to this handler")));
      }
      nodes := nodes[h := nodes[h].(names := nodes[h].names + {name})];
      raised := None;
    }

    /** `self.arguments.append(argument)` on the `h`-th handler. */
    method AppendArgument(h: nat, arg: Argument)
      requires Valid() && h < |nodes|
      modifies this
      ensures Valid()
      ensures nodes == old(nodes)[h := old(nodes[h]).(arguments := old(nodes[h].arguments) + [arg])]
    {
      nodes := nodes[h := nodes[h].(arguments := nodes[h].arguments + [arg])];
    }

    /**
     * `determine_shortform_alias`: the first alphanumeric character of the
     * name, lower-cased, that is still available is taken out of the pool
     * and returned; `h` is never among them.
     */
    method DetermineShortformAlias(h: nat, name: string) returns (letter: Option<char>)
      requires Valid() && h < |nodes| && nodes[h].kind == Command
      modifies this
      ensures Valid()
      ensures letter == ShortAlias(name, old(nodes[h].remaining))
      ensures nodes == old(nodes)[h := old(nodes[h]).(remaining := Without(old(nodes[h].remaining), letter))]
      ensures letter.Some? ==> letter.value != 'h' && letter.value in old(nodes[h].remaining)
                               && letter.value !in nodes[h].remaining
    {
      var rest;
      letter, rest := TakeShortAlias(name, nodes[h].remaining);
      nodes := nodes[h := nodes[h].(remaining := rest)];
      ShortPoolLetters();
    }

    /**
     * `CommandHandler.add_argument` as it was evidently meant: the name is
     * registered, the argument appended, and a short alias found for it
     * joins the argument's aliases.
     */
    method AddToCommand(c: nat, arg: Argument) returns (raised: Option<Exc>)
      requires Valid() && c < |nodes| && nodes[c].kind == Command && arg.Valid()
      modifies this, arg
      ensures Valid() && arg.Valid() && |nodes| == old(|nodes|)
      ensures raised == Refusal(old(nodes[c]), arg.name)
      ensures raised.Some? ==> nodes == old(nodes) && arg.aliasSet == old(arg.aliasSet)
      ensures raised.None? ==>
                var letter := ShortAlias(arg.name, old(nodes[c].remaining));
                nodes == old(nodes)[c := WithArgument(old(nodes[c]), arg).(remaining := Without(old(nodes[c].remaining), letter))]
                && arg.aliasSet == AddAlias(old(arg.aliasSet), letter)
                && (letter.Some? ==> Render([letter.value]) in arg.Aliases())
      ensures arg.value == old(arg.value) && arg.nullable == old(arg.nullable)
    {
      raised := RegisterName(c, arg.name);
      if raised.Some? {
        return;
      }
      AppendArgument(c, arg);
      var letter := DetermineShortformAlias(c, arg.name);
      arg.aliasSet := AddAlias(arg.aliasSet, letter);
      if letter.Some? {
        FlagShown(arg, [letter.value]);
      }
    }

    /**
     * `CommandHandler.add_argument` as written: the short alias is appended
     * to the list the `aliases` getter builds afresh, so the argument never
     * sees it, while the letter is gone from the pool all the same.
     */
    method AddToCommandAsWritten(c: nat, arg: Argument) returns (raised: Option<Exc>)
      requires Valid() && c < |nodes| && nodes[c].kind == Command && arg.Valid()
      modifies this
      ensures Valid()
      ensures raised == Refusal(old(nodes[c]), arg.name)
      ensures raised.Some? ==> nodes == old(nodes)
      ensures raised.None? ==>
                var letter := ShortAlias(arg.name, old(nodes[c].remaining));
                nodes == old(nodes)[c := WithArgument(old(nodes[c]), arg).(remaining := Without(old(nodes[c].remaining), letter))]
      ensures arg.aliasSet == old(arg.aliasSet)
    {
      raised := RegisterName(c, arg.name);
      if raised.Some? {
        return;
      }
      AppendArgument(c, arg);
      var letter := DetermineShortformAlias(c, arg.name);
      if letter.Some? {
        var temporary := arg.Aliases() + [[letter.value]];
      }
    }

    /**
     * `add_argument` on any handler: a command handler as above; a group
     * registers and appends the argument itself, then walks up its parents
     * to the nearest command handler and adds the argument there too.
     */
    method AddArgument(h: nat, arg: Argument) returns (raised: Option<Exc>)
      requires Valid() && h < |nodes| && arg.Valid()
      modifies this, arg
      ensures Valid() && arg.Valid() && |nodes| == old(|nodes|)
      ensures Refusal(old(nodes[h]), arg.name).Some? ==>
                raised == Refusal(old(nodes[h]), arg.name) && nodes == old(nodes) && arg.aliasSet == old(arg.aliasSet)
      ensures old(nodes[h].kind).Group? && Refusal(old(nodes[h]), arg.name).None? ==>
                var ns1 := old(nodes)[h := WithArgument(old(nodes[h]), arg)];
                var up := NearestCommand(old(nodes), old(nodes[h].parent), old(|nodes|));
                (up.Err? ==> raised == Some(up.error) && nodes == ns1 && arg.aliasSet == old(arg.aliasSet)) &&
                (up.Ok? ==> raised == Refusal(ns1[up.value], arg.name) &&
                            (raised.Some? ==> nodes == ns1 && arg.aliasSet == old(arg.aliasSet)) &&
                            (raised.None? ==>
                               var letter := ShortAlias(arg.name, ns1[up.value].remaining);
                               nodes == ns1[up.value := WithArgument(ns1[up.value], arg).(remaining := Without(ns1[up.value].remaining, letter))]
                               && arg.aliasSet == AddAlias(old(arg.aliasSet), letter)))
      ensures old(nodes[h].kind) == Command && Refusal(old(nodes[h]), arg.name).None? ==>
                var letter := ShortAlias(arg.name, old(nodes[h].remaining));
                raised.None? && nodes == old(nodes)[h := WithArgument(old(nodes[h]), arg).(remaining := Without(old(nodes[h].remaining), letter))]
                && arg.aliasSet == AddAlias(old(arg.aliasSet), letter)
      ensures arg.value == old(arg.value) && arg.nullable == old(arg.nullable)
    {
      if nodes[h].kind == Command {
        raised := AddToCommand(h, arg);
        return;
      }
      var ns0 := nodes;
      raised := RegisterName(h, arg.name);
      if raised.Some? {
        return;
      }
      AppendArgument(h, arg);
      var up := WalkToCommand(ns0, ns0[h].parent);
      match up
      case Err(e) =>
        raised := Some(e);
      case Ok(p) =>
        raised := AddToCommand(p, arg);
    }

    /** `add_group`: the group's name is registered, the group appended, and its parent becomes this handler. */
    method AddGroup(h: nat, g: nat) returns (raised: Option<Exc>)
      requires Valid() && h < |nodes| && g < |nodes|
      modifies this
      ensures Valid()
      ensures raised == Refusal(old(nodes[h]), old(nodes[g].name))
      ensures raised.Some? ==> nodes == old(nodes)
      ensures raised.None? ==>
                var n := old(nodes[h]);
                var ns1 := old(nodes)[h := n.(names := n.names + {old(nodes[g].name)}, groups := n.groups + [g])];
                nodes == ns1[g := ns1[g].(parent := Some(h))]
    {
      raised := RegisterName(h, nodes[g].name);
      if raised.Some? {
        return;
      }
      nodes := nodes[h := nodes[h].(groups := nodes[h].groups + [g])];
      nodes := nodes[g := nodes[g].(parent := Some(h))];
    }

    /** `add_subhandler`: the same for a command handler's subhandlers. */
    method AddSubhandler(h: nat, c: nat) returns (raised: Option<Exc>)
      requires Valid() && h < |nodes| && c < |nodes| && nodes[h].kind == Command
      modifies this
      ensures Valid()
      ensures raised == Refusal(old(nodes[h]), old(nodes[c].name))
      ensures raised.Some? ==> nodes == old(nodes)
      ensures raised.None? ==>
                var n := old(nodes[h]);
                var ns1 := old(nodes)[h := n.(names := n.names + {old(nodes[c].name)}, subhandlers := n.subhandlers + [c])];
                nodes == ns1[c := ns1[c].(parent := Some(h))]
    {
      raised := RegisterName(h, nodes[c].name);
      if raised.Some? {
        return;
      }
      nodes := nodes[h := nodes[h].(subhandlers := nodes[h].subhandlers + [c])];
      nodes := nodes[c := nodes[c].(parent := Some(h))];
    }
  }

  /**
   * The short alias that the command handler takes for "alpha" from a fresh
   * pool is `a`; as written it never reaches the argument, whose flags stay
   * `--alpha` alone, where adding it gives `-a` as well.
   */
  lemma ShortAliasLost()
    ensures ShortAlias("alpha", ShortPool) == Some('a')
    ensures Render("a") !in SortedFlags(["alpha"])
    ensures Render("a") in SortedFlags(AddAlias(["alpha"], Some('a')))
  {
    ShortPoolLetters();
    assert IsAlnum("alpha"[0]);
    assert Render("a") == "-a" && Render("alpha") == "--alpha";
    assert "a" !in ["alpha"];
    assert "a" in AddAlias(["alpha"], Some('a'));
  }
}
