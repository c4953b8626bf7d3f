/**
 * The command hierarchy (iotools/command/hierarchy.py): one node per
 * command handler, the root first, children keyed by handler name. A run
 * picks the chosen node from a nested dict of arguments, reads and writes
 * argument values along the path from the root to that node, and decides
 * how to collect the arguments at all.
 */
module Hierarchies {
  import opened Python
  import opened Aliases
  import MiscValidator
  import CommandArgument

  type Argument = CommandArgument.Argument

  /** A node: its handler's name and arguments, its parent, and its children keyed by name. */
  datatype Node = Node(name: string, arguments: seq<Argument>, parent: Option<nat>, children: seq<(string, nat)>)

  /**
   * The nodes as `Node.__init__` creates them, parent before child: the
   * root has no parent, every other node has an earlier one and is listed
   * among its children, each child is keyed by its handler's name, and no
   * name keys two children of one node.
   */
  predicate WellFormed(ns: seq<Node>)
  {
    && |ns| > 0 && ns[0].parent.None?
    && (forall i :: 0 < i < |ns| ==> ns[i].parent.Some? && ns[i].parent.value < i)
    && (forall p, c :: 0 <= p < |ns| && 0 < c < |ns| && ns[c].parent == Some(p) ==> Listed(ns, p, c))
    && (forall i, k :: 0 <= i < |ns| && 0 <= k < |ns[i].children| ==>
          i < ns[i].children[k].1 < |ns| && ns[ns[i].children[k].1].parent == Some(i)
          && ns[ns[i].children[k].1].name == ns[i].children[k].0)
    && (forall i :: 0 <= i < |ns| ==> Distinct(Keys(ns[i].children)))
  }

  predicate Listed(ns: seq<Node>, p: nat, c: nat)
    requires p < |ns|
  {
    exists k :: 0 <= k < |ns[p].children| && ns[p].children[k].1 == c
  }

  /**
   * Each argument object belongs to one node and appears there once: an
   * argument is created inside one handler's context and its name is
   * registered with that handler only once.
   */
  predicate OwnArguments(ns: seq<Node>)
  {
    forall p, q, m, n ::
      (0 <= p < |ns| && 0 <= q < |ns| && 0 <= m < |ns[p].arguments| && 0 <= n < |ns[q].arguments| && (p != q || m != n))
      ==> ns[p].arguments[m] != ns[q].arguments[n]
  }

  /**
   * A command's argument names and subcommand names share the handler's
   * register of names, so no argument is named like a child of its node.
   */
  predicate Separated(ns: seq<Node>)
  {
    forall i, m, k :: 0 <= i < |ns| && 0 <= m < |ns[i].arguments| && 0 <= k < |ns[i].children| ==>
      ns[i].arguments[m].name != ns[i].children[k].0
  }

  function ArgObjects(ns: seq<Node>): set<Argument>
  {
    set i, m | 0 <= i < |ns| && 0 <= m < |ns[i].arguments| :: ns[i].arguments[m]
  }

  /** A node's arguments are among the hierarchy's arguments. */
  lemma ArgumentsOf(ns: seq<Node>, q: nat)
    requires q < |ns|
    ensures forall a :: a in ns[q].arguments ==> a in ArgObjects(ns)
  {
    forall a | a in ns[q].arguments
      ensures a in ArgObjects(ns)
    {
      var m :| 0 <= m < |ns[q].arguments| && ns[q].arguments[m] == a;
    }
  }

  /** The arguments of the first nodes are among the hierarchy's arguments. */
  lemma ArgumentsPrefix(ns: seq<Node>, n: nat)
    requires n <= |ns|
    ensures ArgObjects(ns[..n]) <= ArgObjects(ns)
  {
    forall a | a in ArgObjects(ns[..n])
      ensures a in ArgObjects(ns)
    {
      var i, m :| 0 <= i < n && 0 <= m < |ns[..n][i].arguments| && a == ns[..n][i].arguments[m];
      assert ns[..n][i] == ns[i];
    }
  }

  predicate ArgumentsValid(ns: seq<Node>)
    reads ArgObjects(ns)
  {
    forall i, m :: 0 <= i < |ns| && 0 <= m < |ns[i].arguments| ==> ns[i].arguments[m].Valid()
  }

  // ------------------------------------------------ the path from the root

  /**
   * `get_topdown_hierarchy_ascending`: the node is put in front of the
   * nodes collected so far and the parent continues, until the root.
   */
  function TopDownFrom(ns: seq<Node>, i: nat, acc: seq<nat>): (r: seq<nat>)
    requires WellFormed(ns) && i < |ns|
    decreases i
    ensures |r| > |acc| && r[0] == 0 && r[|r| - |acc| - 1] == i && r[|r| - |acc|..] == acc
    ensures forall k :: 0 <= k < |r| - |acc| ==> r[k] < |ns|
    ensures forall k :: 0 <= k < |r| - |acc| - 1 ==> ns[r[k + 1]].parent == Some(r[k])
  {
    var nodes := [i] + acc;
    if ns[i].parent.None? then nodes
    else
      var r := TopDownFrom(ns, ns[i].parent.value, nodes);
      assert r[|r| - |acc| - 1] == nodes[0];
      assert r[|r| - |acc|..] == nodes[1..];
      r
  }

  function TopDown(ns: seq<Node>, i: nat): (r: seq<nat>)
    requires WellFormed(ns) && i < |ns|
  {
    TopDownFrom(ns, i, [])
  }

  /** A chain of nodes, each the parent of the next. */
  predicate Chain(ns: seq<Node>, p: seq<nat>)
  {
    && |p| >= 1
    && (forall k :: 0 <= k < |p| ==> p[k] < |ns|)
    && (forall k :: 0 <= k < |p| - 1 ==> ns[p[k + 1]].parent == Some(p[k]))
  }

  /** The path runs from the root to the node, each node the parent of the next, ever deeper. */
  lemma TopDownShape(ns: seq<Node>, i: nat)
    requires WellFormed(ns) && i < |ns|
    ensures var r := TopDown(ns, i); Chain(ns, r) && r[0] == 0 && r[|r| - 1] == i
    ensures var r := TopDown(ns, i); forall k :: 0 <= k < |r| - 1 ==> r[k] < r[k + 1]
  {
    var e: seq<nat> := [];
    var r := TopDownFrom(ns, i, e);
    assert |r| - |e| == |r|;
  }

  /** The collected nodes simply follow the path to the node. */
  lemma {:induction false} TopDownAccumulates(ns: seq<Node>, i: nat, acc: seq<nat>)
    requires WellFormed(ns) && i < |ns|
    decreases i
    ensures TopDownFrom(ns, i, acc) == TopDown(ns, i) + acc
  {
    var e: seq<nat> := [];
    if ns[i].parent.None? {
      assert TopDown(ns, i) == [i] + e == [i];
    } else {
      var p := ns[i].parent.value;
      assert TopDownFrom(ns, i, acc) == TopDownFrom(ns, p, [i] + acc);
      assert TopDown(ns, i) == TopDownFrom(ns, p, [i] + e);
      assert [i] + e == [i];
      TopDownAccumulates(ns, p, [i] + acc);
      TopDownAccumulates(ns, p, [i]);
      Concat3(TopDown(ns, p), [i], acc);
    }
  }

  lemma Concat3(a: seq<nat>, b: seq<nat>, c: seq<nat>)
    ensures a + b + c == a + (b + c)
  {
  }

  /** A child's path is its parent's path followed by the child. */
  lemma TopDownChild(ns: seq<Node>, c: nat)
    requires WellFormed(ns) && 0 < c < |ns|
    ensures TopDown(ns, c) == TopDown(ns, ns[c].parent.value) + [c]
  {
    var e: seq<nat> := [];
    assert [c] + e == [c];
    assert TopDown(ns, c) == TopDownFrom(ns, ns[c].parent.value, [c]);
    TopDownAccumulates(ns, ns[c].parent.value, [c]);
  }

  // ------------------------------------------------ choosing the node

  /** The positions of the children whose names are among `keys`, in order. */
  function Matching(children: seq<(string, nat)>, keys: seq<Value>): (r: seq<nat>)
    decreases |children|
    ensures forall k :: k in r <==> 0 <= k < |children| && StrV(children[k].0) in keys
    ensures forall a, b :: 0 <= a < b < |r| ==> r[a] < r[b]
    ensures forall j :: 0 <= j < |r| ==> r[j] < |children|
  {
    if children == [] then []
    else
      var n := |children| - 1;
      var r := Matching(children[..n], keys);
      forall a | 0 <= a < |r|
        ensures r[a] < n
      {
        assert r[a] in r;
      }
      if StrV(children[n].0) in keys then r + [n] else r
  }

  /** When no child is named, none matches. */
  lemma {:induction false} MatchingNone(children: seq<(string, nat)>, keys: seq<Value>)
    requires forall k :: 0 <= k < |children| ==> StrV(children[k].0) !in keys
    decreases |children|
    ensures Matching(children, keys) == []
  {
    if children != [] {
      var n := |children| - 1;
      assert forall k :: 0 <= k < n ==> children[..n][k] == children[k];
      MatchingNone(children[..n], keys);
    }
  }

  /** When exactly one child is named, it alone matches. */
  lemma {:induction false} MatchingOne(children: seq<(string, nat)>, keys: seq<Value>, kc: nat)
    requires kc < |children|
    requires forall k :: 0 <= k < |children| ==> (StrV(children[k].0) in keys <==> k == kc)
    decreases |children|
    ensures Matching(children, keys) == [kc]
  {
    var n := |children| - 1;
    assert forall k :: 0 <= k < n ==> children[..n][k] == children[k];
    if n == kc {
      MatchingNone(children[..n], keys);
    } else {
      MatchingOne(children[..n], keys, kc);
    }
  }

  function MissingSubcommand(n: Node): Exc
  {
    ValueError(Message("Must provide one of the following subcommands to command '" + n.name + "': " + Join(", ", Keys(n.children))))
  }

  /** The names of the children of `n` at the positions `found`. */
  function ChildNames(n: Node, found: seq<nat>): seq<string>
    requires forall j :: 0 <= j < |found| ==> found[j] < |n.children|
  {
    if found == [] then [] else [n.children[found[0]].0] + ChildNames(n, found[1..])
  }

  function TooManySubcommands(n: Node, found: seq<nat>): Exc
    requires forall j :: 0 <= j < |found| ==> found[j] < |n.children|
  {
    ValueError(Message("May only provide 1 subcommand for command '" + n.name + "', provided "
      + NatStr(|found|) + ": " + Join(", ", ChildNames(n, found))))
  }

  /**
   * `determine_chosen_node` from node `i` with the arguments `d`: a node
   * without children is chosen; otherwise exactly one child name must be
   * among the keys, and that child is chosen from the value under its name.
   * With none, a strict choice raises and a lenient one stops here; with
   * several, it raises. A value that cannot be iterated, one holding a list
   * or a dict (which `set` cannot hash), or a list or string that names a
   * child but cannot be indexed by it, raises TypeError.
   */
  function Chosen(ns: seq<Node>, i: nat, d: Value, strict: bool): (r: Result<nat>)
    requires WellFormed(ns) && i < |ns|
    decreases |ns| - i
    ensures r.Ok? ==> i <= r.value < |ns|
    ensures r.Ok? && strict ==> ns[r.value].children == []
    ensures r.Ok? && ns[r.value].children != [] ==> !strict
    ensures ns[i].children != [] && Iterate(d).Some? && Unhashable(Iterate(d).value).Some?
            ==> r == Err(Unhashable(Iterate(d).value).value)
  {
    if ns[i].children == [] then Ok(i)
    else match Iterate(d)
      case None => Err(TypeError("object is not iterable"))
      case Some(items) =>
        if Unhashable(items).Some? then Err(Unhashable(items).value)
        else
        var found := Matching(ns[i].children, items);
        if |found| == 0 then
          if strict then Err(MissingSubcommand(ns[i])) else Ok(i)
        else if |found| > 1 then Err(TooManySubcommands(ns[i], found))
        else if !d.DictV? then Err(TypeError("indices must be integers"))
        else
          assert found[0] in found;
          var child := ns[i].children[found[0]];
          KeysHasKey(d.entries, StrV(child.0));
          Chosen(ns, child.1, Get(d.entries, StrV(child.0)).value, strict)
  }

  /** `determine_chosen_node`, descending from the root one level per turn of the loop. */
  method DetermineChosenNode(ns: seq<Node>, args: Value, strict: bool) returns (r: Result<nat>)
    requires WellFormed(ns)
    ensures r == Chosen(ns, 0, args, strict)
  {
    var current, d := 0, args;
    while ns[current].children != []
      invariant current < |ns|
      invariant Chosen(ns, current, d, strict) == Chosen(ns, 0, args, strict)
      decreases |ns| - current
    {
      var items := Iterate(d);
      if items.None? {
        return Err(TypeError("object is not iterable"));
      }
      var unhashable := Unhashable(items.value);
      if unhashable.Some? {
        return Err(unhashable.value);
      }
      var found := Matching(ns[current].children, items.value);
      if |found| == 0 {
        if strict {
          return Err(MissingSubcommand(ns[current]));
        }
        return Ok(current);
      } else if |found| > 1 {
        return Err(TooManySubcommands(ns[current], found));
      } else if !d.DictV? {
        return Err(TypeError("indices must be integers"));
      }
      var child := ns[current].children[found[0]];
      KeysHasKey(d.entries, StrV(child.0));
      current, d := child.1, Get(d.entries, StrV(child.0)).value;
    }
    r := Ok(current);
  }

  // ------------------------------------------------ namespaces

  /** No later argument has the same name as argument `k`. */
  predicate LastNamed(args: seq<Argument>, k: nat)
    requires k < |args|
  {
    forall j :: k < j < |args| ==> args[j].name != args[k].name
  }

  /** The arguments' names, as dict keys. */
  function ArgKeys(args: seq<Argument>): (r: seq<Value>)
    ensures |r| == |args| && forall k :: 0 <= k < |args| ==> r[k] == StrV(args[k].name)
  {
    seq(|args|, k requires 0 <= k < |args| => StrV(args[k].name))
  }

  /** The dict's keys are exactly the given ones. */
  ghost predicate KeysAre(entries: seq<(Value, Value)>, keys: seq<Value>)
  {
    forall x :: HasKey(entries, x) <==> x in keys
  }

  /** Assigning a key adds exactly that key. */
  lemma SetKeys(prev: seq<(Value, Value)>, keys: seq<Value>, key: Value, v: Value)
    requires forall x :: HasKey(prev, x) <==> x in keys
    ensures forall x :: HasKey(Set(prev, key, v), x) <==> x in keys + [key]
  {
    var r := Set(prev, key, v);
    forall x
      ensures HasKey(r, x) <==> x in keys + [key]
    {
      if x != key {
        assert Get(r, x) == Get(prev, x);
      }
    }
  }

  /** `get_namespace`: each argument's value stored under its name, in order. */
  function GetNamespace(args: seq<Argument>): (r: seq<(Value, Value)>)
    reads args
    decreases |args|
    ensures |r| <= |args|
  {
    if args == [] then []
    else
      var n := |args| - 1;
      Set(GetNamespace(args[..n]), StrV(args[n].name), args[n].value)
  }

  /**
   * The namespace has exactly the arguments' names as keys, and under each
   * name the value of the last argument with that name.
   */
  lemma {:induction false} GetNamespaceContents(args: seq<Argument>)
    decreases |args|
    ensures KeysAre(GetNamespace(args), ArgKeys(args))
    ensures forall k :: 0 <= k < |args| && LastNamed(args, k) ==> Get(GetNamespace(args), StrV(args[k].name)) == Some(args[k].value)
  {
    if args != [] {
      var n := |args| - 1;
      var init := args[..n];
      var prev := GetNamespace(init);
      GetNamespaceContents(init);
      assert ArgKeys(args) == ArgKeys(init) + [StrV(args[n].name)];
      SetKeys(prev, ArgKeys(init), StrV(args[n].name), args[n].value);
      LaterValueKept(init, args, prev, args[n].value);
    }
  }

  /** The step of `GetNamespace`: the last argument's value is stored, the others' are kept. */
  lemma LaterValueKept(init: seq<Argument>, args: seq<Argument>, prev: seq<(Value, Value)>, v: Value)
    requires |args| == |init| + 1 && init == args[..|init|]
    requires forall k :: 0 <= k < |init| && LastNamed(init, k) ==> Get(prev, StrV(init[k].name)) == Some(init[k].value)
    ensures forall k :: 0 <= k < |args| - 1 && LastNamed(args, k) ==>
              Get(Set(prev, StrV(args[|init|].name), v), StrV(args[k].name)) == Some(args[k].value)
  {
    var n := |init|;
    forall k | 0 <= k < n && LastNamed(args, k)
      ensures Get(Set(prev, StrV(args[n].name), v), StrV(args[k].name)) == Some(args[k].value)
    {
      assert args[n].name != args[k].name;
      assert init[k] == args[k];
      assert LastNamed(init, k);
    }
  }

  /** The namespaces of the nodes along a path. */
  function Spaces(ns: seq<Node>, p: seq<nat>): (r: seq<seq<(Value, Value)>>)
    requires forall k :: 0 <= k < |p| ==> p[k] < |ns|
    reads ArgObjects(ns)
    ensures |r| == |p|
    ensures forall k :: 0 <= k < |p| ==> r[k] == GetNamespace(ns[p[k]].arguments)
  {
    seq(|p|, k requires 0 <= k < |p| reads ArgObjects(ns) => ArgumentsOf(ns, p[k]); GetNamespace(ns[p[k]].arguments))
  }

  /**
   * The nesting `get_namespace_ascending` builds along a path: the first
   * namespace, with the nesting of the rest stored under the next name.
   */
  function NestOf(names: seq<string>, spaces: seq<seq<(Value, Value)>>): (r: Value)
    requires |spaces| >= 1 && |names| == |spaces|
    decreases |spaces|
    ensures r.DictV?
  {
    if |spaces| == 1 then DictV(spaces[0])
    else DictV(Set(spaces[0], StrV(names[1]), NestOf(names[1..], spaces[1..])))
  }

  /** The handler names along a path. */
  function PathNames(ns: seq<Node>, p: seq<nat>): (r: seq<string>)
    requires forall k :: 0 <= k < |p| ==> p[k] < |ns|
    ensures |r| == |p| && forall k :: 0 <= k < |p| ==> r[k] == ns[p[k]].name
  {
    seq(|p|, k requires 0 <= k < |p| => ns[p[k]].name)
  }

  /**
   * `get_namespace_ascending`: the root's namespace, with each deeper
   * node's namespace nested under its handler's name inside its parent's.
   */
  function GetNamespaceAscending(ns: seq<Node>, j: nat): (r: Value)
    requires WellFormed(ns) && j < |ns|
    reads ArgObjects(ns)
  {
    TopDownShape(ns, j);
    var p := TopDown(ns, j);
    NestOf(PathNames(ns, p), Spaces(ns, p))
  }

  /** A node's own namespace names none of its children. */
  lemma NoChildInNamespace(ns: seq<Node>, i: nat, here: seq<(Value, Value)>)
    requires WellFormed(ns) && Separated(ns) && i < |ns|
    requires KeysAre(here, ArgKeys(ns[i].arguments))
    ensures Matching(ns[i].children, Keys(here)) == []
  {
    var args := ns[i].arguments;
    forall k | 0 <= k < |ns[i].children|
      ensures StrV(ns[i].children[k].0) !in Keys(here)
    {
      KeysHasKey(here, StrV(ns[i].children[k].0));
      assert forall m :: 0 <= m < |args| ==> ArgKeys(args)[m] != StrV(ns[i].children[k].0);
    }
    MatchingNone(ns[i].children, Keys(here));
  }

  /** The keys of a namespace with one more key assigned. */
  lemma KeysAfterSet(prev: seq<(Value, Value)>, keys: seq<Value>, key: Value, v: Value)
    requires forall x :: HasKey(prev, x) <==> x in keys
    ensures forall x :: x in Keys(Set(prev, key, v)) <==> x in keys || x == key
  {
    SetKeys(prev, keys, key, v);
    forall x
      ensures x in Keys(Set(prev, key, v)) <==> x in keys || x == key
    {
      KeysHasKey(Set(prev, key, v), x);
    }
  }

  /** With one child's name added to a node's namespace, that child is the only one named. */
  lemma OnlyChildNamed(ns: seq<Node>, i: nat, kc: nat, keys: seq<Value>)
    requires WellFormed(ns) && Separated(ns) && i < |ns| && kc < |ns[i].children|
    requires forall x :: x in keys <==> x in ArgKeys(ns[i].arguments) || x == StrV(ns[i].children[kc].0)
    ensures Matching(ns[i].children, keys) == [kc]
  {
    var args := ns[i].arguments;
    var cs := ns[i].children;
    forall k | 0 <= k < |cs|
      ensures StrV(cs[k].0) in keys <==> k == kc
    {
      assert forall m :: 0 <= m < |args| ==> ArgKeys(args)[m] != StrV(cs[k].0);
      if k != kc {
        assert Keys(cs)[k] != Keys(cs)[kc];
      }
    }
    MatchingOne(cs, keys, kc);
  }

  /** A dict whose keys are all strings can be made a set. */
  lemma StrKeysHashable(entries: seq<(Value, Value)>, keys: seq<Value>)
    requires KeysAre(entries, keys) && forall j :: 0 <= j < |keys| ==> keys[j].StrV?
    ensures Unhashable(Keys(entries)).None?
  {
    forall j | 0 <= j < |Keys(entries)|
      ensures Hashable(Keys(entries)[j])
    {
      KeysHasKey(entries, Keys(entries)[j]);
    }
  }

  /** A node's own namespace chooses the node itself, strictly only when it has no children. */
  lemma ChosenHere(ns: seq<Node>, i: nat, here: seq<(Value, Value)>, strict: bool)
    requires WellFormed(ns) && Separated(ns) && i < |ns|
    requires KeysAre(here, ArgKeys(ns[i].arguments))
    requires strict ==> ns[i].children == []
    ensures Chosen(ns, i, DictV(here), strict) == Ok(i)
  {
    if ns[i].children != [] {
      StrKeysHashable(here, ArgKeys(ns[i].arguments));
      NoChildInNamespace(ns, i, here);
    }
  }

  /** A namespace naming one child moves the choice to that child with the value under its name. */
  lemma ChosenStep(ns: seq<Node>, i: nat, kc: nat, here: seq<(Value, Value)>, rest: Value, strict: bool)
    requires WellFormed(ns) && Separated(ns) && i < |ns| && kc < |ns[i].children|
    requires KeysAre(here, ArgKeys(ns[i].arguments))
    ensures var name := ns[i].children[kc].0;
            Chosen(ns, i, DictV(Set(here, StrV(name), rest)), strict) == Chosen(ns, ns[i].children[kc].1, rest, strict)
  {
    var name := ns[i].children[kc].0;
    var entries := Set(here, StrV(name), rest);
    KeysAfterSet(here, ArgKeys(ns[i].arguments), StrV(name), rest);
    SetKeys(here, ArgKeys(ns[i].arguments), StrV(name), rest);
    StrKeysHashable(entries, ArgKeys(ns[i].arguments) + [StrV(name)]);
    OnlyChildNamed(ns, i, kc, Keys(entries));
    assert Iterate(DictV(entries)) == Some(Keys(entries));
    assert Matching(ns[i].children, Keys(entries)) == [kc];
    assert Get(entries, StrV(name)) == Some(rest);
  }

  /** One level of a nested chain: the first node's namespace hands the choice to the second node. */
  lemma NestStep(ns: seq<Node>, p: seq<nat>, spaces: seq<seq<(Value, Value)>>, strict: bool)
    requires WellFormed(ns) && Separated(ns) && Chain(ns, p) && |p| >= 2 && |spaces| == |p|
    requires KeysAre(spaces[0], ArgKeys(ns[p[0]].arguments))
    ensures Chosen(ns, p[0], NestOf(PathNames(ns, p), spaces), strict)
         == Chosen(ns, p[1], NestOf(PathNames(ns, p[1..]), spaces[1..]), strict)
  {
    var i, c := p[0], p[1];
    assert 0 < c && ns[c].parent == Some(i);
    assert Listed(ns, i, c);
    var kc :| 0 <= kc < |ns[i].children| && ns[i].children[kc].1 == c;
    assert PathNames(ns, p)[1..] == PathNames(ns, p[1..]);
    ChosenStep(ns, i, kc, spaces[0], NestOf(PathNames(ns, p[1..]), spaces[1..]), strict);
  }

  /** The rest of a nested chain is a nested chain. */
  lemma NestTail(ns: seq<Node>, p: seq<nat>, spaces: seq<seq<(Value, Value)>>)
    requires Chain(ns, p) && |p| >= 2 && |spaces| == |p|
    requires forall k :: 0 <= k < |p| ==> KeysAre(spaces[k], ArgKeys(ns[p[k]].arguments))
    ensures Chain(ns, p[1..]) && p[1..][|p[1..]| - 1] == p[|p| - 1]
    ensures forall k :: 0 <= k < |p[1..]| ==> KeysAre(spaces[1..][k], ArgKeys(ns[p[1..][k]].arguments))
  {
    forall k | 0 <= k < |p[1..]|
      ensures KeysAre(spaces[1..][k], ArgKeys(ns[p[1..][k]].arguments))
    {
      assert spaces[1..][k] == spaces[k + 1] && p[1..][k] == p[k + 1];
    }
  }

  /** Follows a nested chain from its first node to its last one. */
  lemma {:induction false} ChosenFromNest(ns: seq<Node>, p: seq<nat>, spaces: seq<seq<(Value, Value)>>, strict: bool)
    requires WellFormed(ns) && Separated(ns) && Chain(ns, p) && |spaces| == |p|
    requires forall k :: 0 <= k < |p| ==> KeysAre(spaces[k], ArgKeys(ns[p[k]].arguments))
    requires strict ==> ns[p[|p| - 1]].children == []
    decreases |p|
    ensures Chosen(ns, p[0], NestOf(PathNames(ns, p), spaces), strict) == Ok(p[|p| - 1])
  {
    if |p| == 1 {
      ChosenHere(ns, p[0], spaces[0], strict);
    } else {
      NestStep(ns, p, spaces, strict);
      NestTail(ns, p, spaces);
      ChosenFromNest(ns, p[1..], spaces[1..], strict);
      assert p[1..][0] == p[1] && p[1..][|p[1..]| - 1] == p[|p| - 1];
    }
  }

  /**
   * The namespace read out at a node chooses that node again: leniently
   * always, and strictly when the node has no subcommands.
   */
  lemma ChosenFromOwnNamespace(ns: seq<Node>, j: nat, strict: bool)
    requires WellFormed(ns) && Separated(ns) && j < |ns|
    requires strict ==> ns[j].children == []
    ensures Chosen(ns, 0, GetNamespaceAscending(ns, j), strict) == Ok(j)
  {
    TopDownShape(ns, j);
    var p := TopDown(ns, j);
    forall k | 0 <= k < |p|
      ensures KeysAre(Spaces(ns, p)[k], ArgKeys(ns[p[k]].arguments))
    {
      GetNamespaceContents(ns[p[k]].arguments);
    }
    ChosenFromNest(ns, p, Spaces(ns, p), strict);
  }

  // ------------------------------------------------ setting values

  /**
   * `name in namespace` followed by `namespace[name]`: a dict gives the value
   * under the name, if any; a list or string that contains the name cannot
   * be indexed by it; anything else cannot be searched.
   */
  function Lookup(d: Value, name: string): (r: Result<Option<Value>>)
    ensures d.DictV? ==> r == Ok(Get(d.entries, StrV(name)))
    ensures r.Err? ==> r.error.TypeError?
    ensures !d.DictV? ==> r != Ok(Some(NoneV)) && (r.Ok? ==> r.value.None?)
  {
    match d
    case DictV(entries) => Ok(Get(entries, StrV(name)))
    case ListV(items) => if StrV(name) in items then Err(TypeError("list indices must be integers or slices, not str")) else Ok(None)
    case StrV(text) => if Contains(text, name) then Err(TypeError("string indices must be integers")) else Ok(None)
    case _ => Err(TypeError("argument is not iterable"))
  }

  /** One argument's turn: nothing to take, the converted value it takes, or the exception raised. */
  function Take(env: MiscValidator.Env, d: Value, arg: (string, MiscValidator.Spec)): Result<Option<Value>>
  {
    match Lookup(d, arg.0)
    case Err(e) => Err(e)
    case Ok(None) => Ok(None)
    case Ok(Some(v)) =>
      match MiscValidator.Convert(env, arg.1, v)
      case Err(e) => Err(e)
      case Ok(c) => Ok(Some(c))
  }

  /** What decides each argument's turn: its name and its validator. */
  function Snapshot(args: seq<Argument>): (r: seq<(string, MiscValidator.Spec)>)
    reads args
    ensures |r| == |args| && forall k :: 0 <= k < |args| ==> r[k] == (args[k].name, args[k].validator)
    decreases |args|
  {
    if args == [] then [] else Snapshot(args[..|args| - 1]) + [(args[|args| - 1].name, args[|args| - 1].validator)]
  }

  function Values(args: seq<Argument>): (r: seq<Value>)
    reads args
    ensures |r| == |args| && forall k :: 0 <= k < |args| ==> r[k] == args[k].value
    decreases |args|
  {
    if args == [] then [] else Values(args[..|args| - 1]) + [args[|args| - 1].value]
  }

  /** The first argument whose turn raises. */
  function FirstFailure(env: MiscValidator.Env, d: Value, snap: seq<(string, MiscValidator.Spec)>): (r: Option<nat>)
    ensures r.Some? ==> r.value < |snap| && Take(env, d, snap[r.value]).Err?
    ensures r.Some? ==> forall k :: 0 <= k < r.value ==> Take(env, d, snap[k]).Ok?
    ensures r.None? <==> forall k :: 0 <= k < |snap| ==> Take(env, d, snap[k]).Ok?
  {
    FirstMatch(snap, (arg: (string, MiscValidator.Spec)) => Take(env, d, arg).Err?)
  }

  /** The exception `set_values_from_namespace` lets out, if any: the first argument's that raises. */
  function Failure(env: MiscValidator.Env, d: Value, snap: seq<(string, MiscValidator.Spec)>): (r: Option<Exc>)
    ensures r.None? <==> forall k :: 0 <= k < |snap| ==> Take(env, d, snap[k]).Ok?
  {
    match FirstFailure(env, d, snap)
    case None => None
    case Some(k) => Some(Take(env, d, snap[k]).error)
  }

  /** An argument's value after its turn: the converted value it takes, or the value it had. */
  function Taken(env: MiscValidator.Env, d: Value, arg: (string, MiscValidator.Spec), old_: Value): Value
  {
    match Take(env, d, arg)
    case Ok(Some(v)) => v
    case _ => old_
  }

  /**
   * The values after `set_values_from_namespace`: up to the first argument
   * that raises, every argument the namespace names takes its converted
   * value and every other keeps its value; after it, nothing changes.
   */
  function NewValues(env: MiscValidator.Env, d: Value, snap: seq<(string, MiscValidator.Spec)>, olds: seq<Value>): (r: seq<Value>)
    requires |olds| == |snap|
    ensures |r| == |snap|
    ensures forall k :: 0 <= k < |snap| && (forall j :: 0 <= j < k ==> Take(env, d, snap[j]).Ok?) ==>
              r[k] == Taken(env, d, snap[k], olds[k])
    ensures forall k :: 0 <= k < |snap| && !(forall j :: 0 <= j < k ==> Take(env, d, snap[j]).Ok?) ==> r[k] == olds[k]
  {
    var stop := match FirstFailure(env, d, snap) case None => |snap| case Some(k) => k;
    seq(|snap|, k requires 0 <= k < |snap| => if k <= stop then Taken(env, d, snap[k], olds[k]) else olds[k])
  }

  /**
   * Reading a node's own namespace back in, with validators that return
   * each current value unchanged, changes nothing.
   */
  lemma SetOwnNamespace(env: MiscValidator.Env, args: seq<Argument>)
    requires forall j, k :: 0 <= j < k < |args| ==> args[j].name != args[k].name
    requires forall k :: 0 <= k < |args| ==> MiscValidator.Convert(env, args[k].validator, args[k].value) == Ok(args[k].value)
    ensures NewValues(env, DictV(GetNamespace(args)), Snapshot(args), Values(args)) == Values(args)
  {
    var d := DictV(GetNamespace(args));
    var snap := Snapshot(args);
    OwnNamespaceTakes(env, args);
    var r := NewValues(env, d, snap, Values(args));
    forall k | 0 <= k < |args|
      ensures r[k] == Values(args)[k]
    {
      assert forall j :: 0 <= j < k ==> Take(env, d, snap[j]).Ok?;
      assert Taken(env, d, snap[k], Values(args)[k]) == args[k].value;
    }
  }

  /** Each argument takes its own value back from its node's namespace. */
  lemma OwnNamespaceTakes(env: MiscValidator.Env, args: seq<Argument>)
    requires forall j, k :: 0 <= j < k < |args| ==> args[j].name != args[k].name
    requires forall k :: 0 <= k < |args| ==> MiscValidator.Convert(env, args[k].validator, args[k].value) == Ok(args[k].value)
    ensures forall k :: 0 <= k < |args| ==> Take(env, DictV(GetNamespace(args)), Snapshot(args)[k]) == Ok(Some(args[k].value))
  {
    GetNamespaceContents(args);
    forall k | 0 <= k < |args|
      ensures Take(env, DictV(GetNamespace(args)), Snapshot(args)[k]) == Ok(Some(args[k].value))
    {
      assert LastNamed(args, k);
    }
  }

  /** The values when the turns ran up to `i`, which is the end or the first turn that raised. */
  lemma NewValuesUpTo(env: MiscValidator.Env, d: Value, snap: seq<(string, MiscValidator.Spec)>, olds: seq<Value>, vals: seq<Value>, i: nat)
    requires |olds| == |snap| == |vals| && i <= |snap|
    requires forall k :: 0 <= k < i ==> Take(env, d, snap[k]).Ok?
    requires i < |snap| ==> Take(env, d, snap[i]).Err?
    requires forall k :: 0 <= k < i ==> vals[k] == Taken(env, d, snap[k], olds[k])
    requires forall k :: i <= k < |snap| ==> vals[k] == olds[k]
    ensures vals == NewValues(env, d, snap, olds)
    ensures Failure(env, d, snap) == if i < |snap| then Some(Take(env, d, snap[i]).error) else None
  {
    if i < |snap| {
      assert FirstFailure(env, d, snap) == Some(i);
    }
    var r := NewValues(env, d, snap, olds);
    forall k | 0 <= k < |snap|
      ensures vals[k] == r[k]
    {
      if k < i {
        assert forall j :: 0 <= j < k ==> Take(env, d, snap[j]).Ok?;
      } else if k == i {
        assert forall j :: 0 <= j < k ==> Take(env, d, snap[j]).Ok?;
        assert Taken(env, d, snap[k], olds[k]) == olds[k];
      } else {
        assert !(forall j :: 0 <= j < k ==> Take(env, d, snap[j]).Ok?) by {
          assert !Take(env, d, snap[i]).Ok?;
        }
      }
    }
    assert |vals| == |r|;
  }

  /** Arguments whose names and validators are as recorded have that snapshot. */
  lemma SnapshotKept(args: seq<Argument>, snap: seq<(string, MiscValidator.Spec)>)
    requires |snap| == |args| && forall k :: 0 <= k < |args| ==> snap[k] == (args[k].name, args[k].validator)
    ensures Snapshot(args) == snap
  {
  }

  /** What a value assignment leaves alone: everything but the value. */
  function Fields(a: Argument): (seq<string>, bool, Value, bool, Option<seq<Value>>, Option<string>, MiscValidator.Spec)
    reads a
  {
    (a.aliasSet, a.nullable, a.default, a.required, a.choices, a.info, a.validator)
  }

  /** One argument's turn in `set_values_from_namespace`. */
  method TakeValue(env: MiscValidator.Env, arg: Argument, d: Value) returns (raised: Option<Exc>)
    requires arg.Valid()
    modifies arg
    ensures arg.Valid() && Fields(arg) == old(Fields(arg))
    ensures var t := Take(env, d, (arg.name, arg.validator));
            && (t.Err? ==> raised == Some(t.error) && arg.value == old(arg.value))
            && (t == Ok(None) ==> raised.None? && arg.value == old(arg.value))
            && (t.Ok? && t.value.Some? ==> raised.None? && arg.value == t.value.value)
  {
    var found := Lookup(d, arg.name);
    if found.Err? {
      return Some(found.error);
    }
    raised := None;
    if found.value.Some? {
      raised := arg.SetValue(env, found.value.value);
    }
  }

  /**
   * The turns of `set_values_from_namespace` from argument `i` on, one after
   * another, with `vals` the values so far: the exception that stops them,
   * if any, and the values they leave.
   */
  function Turns(env: MiscValidator.Env, d: Value, snap: seq<(string, MiscValidator.Spec)>, i: nat, vals: seq<Value>): (r: (Option<Exc>, seq<Value>))
    requires i <= |snap| == |vals|
    decreases |snap| - i
    ensures |r.1| == |vals|
  {
    if i == |snap| then (None, vals)
    else match Take(env, d, snap[i])
      case Err(e) => (Some(e), vals)
      case Ok(None) => Turns(env, d, snap, i + 1, vals)
      case Ok(Some(v)) => Turns(env, d, snap, i + 1, vals[i := v])
  }

  /** One turn: a failing argument stops the turns, any other takes its value and hands on. */
  lemma TurnStep(env: MiscValidator.Env, d: Value, snap: seq<(string, MiscValidator.Spec)>, i: nat, vals: seq<Value>)
    requires i < |snap| == |vals|
    ensures Take(env, d, snap[i]).Err? ==> Turns(env, d, snap, i, vals) == (Some(Take(env, d, snap[i]).error), vals)
    ensures Take(env, d, snap[i]).Ok? ==>
              Turns(env, d, snap, i, vals) == Turns(env, d, snap, i + 1, vals[i := Taken(env, d, snap[i], vals[i])])
  {
    if Take(env, d, snap[i]) == Ok(None) {
      assert vals[i := vals[i]] == vals;
    }
  }

  /**
   * Taking the turns one by one ends as the declarative description says:
   * the first failing argument's exception, and the values of `NewValues`.
   */
  lemma {:induction false} TurnsMeaning(env: MiscValidator.Env, d: Value, snap: seq<(string, MiscValidator.Spec)>, olds: seq<Value>,
                                        i: nat, vals: seq<Value>)
    requires i <= |snap| == |olds| == |vals|
    requires forall k :: 0 <= k < i ==> Take(env, d, snap[k]).Ok?
    requires forall k :: 0 <= k < i ==> vals[k] == Taken(env, d, snap[k], olds[k])
    requires forall k :: i <= k < |snap| ==> vals[k] == olds[k]
    decreases |snap| - i
    ensures Turns(env, d, snap, i, vals) == (Failure(env, d, snap), NewValues(env, d, snap, olds))
  {
    if i == |snap| || Take(env, d, snap[i]).Err? {
      NewValuesUpTo(env, d, snap, olds, vals, i);
    } else {
      TurnStep(env, d, snap, i, vals);
      TurnsMeaning(env, d, snap, olds, i + 1, vals[i := Taken(env, d, snap[i], vals[i])]);
    }
  }

  /** Values that differ from recorded ones at most at `i`. */
  lemma ValuesAfter(args: seq<Argument>, i: nat, before: seq<Value>)
    requires i < |args| == |before| && forall k :: 0 <= k < |args| && k != i ==> args[k].value == before[k]
    ensures Values(args) == before[i := args[i].value]
  {
  }

  /**
   * `set_values_from_namespace`: each argument the namespace names is set,
   * through its validator, to the value under its name; the first exception
   * stops the loop and propagates.
   */
  method SetValuesFromNamespace(env: MiscValidator.Env, args: seq<Argument>, d: Value) returns (raised: Option<Exc>)
    requires Distinct(args) && forall a :: a in args ==> a.Valid()
    modifies args
    ensures forall a :: a in args ==> Fields(a) == old(Fields(a))
    ensures (raised, Values(args)) == Turns(env, d, old(Snapshot(args)), 0, old(Values(args)))
  {
    ghost var snap := Snapshot(args);
    ghost var goal := Turns(env, d, snap, 0, Values(args));
    raised := None;
    var i := 0;
    while i < |args|
      invariant 0 <= i <= |args| && raised.None?
      invariant forall a :: a in args ==> Fields(a) == old(Fields(a))
      invariant goal == Turns(env, d, snap, i, Values(args))
    {
      assert args[i] in args;
      assert old(args[i].Valid());
      raised := TakeTurn(env, args, i, d, snap);
      if raised.Some? {
        return;
      }
      i := i + 1;
    }
  }

  /** The turn of argument `i` in `set_values_from_namespace`, stated on the values of all the arguments. */
  method TakeTurn(env: MiscValidator.Env, args: seq<Argument>, i: nat, d: Value, ghost snap: seq<(string, MiscValidator.Spec)>)
    returns (raised: Option<Exc>)
    requires Distinct(args) && i < |args| == |snap| && args[i].Valid() && snap[i] == (args[i].name, args[i].validator)
    modifies args[i]
    ensures Fields(args[i]) == old(Fields(args[i]))
    ensures raised.Some? ==> Turns(env, d, snap, i, old(Values(args))) == (raised, Values(args))
    ensures raised.None? ==> Turns(env, d, snap, i, old(Values(args))) == Turns(env, d, snap, i + 1, Values(args))
  {
    ghost var before := Values(args);
    TurnStep(env, d, snap, i, before);
    raised := TakeValue(env, args[i], d);
    assert forall k :: 0 <= k < |args| && k != i ==> args[k] != args[i];
    ValuesAfter(args, i, before);
    if raised.Some? {
      assert before[i := args[i].value] == before;
    }
  }

  // ------------------------------------------------ along the path

  /**
   * `namespace[name]` on the way down the path: a dict gives the value under
   * the name and raises KeyError without it; anything else raises TypeError.
   */
  function Index(d: Value, name: string): (r: Result<Value>)
    ensures d.DictV? && HasKey(d.entries, StrV(name)) ==> r == Ok(Get(d.entries, StrV(name)).value)
    ensures d.DictV? && !HasKey(d.entries, StrV(name)) ==> r == Err(KeyError)
    ensures !d.DictV? ==> r.Err? && r.error.TypeError?
  {
    match d
    case DictV(entries) => if HasKey(entries, StrV(name)) then Ok(Get(entries, StrV(name)).value) else Err(KeyError)
    case _ => Err(TypeError("object is not subscriptable"))
  }

  /** The snapshot of every node's arguments, by node index. */
  function AllSnaps(ns: seq<Node>): (r: seq<seq<(string, MiscValidator.Spec)>>)
    reads ArgObjects(ns)
    decreases |ns|
    ensures |r| == |ns| && forall q :: 0 <= q < |ns| ==> r[q] == Snapshot(ns[q].arguments)
  {
    if ns == [] then []
    else
      var n := |ns| - 1;
      ArgumentsPrefix(ns, n);
      ArgumentsOf(ns, n);
      AllSnaps(ns[..n]) + [Snapshot(ns[n].arguments)]
  }

  /** The values of every node's arguments, by node index. */
  function AllValues(ns: seq<Node>): (r: seq<seq<Value>>)
    reads ArgObjects(ns)
    decreases |ns|
    ensures |r| == |ns| && forall q :: 0 <= q < |ns| ==> r[q] == Values(ns[q].arguments)
  {
    if ns == [] then []
    else
      var n := |ns| - 1;
      ArgumentsPrefix(ns, n);
      ArgumentsOf(ns, n);
      AllValues(ns[..n]) + [Values(ns[n].arguments)]
  }

  /** Node values shaped like the snapshots: one value per argument. */
  predicate Shaped(snaps: seq<seq<(string, MiscValidator.Spec)>>, all: seq<seq<Value>>)
  {
    |all| == |snaps| && forall q :: 0 <= q < |all| ==> |all[q]| == |snaps[q]|
  }

  /**
   * `set_values_from_namespace_ascending` from position `i` of the path `p`
   * on, with namespace `d` for the node at `p[i]`: the exception that gets
   * out, if any, and every node's values afterwards. The node takes its
   * values from `d`; unless that raised or it ends the path, the next node's
   * namespace is `d` indexed by that node's name, and a failed lookup raises.
   */
  function Ascending(env: MiscValidator.Env, ns: seq<Node>, snaps: seq<seq<(string, MiscValidator.Spec)>>, p: seq<nat>, i: nat,
                     d: Value, all: seq<seq<Value>>): (r: (Option<Exc>, seq<seq<Value>>))
    requires |ns| == |snaps| && Shaped(snaps, all) && i < |p| && forall k :: 0 <= k < |p| ==> p[k] < |ns|
    decreases |p| - i
    ensures Shaped(snaps, r.1)
  {
    var here := NewValues(env, d, snaps[p[i]], all[p[i]]);
    var all' := all[p[i] := here];
    match Failure(env, d, snaps[p[i]])
    case Some(e) => (Some(e), all')
    case None =>
      if i + 1 == |p| then (None, all')
      else match Index(d, ns[p[i + 1]].name)
        case Err(e) => (Some(e), all')
        case Ok(next) =>
          Ascending(env, ns, snaps, p, i + 1, next, all')
  }

  /** Arguments of different nodes are different objects. */
  lemma Disjoint(ns: seq<Node>, q: nat, r: nat)
    requires OwnArguments(ns) && q < |ns| && r < |ns| && q != r
    ensures forall a :: a in ns[q].arguments ==> a !in ns[r].arguments
  {
  }

  /** The arguments of a node are valid and distinct objects. */
  lemma ArgumentsOfNodeValid(ns: seq<Node>, q: nat)
    requires OwnArguments(ns) && ArgumentsValid(ns) && q < |ns|
    ensures Distinct(ns[q].arguments) && forall a :: a in ns[q].arguments ==> a.Valid()
  {
  }

  /**
   * `set_values_from_namespace` on the node at `q` of the hierarchy: that
   * node's values change as the node-level contract says, and no other
   * node's arguments are touched.
   */
  method SetNodeValues(env: MiscValidator.Env, ns: seq<Node>, q: nat, d: Value) returns (raised: Option<Exc>)
    requires OwnArguments(ns) && ArgumentsValid(ns) && q < |ns|
    modifies ns[q].arguments
    ensures ArgumentsValid(ns) && AllSnaps(ns) == old(AllSnaps(ns))
    ensures raised == Failure(env, d, old(AllSnaps(ns))[q])
    ensures AllValues(ns) == old(AllValues(ns))[q := NewValues(env, d, old(AllSnaps(ns))[q], old(AllValues(ns))[q])]
  {
    ArgumentsOfNodeValid(ns, q);
    ghost var snap, olds := Snapshot(ns[q].arguments), Values(ns[q].arguments);
    raised := SetValuesFromNamespace(env, ns[q].arguments, d);
    TurnsMeaning(env, d, snap, olds, 0, olds);
    forall r, m | 0 <= r < |ns| && 0 <= m < |ns[r].arguments|
      ensures Fields(ns[r].arguments[m]) == old(Fields(ns[r].arguments[m]))
      ensures r != q ==> ns[r].arguments[m].value == old(ns[r].arguments[m].value)
    {
      if r == q {
        assert ns[r].arguments[m] in ns[q].arguments;
      }
    }
    NodeUpdated(ns, q, old(AllSnaps(ns)), old(AllValues(ns)));
  }

  /**
   * Once only the values of one node's arguments differ from recorded
   * values and snapshots of valid arguments, every argument is valid, the
   * snapshots are as recorded and only that node's values differ.
   */
  lemma NodeUpdated(ns: seq<Node>, q: nat, snaps: seq<seq<(string, MiscValidator.Spec)>>, all: seq<seq<Value>>)
    requires q < |ns| && |snaps| == |all| == |ns|
    requires forall r :: 0 <= r < |ns| ==> |snaps[r]| == |ns[r].arguments| && |all[r]| == |ns[r].arguments|
    requires forall r, m :: 0 <= r < |ns| && 0 <= m < |ns[r].arguments| ==>
               snaps[r][m] == (ns[r].arguments[m].name, ns[r].arguments[m].validator)
    requires forall r, m :: 0 <= r < |ns| && r != q && 0 <= m < |ns[r].arguments| ==> ns[r].arguments[m].value == all[r][m]
    ensures AllSnaps(ns) == snaps
    ensures AllValues(ns) == all[q := Values(ns[q].arguments)]
  {
    forall r | 0 <= r < |ns|
      ensures Snapshot(ns[r].arguments) == snaps[r]
      ensures r != q ==> Values(ns[r].arguments) == all[r]
    {
      SnapshotKept(ns[r].arguments, snaps[r]);
    }
    var r := all[q := Values(ns[q].arguments)];
    assert forall t :: 0 <= t < |ns| ==> AllValues(ns)[t] == r[t];
  }

  /**
   * `set_values_from_namespace_ascending`: the root takes its values from the
   * namespace, and each further node on the path from the namespace nested
   * under its name in the previous one; the first exception stops the walk.
   */
  method SetValuesFromNamespaceAscending(env: MiscValidator.Env, ns: seq<Node>, j: nat, namespace: Value) returns (raised: Option<Exc>)
    requires WellFormed(ns) && OwnArguments(ns) && ArgumentsValid(ns) && j < |ns|
    modifies ArgObjects(ns)
    ensures ArgumentsValid(ns)
    ensures (raised, AllValues(ns)) == Ascending(env, ns, old(AllSnaps(ns)), TopDown(ns, j), 0, namespace, old(AllValues(ns)))
  {
    TopDownShape(ns, j);
    raised := SetValuesAlong(env, ns, TopDown(ns, j), namespace);
  }

  /** The walk of `set_values_from_namespace_ascending` down any path of nodes. */
  method SetValuesAlong(env: MiscValidator.Env, ns: seq<Node>, p: seq<nat>, namespace: Value) returns (raised: Option<Exc>)
    requires OwnArguments(ns) && ArgumentsValid(ns) && |p| > 0 && forall k :: 0 <= k < |p| ==> p[k] < |ns|
    modifies ArgObjects(ns)
    ensures ArgumentsValid(ns)
    ensures (raised, AllValues(ns)) == Ascending(env, ns, old(AllSnaps(ns)), p, 0, namespace, old(AllValues(ns)))
  {
    ghost var snaps := AllSnaps(ns);
    ghost var goal := Ascending(env, ns, snaps, p, 0, namespace, AllValues(ns));
    var d := namespace;
    var i := 0;
    while true
      invariant 0 <= i < |p| && ArgumentsValid(ns) && AllSnaps(ns) == snaps
      invariant Shaped(snaps, AllValues(ns)) && goal == Ascending(env, ns, snaps, p, i, d, AllValues(ns))
      decreases |p| - i
    {
      ArgumentsOf(ns, p[i]);
      var next;
      raised, next := WalkStep(env, ns, snaps, p, i, d);
      if next.None? {
        return;
      }
      d := next.value;
      i := i + 1;
    }
  }

  /**
   * One node of the walk: the node at `p[i]` takes its values from `d`;
   * unless that raised or the path ends there, the next node's namespace is
   * looked up, and a failed lookup raises.
   */
  method WalkStep(env: MiscValidator.Env, ns: seq<Node>, ghost snaps: seq<seq<(string, MiscValidator.Spec)>>, p: seq<nat>, i: nat, d: Value)
    returns (raised: Option<Exc>, next: Option<Value>)
    requires OwnArguments(ns) && ArgumentsValid(ns) && AllSnaps(ns) == snaps
    requires i < |p| && forall k :: 0 <= k < |p| ==> p[k] < |ns|
    modifies ns[p[i]].arguments
    ensures ArgumentsValid(ns) && AllSnaps(ns) == snaps
    ensures next.None? ==> (raised, AllValues(ns)) == Ascending(env, ns, snaps, p, i, d, old(AllValues(ns)))
    ensures next.Some? ==> i + 1 < |p| && Shaped(snaps, AllValues(ns)) &&
                           Ascending(env, ns, snaps, p, i, d, old(AllValues(ns))) == Ascending(env, ns, snaps, p, i + 1, next.value, AllValues(ns))
  {
    AscendingTurn(env, ns, snaps, p, i, d, AllValues(ns));
    raised := SetNodeValues(env, ns, p[i], d);
    if raised.Some? || i + 1 == |p| {
      return raised, None;
    }
    var found := Index(d, ns[p[i + 1]].name);
    if found.Err? {
      return Some(found.error), None;
    }
    next := Some(found.value);
  }

  /** The walk at one node, as the cases the method takes. */
  lemma AscendingTurn(env: MiscValidator.Env, ns: seq<Node>, snaps: seq<seq<(string, MiscValidator.Spec)>>, p: seq<nat>, i: nat,
                      d: Value, all: seq<seq<Value>>)
    requires |ns| == |snaps| && Shaped(snaps, all) && i < |p| && forall k :: 0 <= k < |p| ==> p[k] < |ns|
    ensures var all' := all[p[i] := NewValues(env, d, snaps[p[i]], all[p[i]])];
            && Shaped(snaps, all')
            && Ascending(env, ns, snaps, p, i, d, all) ==
                 if Failure(env, d, snaps[p[i]]).Some? then (Failure(env, d, snaps[p[i]]), all')
                 else if i + 1 == |p| then (None, all')
                 else if Index(d, ns[p[i + 1]].name).Err? then (Some(Index(d, ns[p[i + 1]].name).error), all')
                 else Ascending(env, ns, snaps, p, i + 1, Index(d, ns[p[i + 1]].name).value, all')
  {
  }

  /** One step of the walk: a node that takes its values without raising hands on to the next node. */
  lemma AscendingStep(env: MiscValidator.Env, ns: seq<Node>, snaps: seq<seq<(string, MiscValidator.Spec)>>, p: seq<nat>, i: nat,
                      d: Value, all: seq<seq<Value>>, next: Value)
    requires |ns| == |snaps| && Shaped(snaps, all) && i + 1 < |p| && forall k :: 0 <= k < |p| ==> p[k] < |ns|
    requires Failure(env, d, snaps[p[i]]).None? && Index(d, ns[p[i + 1]].name) == Ok(next)
    ensures Shaped(snaps, all[p[i] := NewValues(env, d, snaps[p[i]], all[p[i]])])
    ensures Ascending(env, ns, snaps, p, i, d, all) == Ascending(env, ns, snaps, p, i + 1, next, all[p[i] := NewValues(env, d, snaps[p[i]], all[p[i]])])
  {
  }

  /** The walk changes only the nodes on the path from `i` on. */
  lemma {:induction false} AscendingKeepsOthers(env: MiscValidator.Env, ns: seq<Node>, snaps: seq<seq<(string, MiscValidator.Spec)>>,
                                                p: seq<nat>, i: nat, d: Value, all: seq<seq<Value>>, q: nat)
    requires |ns| == |snaps| && Shaped(snaps, all) && i < |p| && forall k :: 0 <= k < |p| ==> p[k] < |ns|
    requires q < |all| && forall k :: i <= k < |p| ==> p[k] != q
    decreases |p| - i
    ensures Ascending(env, ns, snaps, p, i, d, all).1[q] == all[q]
  {
    if Failure(env, d, snaps[p[i]]).None? && i + 1 < |p| && Index(d, ns[p[i + 1]].name).Ok? {
      var next := Index(d, ns[p[i + 1]].name).value;
      AscendingStep(env, ns, snaps, p, i, d, all, next);
      AscendingKeepsOthers(env, ns, snaps, p, i + 1, next, all[p[i] := NewValues(env, d, snaps[p[i]], all[p[i]])], q);
    }
  }

  /**
   * The node at `p[i]`, when the path does not come back to it, ends with
   * the values it takes from `d`, and an exception it raises is the one
   * that gets out.
   */
  lemma AscendingFirst(env: MiscValidator.Env, ns: seq<Node>, snaps: seq<seq<(string, MiscValidator.Spec)>>,
                       p: seq<nat>, i: nat, d: Value, all: seq<seq<Value>>)
    requires |ns| == |snaps| && Shaped(snaps, all) && i < |p| && forall k :: 0 <= k < |p| ==> p[k] < |ns|
    requires forall k :: i < k < |p| ==> p[k] != p[i]
    ensures Ascending(env, ns, snaps, p, i, d, all).1[p[i]] == NewValues(env, d, snaps[p[i]], all[p[i]])
    ensures Failure(env, d, snaps[p[i]]).Some? ==> Ascending(env, ns, snaps, p, i, d, all).0 == Failure(env, d, snaps[p[i]])
  {
    if Failure(env, d, snaps[p[i]]).None? && i + 1 < |p| && Index(d, ns[p[i + 1]].name).Ok? {
      var next := Index(d, ns[p[i + 1]].name).value;
      AscendingStep(env, ns, snaps, p, i, d, all, next);
      AscendingKeepsOthers(env, ns, snaps, p, i + 1, next, all[p[i] := NewValues(env, d, snaps[p[i]], all[p[i]])], p[i]);
    }
  }

  // ------------------------------------------------ values from widgets

  /**
   * One argument's value read from its widget: the widget's state, whose
   * reading may itself raise, goes through the argument's validator.
   */
  function FromWidget(env: MiscValidator.Env, arg: (string, MiscValidator.Spec), state: Result<Value>): Result<Value>
  {
    match state
    case Err(e) => Err(e)
    case Ok(v) => MiscValidator.Convert(env, arg.1, v)
  }

  /**
   * A widget value whose reading raised what `except Exception` lets
   * through (KeyboardInterrupt or SystemExit): it stops the walk.
   */
  predicate Escapes(outcome: Result<Value>)
  {
    outcome.Err? && !IsException(outcome.error)
  }

  /** No widget value of a node raises past `except Exception`. */
  predicate Calm(outcomes: seq<Result<Value>>)
  {
    forall k :: 0 <= k < |outcomes| ==> !Escapes(outcomes[k])
  }

  /** No widget value on the nodes of the path `p` from position `i` on escapes `except Exception`. */
  predicate CalmAlong(outs: seq<seq<Result<Value>>>, p: seq<nat>, i: nat)
    requires forall k :: 0 <= k < |p| ==> p[k] < |outs|
  {
    forall k :: i <= k < |p| ==> Calm(outs[p[k]])
  }

  /** What each argument of a node gets from its widget: the value it takes, or the exception raised. */
  function Outcomes(env: MiscValidator.Env, snap: seq<(string, MiscValidator.Spec)>, states: seq<Result<Value>>): (r: seq<Result<Value>>)
    requires |states| == |snap|
    ensures |r| == |snap|
  {
    seq(|snap|, k requires 0 <= k < |snap| => FromWidget(env, snap[k], states[k]))
  }

  /** The warning for an argument whose widget value was refused; `describe` is `str()` of the exception. */
  function Warning(prefix: string, name: string, e: Exc, describe: Exc -> string): string
  {
    "WARNING [" + prefix + "] (" + name + ") - " + describe(e)
  }

  /** The warning one argument's widget value gives: none when it is taken. */
  function WarningFor(name: string, outcome: Result<Value>, prefix: string, describe: Exc -> string): (r: seq<string>)
  {
    if outcome.Err? then [Warning(prefix, name, outcome.error, describe)] else []
  }

  /** The warnings one node adds: one per argument whose widget value is refused, in argument order. */
  function NodeWarnings(snap: seq<(string, MiscValidator.Spec)>, outcomes: seq<Result<Value>>, prefix: string,
                        describe: Exc -> string): (r: seq<string>)
    requires |outcomes| == |snap|
    decreases |snap|
  {
    if snap == [] then []
    else
      var n := |snap| - 1;
      NodeWarnings(snap[..n], outcomes[..n], prefix, describe) + WarningFor(snap[n].0, outcomes[n], prefix, describe)
  }

  /** A node's values after reading its widgets: a taken widget value replaces the old value, a refused one leaves it. */
  function WidgetValues(outcomes: seq<Result<Value>>, olds: seq<Value>): (r: seq<Value>)
    requires |outcomes| == |olds|
    ensures |r| == |olds|
  {
    seq(|olds|, k requires 0 <= k < |olds| => if outcomes[k].Ok? then outcomes[k].value else olds[k])
  }

  /** Every widget value of a node is taken. */
  predicate Accepted(outcomes: seq<Result<Value>>)
  {
    forall k :: 0 <= k < |outcomes| ==> outcomes[k].Ok?
  }

  /** A node raises no warning exactly when every one of its widget values is taken, and at most one per argument. */
  lemma {:induction false} NodeWarningsNone(snap: seq<(string, MiscValidator.Spec)>, outcomes: seq<Result<Value>>,
                                            prefix: string, describe: Exc -> string)
    requires |outcomes| == |snap|
    decreases |snap|
    ensures NodeWarnings(snap, outcomes, prefix, describe) == [] <==> Accepted(outcomes)
    ensures |NodeWarnings(snap, outcomes, prefix, describe)| <= |snap|
  {
    if snap != [] {
      var n := |snap| - 1;
      NodeWarningsNone(snap[..n], outcomes[..n], prefix, describe);
      assert forall k :: 0 <= k < n ==> outcomes[..n][k] == outcomes[k];
    }
  }

  /** Reading one more argument's widget adds that argument's warning, if any. */
  lemma NodeWarningsStep(snap: seq<(string, MiscValidator.Spec)>, outcomes: seq<Result<Value>>, prefix: string,
                         describe: Exc -> string, i: nat)
    requires i < |snap| == |outcomes|
    ensures NodeWarnings(snap[..i + 1], outcomes[..i + 1], prefix, describe) ==
              NodeWarnings(snap[..i], outcomes[..i], prefix, describe) + WarningFor(snap[i].0, outcomes[i], prefix, describe)
  {
    assert snap[..i + 1][..i] == snap[..i] && outcomes[..i + 1][..i] == outcomes[..i];
  }

  /**
   * The prefix built along the path: each name is appended, after a dot
   * unless the prefix so far is empty.
   */
  function Dotted(names: seq<string>): (r: string)
    decreases |names|
  {
    if names == [] then ""
    else
      var before := Dotted(names[..|names| - 1]);
      before + (if before != "" then "." else "") + names[|names| - 1]
  }

  /** With non-empty handler names the prefix is the names joined by dots. */
  lemma {:induction false} DottedJoin(names: seq<string>)
    requires forall k :: 0 <= k < |names| ==> names[k] != ""
    decreases |names|
    ensures Dotted(names) == Join(".", names)
    ensures names != [] ==> Dotted(names) != ""
  {
    if |names| > 1 {
      var n := |names| - 1;
      DottedJoin(names[..n]);
      JoinSnoc(".", names[..n], names[n]);
      assert names[..n] + [names[n]] == names;
    }
  }

  /** Joining with one more part puts the separator and the part at the end. */
  lemma {:induction false} JoinSnoc(sep: string, parts: seq<string>, last: string)
    requires parts != []
    decreases |parts|
    ensures Join(sep, parts + [last]) == Join(sep, parts) + sep + last
  {
    if |parts| > 1 {
      JoinSnoc(sep, parts[1..], last);
      assert (parts + [last])[1..] == parts[1..] + [last];
    }
  }

  /** Widget states that fit the snapshots: one state per argument. */
  predicate Fits(snaps: seq<seq<(string, MiscValidator.Spec)>>, states: seq<seq<Result<Value>>>)
  {
    |states| == |snaps| && forall q :: 0 <= q < |snaps| ==> |states[q]| == |snaps[q]|
  }

  /** What every argument of every node gets from its widget. */
  function AllOutcomes(env: MiscValidator.Env, snaps: seq<seq<(string, MiscValidator.Spec)>>, states: seq<seq<Result<Value>>>)
    : (r: seq<seq<Result<Value>>>)
    requires Fits(snaps, states)
    ensures Fits(snaps, r)
  {
    seq(|snaps|, q requires 0 <= q < |snaps| => Outcomes(env, snaps[q], states[q]))
  }

  /** The warnings of the whole path: each node's, tagged with the prefix of the path up to it. */
  function PathWarnings(snaps: seq<seq<(string, MiscValidator.Spec)>>, outs: seq<seq<Result<Value>>>,
                        names: seq<string>, p: seq<nat>, describe: Exc -> string): (r: seq<string>)
    requires |names| == |p| && Fits(snaps, outs) && forall k :: 0 <= k < |p| ==> p[k] < |snaps|
    decreases |p|
  {
    if p == [] then []
    else
      var n := |p| - 1;
      PathWarnings(snaps, outs, names[..n], p[..n], describe)
        + NodeWarnings(snaps[p[n]], outs[p[n]], Dotted(names), describe)
  }

  /** Every node's values after reading the widgets of the nodes of the path, one node after another. */
  function WidgetsApplied(snaps: seq<seq<(string, MiscValidator.Spec)>>, outs: seq<seq<Result<Value>>>,
                          p: seq<nat>, all: seq<seq<Value>>): (r: seq<seq<Value>>)
    requires Shaped(snaps, all) && Fits(snaps, outs) && forall k :: 0 <= k < |p| ==> p[k] < |snaps|
    decreases |p|
    ensures Shaped(snaps, r)
  {
    if p == [] then all
    else
      var n := |p| - 1;
      var before := WidgetsApplied(snaps, outs, p[..n], all);
      before[p[n] := WidgetValues(outs[p[n]], before[p[n]])]
  }

  /** The path gives no warning exactly when every widget value on it is taken. */
  lemma {:induction false} PathWarningsNone(snaps: seq<seq<(string, MiscValidator.Spec)>>, outs: seq<seq<Result<Value>>>,
                                            names: seq<string>, p: seq<nat>, describe: Exc -> string)
    requires |names| == |p| && Fits(snaps, outs) && forall k :: 0 <= k < |p| ==> p[k] < |snaps|
    decreases |p|
    ensures PathWarnings(snaps, outs, names, p, describe) == [] <==>
              forall k :: 0 <= k < |p| ==> Accepted(outs[p[k]])
  {
    if p != [] {
      var n := |p| - 1;
      var before := PathWarnings(snaps, outs, names[..n], p[..n], describe);
      var here := NodeWarnings(snaps[p[n]], outs[p[n]], Dotted(names), describe);
      assert PathWarnings(snaps, outs, names, p, describe) == before + here;
      PathWarningsNone(snaps, outs, names[..n], p[..n], describe);
      NodeWarningsNone(snaps[p[n]], outs[p[n]], Dotted(names), describe);
      assert before == [] <==> forall k :: 0 <= k < n ==> Accepted(outs[p[k]]) by {
        assert forall k :: 0 <= k < n ==> p[..n][k] == p[k];
      }
      assert (forall k :: 0 <= k < |p| ==> Accepted(outs[p[k]])) <==>
             (forall k :: 0 <= k < n ==> Accepted(outs[p[k]])) && Accepted(outs[p[n]]);
    }
  }

  /**
   * On a path that visits each node once, each node of the path ends with
   * the values read from its widgets, and every other node keeps its values.
   */
  lemma {:induction false} WidgetsAppliedMeaning(snaps: seq<seq<(string, MiscValidator.Spec)>>,
                                                 outs: seq<seq<Result<Value>>>, p: seq<nat>, all: seq<seq<Value>>, q: nat)
    requires Shaped(snaps, all) && Fits(snaps, outs) && forall k :: 0 <= k < |p| ==> p[k] < |snaps|
    requires forall j, k :: 0 <= j < k < |p| ==> p[j] != p[k]
    requires q < |snaps|
    decreases |p|
    ensures q !in p ==> WidgetsApplied(snaps, outs, p, all)[q] == all[q]
    ensures q in p ==> WidgetsApplied(snaps, outs, p, all)[q] == WidgetValues(outs[q], all[q])
  {
    if p != [] {
      var n := |p| - 1;
      WidgetsAppliedMeaning(snaps, outs, p[..n], all, q);
      if q == p[n] {
        assert q !in p[..n];
      } else {
        assert q in p <==> q in p[..n] by {
          assert p == p[..n] + [p[n]];
        }
      }
    }
  }

  /**
   * One argument's value read from its widget: a refusal `except Exception`
   * catches becomes a warning, and KeyboardInterrupt or SystemExit is raised.
   */
  method TakeWidgetValue(env: MiscValidator.Env, arg: Argument, state: Result<Value>, prefix: string, describe: Exc -> string)
    returns (raised: Option<Exc>, w: seq<string>)
    requires arg.Valid()
    modifies arg
    ensures arg.Valid() && Fields(arg) == old(Fields(arg))
    ensures var outcome := FromWidget(env, (arg.name, arg.validator), state);
            && (raised.Some? <==> Escapes(outcome))
            && (raised.Some? ==> raised.value == outcome.error)
            && w == (if raised.Some? then [] else WarningFor(arg.name, outcome, prefix, describe))
    ensures FromWidget(env, (arg.name, arg.validator), state).Ok? ==> arg.value == FromWidget(env, (arg.name, arg.validator), state).value
    ensures FromWidget(env, (arg.name, arg.validator), state).Err? ==> arg.value == old(arg.value)
  {
    var refused: Option<Exc>;
    match state {
      case Err(e) =>
        refused := Some(e);
      case Ok(v) =>
        refused := arg.SetValue(env, v);
    }
    if refused.Some? && !IsException(refused.value) {
      raised, w := refused, [];
    } else {
      raised := None;
      w := if refused.Some? then [Warning(prefix, arg.name, refused.value, describe)] else [];
    }
  }

  /**
   * Reading the widgets of one node from argument `i` on, one after
   * another, with `vals` the values and `ws` the warnings so far: what
   * escapes `except Exception` ends the reading, raised.
   */
  function WidgetTurns(snap: seq<(string, MiscValidator.Spec)>, outcomes: seq<Result<Value>>, prefix: string,
                       describe: Exc -> string, i: nat, vals: seq<Value>, ws: seq<string>): (r: (Option<Exc>, seq<string>, seq<Value>))
    requires i <= |snap| == |outcomes| == |vals|
    decreases |snap| - i
    ensures |r.2| == |vals|
  {
    if i == |snap| then (None, ws, vals)
    else if Escapes(outcomes[i]) then (Some(outcomes[i].error), ws, vals)
    else
      WidgetTurns(snap, outcomes, prefix, describe, i + 1, if outcomes[i].Ok? then vals[i := outcomes[i].value] else vals,
                  ws + WarningFor(snap[i].0, outcomes[i], prefix, describe))
  }

  /**
   * Reading a node's widgets raises exactly when a widget value from
   * argument `i` on escapes `except Exception`; it then raises the first
   * such exception, and that argument and the ones after it keep their values.
   */
  lemma {:induction false} WidgetTurnsRaise(snap: seq<(string, MiscValidator.Spec)>, outcomes: seq<Result<Value>>,
                                            prefix: string, describe: Exc -> string, i: nat, vals: seq<Value>, ws: seq<string>)
    requires i <= |snap| == |outcomes| == |vals|
    decreases |snap| - i
    ensures var r := WidgetTurns(snap, outcomes, prefix, describe, i, vals, ws);
            r.0.Some? <==> exists k :: i <= k < |snap| && Escapes(outcomes[k])
    ensures var r := WidgetTurns(snap, outcomes, prefix, describe, i, vals, ws);
            r.0.Some? ==> exists k :: i <= k < |snap| && Escapes(outcomes[k]) && r.0.value == outcomes[k].error
                                      && r.2[k..] == vals[k..] && forall m :: i <= m < k ==> !Escapes(outcomes[m])
  {
    if i < |snap| && !Escapes(outcomes[i]) {
      var vals' := if outcomes[i].Ok? then vals[i := outcomes[i].value] else vals;
      var ws' := ws + WarningFor(snap[i].0, outcomes[i], prefix, describe);
      WidgetTurnsRaise(snap, outcomes, prefix, describe, i + 1, vals', ws');
      var r := WidgetTurns(snap, outcomes, prefix, describe, i + 1, vals', ws');
      if r.0.Some? {
        var k :| i + 1 <= k < |snap| && Escapes(outcomes[k]) && r.0.value == outcomes[k].error
                 && r.2[k..] == vals'[k..] && forall m :: i + 1 <= m < k ==> !Escapes(outcomes[m]);
        assert vals'[k..] == vals[k..];
      }
    }
  }

  /**
   * When no widget value from argument `i` on escapes, reading the widgets
   * one by one raises nothing and ends with the warnings and values
   * described per argument.
   */
  lemma {:induction false} WidgetTurnsMeaning(snap: seq<(string, MiscValidator.Spec)>, outcomes: seq<Result<Value>>,
                                              prefix: string, describe: Exc -> string, olds: seq<Value>, i: nat, vals: seq<Value>)
    requires i <= |snap| == |outcomes| == |olds| == |vals|
    requires vals == WidgetValues(outcomes, olds)[..i] + olds[i..]
    requires forall k :: i <= k < |snap| ==> !Escapes(outcomes[k])
    decreases |snap| - i
    ensures WidgetTurns(snap, outcomes, prefix, describe, i, vals, NodeWarnings(snap[..i], outcomes[..i], prefix, describe)) ==
              (None, NodeWarnings(snap, outcomes, prefix, describe), WidgetValues(outcomes, olds))
  {
    var goal := WidgetValues(outcomes, olds);
    if i == |snap| {
      assert snap[..i] == snap && outcomes[..i] == outcomes;
      assert vals == goal;
    } else {
      NodeWarningsStep(snap, outcomes, prefix, describe, i);
      var vals' := if outcomes[i].Ok? then vals[i := outcomes[i].value] else vals;
      assert vals' == goal[..i + 1] + olds[i + 1..];
      WidgetTurnsMeaning(snap, outcomes, prefix, describe, olds, i + 1, vals');
    }
  }

  /** The walk over a whole node where nothing escapes, from its first argument. */
  lemma WidgetTurnsWhole(snap: seq<(string, MiscValidator.Spec)>, outcomes: seq<Result<Value>>,
                         prefix: string, describe: Exc -> string, olds: seq<Value>)
    requires |snap| == |outcomes| == |olds| && Calm(outcomes)
    ensures WidgetTurns(snap, outcomes, prefix, describe, 0, olds, []) ==
              (None, NodeWarnings(snap, outcomes, prefix, describe), WidgetValues(outcomes, olds))
  {
    WidgetTurnsMeaning(snap, outcomes, prefix, describe, olds, 0, olds);
    assert NodeWarnings(snap[..0], outcomes[..0], prefix, describe) == [];
  }

  /**
   * The inner loop of `set_values_from_widgets_catching_errors_as_warnings_ascending`
   * on one node: every argument takes its widget value, and each refusal
   * `except Exception` catches is collected as a warning; KeyboardInterrupt
   * or SystemExit ends the loop, raised.
   */
  method SetValuesFromWidgets(env: MiscValidator.Env, args: seq<Argument>, states: seq<Result<Value>>, prefix: string,
                              describe: Exc -> string) returns (raised: Option<Exc>, warnings: seq<string>)
    requires Distinct(args) && |states| == |args| && forall a :: a in args ==> a.Valid()
    modifies args
    ensures forall a :: a in args ==> Fields(a) == old(Fields(a))
    ensures (raised, warnings, Values(args)) ==
              WidgetTurns(old(Snapshot(args)), Outcomes(env, old(Snapshot(args)), states), prefix, describe, 0, old(Values(args)), [])
  {
    ghost var snap := Snapshot(args);
    ghost var outs := Outcomes(env, snap, states);
    ghost var goal := WidgetTurns(snap, outs, prefix, describe, 0, Values(args), []);
    raised, warnings := None, [];
    var i := 0;
    while i < |args|
      invariant 0 <= i <= |args| && raised.None?
      invariant forall a :: a in args ==> Fields(a) == old(Fields(a))
      invariant goal == WidgetTurns(snap, outs, prefix, describe, i, Values(args), warnings)
    {
      assert args[i] in args;
      assert old(args[i].Valid());
      var ex, w := WidgetTurn(env, args, i, states, prefix, describe, snap, outs, warnings);
      if ex.Some? {
        return ex, warnings;
      }
      warnings := warnings + w;
      i := i + 1;
    }
  }

  /** The turn of argument `i` in reading one node's widgets, stated on the values of all its arguments. */
  method WidgetTurn(env: MiscValidator.Env, args: seq<Argument>, i: nat, states: seq<Result<Value>>, prefix: string,
                    describe: Exc -> string, ghost snap: seq<(string, MiscValidator.Spec)>, ghost outs: seq<Result<Value>>,
                    ghost ws: seq<string>) returns (raised: Option<Exc>, w: seq<string>)
    requires Distinct(args) && i < |args| == |snap| == |states| == |outs| && args[i].Valid()
    requires snap[i] == (args[i].name, args[i].validator) && outs[i] == FromWidget(env, snap[i], states[i])
    modifies args[i]
    ensures Fields(args[i]) == old(Fields(args[i]))
    ensures WidgetTurns(snap, outs, prefix, describe, i, old(Values(args)), ws) ==
              if raised.Some? then (raised, ws, Values(args))
              else WidgetTurns(snap, outs, prefix, describe, i + 1, Values(args), ws + w)
  {
    ghost var before := Values(args);
    raised, w := TakeWidgetValue(env, args[i], states[i], prefix, describe);
    assert forall k :: 0 <= k < |args| && k != i ==> args[k] != args[i];
    ValuesAfter(args, i, before);
    if outs[i].Err? {
      assert before[i := args[i].value] == before;
    }
  }

  /** The widget states of the arguments, shaped like the nodes' arguments. */
  predicate StatesShaped(ns: seq<Node>, states: seq<seq<Result<Value>>>)
  {
    |states| == |ns| && forall q :: 0 <= q < |ns| ==> |states[q]| == |ns[q].arguments|
  }

  /**
   * Reading the widgets of the node at `q` of the hierarchy, touching no
   * other node; where nothing escapes, it raises nothing and gives the
   * node's warnings and widget values.
   */
  method SetNodeFromWidgets(env: MiscValidator.Env, ns: seq<Node>, q: nat, states: seq<seq<Result<Value>>>, prefix: string,
                            describe: Exc -> string) returns (raised: Option<Exc>, warnings: seq<string>)
    requires OwnArguments(ns) && ArgumentsValid(ns) && q < |ns| && StatesShaped(ns, states)
    modifies ns[q].arguments
    ensures ArgumentsValid(ns) && AllSnaps(ns) == old(AllSnaps(ns))
    ensures var node := WidgetTurns(old(AllSnaps(ns))[q], Outcomes(env, old(AllSnaps(ns))[q], states[q]), prefix, describe,
                                    0, old(AllValues(ns))[q], []);
            && raised == node.0 && warnings == node.1 && AllValues(ns) == old(AllValues(ns))[q := node.2]
    ensures var outs := Outcomes(env, old(AllSnaps(ns))[q], states[q]);
            Calm(outs) ==>
              && raised.None? && warnings == NodeWarnings(old(AllSnaps(ns))[q], outs, prefix, describe)
              && AllValues(ns) == old(AllValues(ns))[q := WidgetValues(outs, old(AllValues(ns))[q])]
  {
    ArgumentsOfNodeValid(ns, q);
    ghost var snap, olds := Snapshot(ns[q].arguments), Values(ns[q].arguments);
    raised, warnings := SetValuesFromWidgets(env, ns[q].arguments, states[q], prefix, describe);
    if Calm(Outcomes(env, snap, states[q])) {
      WidgetTurnsWhole(snap, Outcomes(env, snap, states[q]), prefix, describe, olds);
    }
    forall r, m | 0 <= r < |ns| && 0 <= m < |ns[r].arguments|
      ensures Fields(ns[r].arguments[m]) == old(Fields(ns[r].arguments[m]))
      ensures r != q ==> ns[r].arguments[m].value == old(ns[r].arguments[m].value)
    {
      if r == q {
        assert ns[r].arguments[m] in ns[q].arguments;
      }
    }
    NodeUpdated(ns, q, old(AllSnaps(ns)), old(AllValues(ns)));
  }

  /**
   * Reading the widgets of the path from position `i` on, one node after
   * another: `prefix` is the prefix so far, `all` every node's values and
   * `ws` the warnings so far: a node whose reading raises ends the walk.
   */
  function WidgetsFrom(ns: seq<Node>, snaps: seq<seq<(string, MiscValidator.Spec)>>, outs: seq<seq<Result<Value>>>,
                       p: seq<nat>, describe: Exc -> string, i: nat, prefix: string, all: seq<seq<Value>>, ws: seq<string>)
    : (r: (Option<Exc>, seq<string>, seq<seq<Value>>))
    requires |ns| == |snaps| && Fits(snaps, outs) && Shaped(snaps, all) && i <= |p| && forall k :: 0 <= k < |p| ==> p[k] < |ns|
    decreases |p| - i
  {
    if i == |p| then (None, ws, all)
    else
      var q := p[i];
      var here := prefix + (if prefix != "" then "." else "") + ns[q].name;
      var node := WidgetTurns(snaps[q], outs[q], here, describe, 0, all[q], []);
      if node.0.Some? then (node.0, ws + node.1, all[q := node.2])
      else WidgetsFrom(ns, snaps, outs, p, describe, i + 1, here, all[q := node.2], ws + node.1)
  }

  /**
   * The walk from position `i` raises exactly when a widget value on a node
   * of the path from there on escapes `except Exception`, and what it
   * raises is never an exception `except Exception` catches.
   */
  lemma {:induction false} WidgetsFromRaise(ns: seq<Node>, snaps: seq<seq<(string, MiscValidator.Spec)>>,
                                            outs: seq<seq<Result<Value>>>, p: seq<nat>, describe: Exc -> string, i: nat,
                                            prefix: string, all: seq<seq<Value>>, ws: seq<string>)
    requires |ns| == |snaps| && Fits(snaps, outs) && Shaped(snaps, all) && i <= |p| && forall k :: 0 <= k < |p| ==> p[k] < |ns|
    decreases |p| - i
    ensures var r := WidgetsFrom(ns, snaps, outs, p, describe, i, prefix, all, ws);
            && (r.0.None? <==> CalmAlong(outs, p, i))
            && (r.0.Some? ==> !IsException(r.0.value))
  {
    if i < |p| {
      var q := p[i];
      var here := prefix + (if prefix != "" then "." else "") + ns[q].name;
      WidgetTurnsRaise(snaps[q], outs[q], here, describe, 0, all[q], []);
      var node := WidgetTurns(snaps[q], outs[q], here, describe, 0, all[q], []);
      assert node.0.None? <==> Calm(outs[q]);
      if node.0.None? {
        WidgetsFromRaise(ns, snaps, outs, p, describe, i + 1, here, all[q := node.2], ws + node.1);
      }
    }
  }

  /**
   * When no widget value on the path escapes, reading it node by node
   * raises nothing and ends with the warnings and values described per node.
   */
  lemma {:induction false} WidgetsFromMeaning(ns: seq<Node>, snaps: seq<seq<(string, MiscValidator.Spec)>>,
                                              outs: seq<seq<Result<Value>>>, p: seq<nat>, describe: Exc -> string, all: seq<seq<Value>>, i: nat)
    requires |ns| == |snaps| && Fits(snaps, outs) && Shaped(snaps, all) && i <= |p| && forall k :: 0 <= k < |p| ==> p[k] < |ns|
    requires CalmAlong(outs, p, i)
    decreases |p| - i
    ensures var names := PathNames(ns, p);
            WidgetsFrom(ns, snaps, outs, p, describe, i, Dotted(names[..i]), WidgetsApplied(snaps, outs, p[..i], all),
                        PathWarnings(snaps, outs, names[..i], p[..i], describe))
            == (None, PathWarnings(snaps, outs, names, p, describe), WidgetsApplied(snaps, outs, p, all))
  {
    var names := PathNames(ns, p);
    if i == |p| {
      assert names[..i] == names && p[..i] == p;
    } else {
      PathStep(snaps, outs, names, p, describe, all, i);
      var before := WidgetsApplied(snaps, outs, p[..i], all);
      WidgetTurnsWhole(snaps[p[i]], outs[p[i]], Dotted(names[..i + 1]), describe, before[p[i]]);
      WidgetsFromMeaning(ns, snaps, outs, p, describe, all, i + 1);
    }
  }

  /** One more node of the path: its prefix, its warnings and its values. */
  lemma PathStep(snaps: seq<seq<(string, MiscValidator.Spec)>>, outs: seq<seq<Result<Value>>>,
                 names: seq<string>, p: seq<nat>, describe: Exc -> string, all: seq<seq<Value>>, i: nat)
    requires Fits(snaps, outs) && Shaped(snaps, all) && i < |p| == |names| && forall k :: 0 <= k < |p| ==> p[k] < |snaps|
    ensures var before := Dotted(names[..i]);
            Dotted(names[..i + 1]) == before + (if before != "" then "." else "") + names[i]
    ensures PathWarnings(snaps, outs, names[..i + 1], p[..i + 1], describe) ==
              PathWarnings(snaps, outs, names[..i], p[..i], describe)
                + NodeWarnings(snaps[p[i]], outs[p[i]], Dotted(names[..i + 1]), describe)
    ensures var before := WidgetsApplied(snaps, outs, p[..i], all);
            WidgetsApplied(snaps, outs, p[..i + 1], all) == before[p[i] := WidgetValues(outs[p[i]], before[p[i]])]
  {
    assert names[..i + 1][..i] == names[..i] && p[..i + 1][..i] == p[..i];
  }

  /**
   * Read from the root with nothing escaping, the walk raises nothing, its
   * warnings are each node's warnings tagged with the dotted prefix up to
   * that node, and its values those of `WidgetsApplied`.
   */
  lemma WidgetsFromStart(ns: seq<Node>, snaps: seq<seq<(string, MiscValidator.Spec)>>,
                         outs: seq<seq<Result<Value>>>, p: seq<nat>, describe: Exc -> string, all: seq<seq<Value>>)
    requires |ns| == |snaps| && Fits(snaps, outs) && Shaped(snaps, all) && forall k :: 0 <= k < |p| ==> p[k] < |ns|
    requires CalmAlong(outs, p, 0)
    ensures WidgetsFrom(ns, snaps, outs, p, describe, 0, "", all, [])
              == (None, PathWarnings(snaps, outs, PathNames(ns, p), p, describe), WidgetsApplied(snaps, outs, p, all))
  {
    WidgetsFromMeaning(ns, snaps, outs, p, describe, all, 0);
    assert p[..0] == [] && PathNames(ns, p)[..0] == [];
  }

  /**
   * `set_values_from_widgets_catching_errors_as_warnings_ascending`: from
   * the root down to the node, every argument takes the value of its
   * widget, and each refusal `except Exception` catches becomes a warning
   * tagged with the dotted names of the path so far and the argument's
   * name. A KeyboardInterrupt or SystemExit from a widget ends the walk,
   * raised, with the values taken before it kept: the walk raises exactly
   * when some widget value on the path escapes, and only such exceptions.
   */
  method SetValuesFromWidgetsAscending(env: MiscValidator.Env, ns: seq<Node>, j: nat, states: seq<seq<Result<Value>>>,
                                       describe: Exc -> string) returns (raised: Option<Exc>, warnings: seq<string>)
    requires WellFormed(ns) && OwnArguments(ns) && ArgumentsValid(ns) && j < |ns| && StatesShaped(ns, states)
    modifies ArgObjects(ns)
    ensures ArgumentsValid(ns)
    ensures (raised, warnings, AllValues(ns)) == WidgetsFrom(ns, old(AllSnaps(ns)), AllOutcomes(env, old(AllSnaps(ns)), states), TopDown(ns, j), describe, 0, "", old(AllValues(ns)), [])
    ensures var outs, p := AllOutcomes(env, old(AllSnaps(ns)), states), TopDown(ns, j);
            && (raised.None? <==> CalmAlong(outs, p, 0))
            && (raised.Some? ==> !IsException(raised.value))
  {
    TopDownShape(ns, j);
    var p := TopDown(ns, j);
    ghost var snaps, all := AllSnaps(ns), AllValues(ns);
    ghost var outs := AllOutcomes(env, snaps, states);
    raised, warnings := SetValuesFromWidgetsAlong(env, ns, p, states, describe);
    WidgetsFromRaise(ns, snaps, outs, p, describe, 0, "", all, []);
    assert raised == WidgetsFrom(ns, snaps, outs, p, describe, 0, "", all, []).0;
  }

  /** The walk of `set_values_from_widgets_catching_errors_as_warnings_ascending` down any path of nodes. */
  method SetValuesFromWidgetsAlong(env: MiscValidator.Env, ns: seq<Node>, p: seq<nat>, states: seq<seq<Result<Value>>>,
                                   describe: Exc -> string) returns (raised: Option<Exc>, warnings: seq<string>)
    requires OwnArguments(ns) && ArgumentsValid(ns) && StatesShaped(ns, states) && forall k :: 0 <= k < |p| ==> p[k] < |ns|
    modifies ArgObjects(ns)
    ensures ArgumentsValid(ns)
    ensures (raised, warnings, AllValues(ns)) == WidgetsFrom(ns, old(AllSnaps(ns)), AllOutcomes(env, old(AllSnaps(ns)), states), p, describe, 0, "", old(AllValues(ns)), [])
  {
    ghost var snaps := AllSnaps(ns);
    ghost var outs := AllOutcomes(env, snaps, states);
    ghost var goal := WidgetsFrom(ns, snaps, outs, p, describe, 0, "", AllValues(ns), []);
    var prefix := "";
    raised, warnings := None, [];
    var i := 0;
    while i < |p|
      invariant 0 <= i <= |p| && ArgumentsValid(ns) && AllSnaps(ns) == snaps && raised.None?
      invariant goal == WidgetsFrom(ns, snaps, outs, p, describe, i, prefix, AllValues(ns), warnings)
    {
      ArgumentsOf(ns, p[i]);
      var ex, w;
      prefix, ex, w := WidgetsStep(env, ns, snaps, states, outs, p, i, prefix, describe, warnings);
      warnings := warnings + w;
      if ex.Some? {
        return ex, warnings;
      }
      i := i + 1;
    }
  }

  /** One node of the path: its prefix is extended by its name, then its widgets are read. */
  method WidgetsStep(env: MiscValidator.Env, ns: seq<Node>, ghost snaps: seq<seq<(string, MiscValidator.Spec)>>, states: seq<seq<Result<Value>>>,
                     ghost outs: seq<seq<Result<Value>>>, p: seq<nat>, i: nat, prefix: string, describe: Exc -> string, ghost ws: seq<string>)
    returns (here: string, raised: Option<Exc>, w: seq<string>)
    requires OwnArguments(ns) && ArgumentsValid(ns) && AllSnaps(ns) == snaps && StatesShaped(ns, states)
    requires Fits(snaps, states) && outs == AllOutcomes(env, snaps, states)
    requires i < |p| && forall k :: 0 <= k < |p| ==> p[k] < |ns|
    modifies ns[p[i]].arguments
    ensures ArgumentsValid(ns) && AllSnaps(ns) == snaps
    ensures WidgetsFrom(ns, snaps, outs, p, describe, i, prefix, old(AllValues(ns)), ws) ==
              if raised.Some? then (raised, ws + w, AllValues(ns))
              else WidgetsFrom(ns, snaps, outs, p, describe, i + 1, here, AllValues(ns), ws + w)
  {
    here := prefix + (if prefix != "" then "." else "") + ns[p[i]].name;
    raised, w := SetNodeFromWidgets(env, ns, p[i], states, here, describe);
  }

  // ------------------------------------------------ choosing a strategy

  /** A keyword given both in the positional dict and as a keyword argument. */
  predicate Overlapping(given: seq<(Value, Value)>, kwargs: seq<(Value, Value)>)
  {
    exists k :: k in Keys(given) && k in Keys(kwargs)
  }

  /**
   * The positional-argument checks of `choose_strategy`, as written: the
   * keyword arguments to run with, and whether None was passed explicitly.
   * More than one positional raises ValueError, one that is neither None
   * nor a dict raises TypeError, and a dict sharing keys with the keyword
   * arguments raises ValueError. The merge then updates the keyword
   * arguments from the tuple of positionals rather than from the dict:
   * the tuple's one element, the dict, is read as a key and value pair, so
   * only a dict of exactly two keys gets through, storing its second key
   * under its first.
   */
  function CollectArgumentsAsWritten(args: seq<Value>, kwargs: seq<(Value, Value)>): (r: Result<(seq<(Value, Value)>, bool)>)
    ensures r.Err? <==> |args| > 1 || (|args| == 1 && ((!args[0].NoneV? && !args[0].DictV?)
                          || (args[0].DictV? && (Overlapping(args[0].entries, kwargs) || |args[0].entries| != 2))))
    ensures |args| == 1 && args[0].DictV? && |args[0].entries| != 2 ==> r.Err? && r.error.ValueError?
    ensures r.Ok? ==> (r.value.1 <==> |args| == 1 && args[0].NoneV?)
    ensures r.Ok? && |args| == 1 && args[0].DictV? ==>
              r.value.0 == Set(kwargs, args[0].entries[0].0, args[0].entries[1].0)
  {
    if |args| == 0 then Ok((kwargs, false))
    else if |args| > 1 then Err(ValueError(Message("No more than one positional argument may be provided")))
    else match args[0]
      case NoneV => Ok((kwargs, true))
      case DictV(given) =>
        if Overlapping(given, kwargs) then Err(ValueError(Message("The following arguments were provided twice")))
        else if |given| != 2 then Err(ValueError(Message("dictionary update sequence element #0 has length " + NatStr(|given|) + "; 2 is required")))
        else Ok((Set(kwargs, given[0].0, given[1].0), false))
      case _ => Err(TypeError("May only provide dict or None"))
  }

  /** `d |= other` for a dict `other`: each of its entries in turn is stored in `d`. */
  function Update(d: seq<(Value, Value)>, other: seq<(Value, Value)>): (r: seq<(Value, Value)>)
    decreases |other|
  {
    if other == [] then d else Update(Set(d, other[0].0, other[0].1), other[1..])
  }

  /** After an update, a key of the other dict holds its value there, and any other key keeps its value. */
  lemma {:induction false} UpdateGet(d: seq<(Value, Value)>, other: seq<(Value, Value)>, k: Value)
    requires Distinct(Keys(other))
    decreases |other|
    ensures Get(Update(d, other), k) == if HasKey(other, k) then Get(other, k) else Get(d, k)
  {
    if other != [] {
      EntriesTail(other, k);
      UpdateGet(Set(d, other[0].0, other[0].1), other[1..], k);
    }
  }

  /** The entries after the first of a dict with distinct keys have distinct keys, none of them the first. */
  lemma EntriesTail(other: seq<(Value, Value)>, k: Value)
    requires other != [] && Distinct(Keys(other))
    ensures Distinct(Keys(other[1..]))
    ensures k == other[0].0 ==> !HasKey(other[1..], k)
    ensures k != other[0].0 ==> (HasKey(other, k) <==> HasKey(other[1..], k))
  {
    var keys, tail := Keys(other), other[1..];
    forall i, j | 0 <= i < j < |tail| ensures Keys(tail)[i] != Keys(tail)[j] {
      assert keys[i + 1] != keys[j + 1];
    }
    forall i | 0 <= i < |tail| ensures tail[i].0 != other[0].0 {
      assert keys[0] != keys[i + 1];
    }
    OtherKeyTail(other, k);
  }

  /** A key other than the first entry's is in a dict exactly when it is in the entries after the first. */
  lemma OtherKeyTail(other: seq<(Value, Value)>, k: Value)
    requires other != []
    ensures k != other[0].0 ==> (HasKey(other, k) <==> HasKey(other[1..], k))
  {
    if k != other[0].0 && HasKey(other, k) {
      var i :| 0 <= i < |other| && other[i].0 == k;
      assert other[1..][i - 1].0 == k;
    }
    if HasKey(other[1..], k) {
      var i :| 0 <= i < |other[1..]| && other[1..][i].0 == k;
      assert other[i + 1].0 == k;
    }
  }

  /**
   * The positional-argument checks of `choose_strategy` with the dict
   * merged into the keyword arguments, as the overlap check before the
   * merge evidently intends.
   */
  function CollectArguments(args: seq<Value>, kwargs: seq<(Value, Value)>): (r: Result<(seq<(Value, Value)>, bool)>)
    ensures |args| > 1 ==> r.Err? && r.error.ValueError?
    ensures |args| == 1 && !args[0].NoneV? && !args[0].DictV? ==> r.Err? && r.error.TypeError?
    ensures |args| == 1 && args[0].DictV? && Overlapping(args[0].entries, kwargs) ==> r.Err? && r.error.ValueError?
    ensures r.Err? <==> |args| > 1 || (|args| == 1 && ((!args[0].NoneV? && !args[0].DictV?) || (args[0].DictV? && Overlapping(args[0].entries, kwargs))))
    ensures r.Ok? ==> (r.value.1 <==> |args| == 1 && args[0].NoneV?)
    ensures r.Ok? && !(|args| == 1 && args[0].DictV?) ==> r.value.0 == kwargs
  {
    if |args| == 0 then Ok((kwargs, false))
    else if |args| > 1 then Err(ValueError(Message("No more than one positional argument may be provided")))
    else match args[0]
      case NoneV => Ok((kwargs, true))
      case DictV(given) =>
        if Overlapping(given, kwargs) then Err(ValueError(Message("The following arguments were provided twice")))
        else Ok((Update(kwargs, given), false))
      case _ => Err(TypeError("May only provide dict or None"))
  }

  /** With the dict merged, every keyword given either way is there with the value it was given. */
  lemma MergedArguments(given: seq<(Value, Value)>, kwargs: seq<(Value, Value)>, k: Value)
    requires Distinct(Keys(given)) && !Overlapping(given, kwargs)
    ensures CollectArguments([DictV(given)], kwargs) == Ok((Update(kwargs, given), false))
    ensures HasKey(given, k) ==> Get(Update(kwargs, given), k) == Get(given, k)
    ensures HasKey(kwargs, k) ==> Get(Update(kwargs, given), k) == Get(kwargs, k)
    ensures !HasKey(given, k) && !HasKey(kwargs, k) ==> Get(Update(kwargs, given), k).None?
  {
    assert CollectArguments([DictV(given)], kwargs) == Ok((Update(kwargs, given), false));
    UpdateGet(kwargs, given, k);
    KeysHasKey(given, k);
    KeysHasKey(kwargs, k);
    assert !(k in Keys(given) && k in Keys(kwargs));
  }

  /**
   * As written, a dict of one keyword passed positionally is refused with
   * a ValueError, where the merge keeps it; a dict of two keywords stores
   * its second key under its first.
   */
  lemma PositionalDictRefused()
    ensures CollectArgumentsAsWritten([DictV([(StrV("verbose"), BoolV(true))])], []).Err?
    ensures CollectArguments([DictV([(StrV("verbose"), BoolV(true))])], []) == Ok(([(StrV("verbose"), BoolV(true))], false))
    ensures CollectArgumentsAsWritten([DictV([(StrV("a"), IntV(1)), (StrV("b"), IntV(2))])], []) == Ok(([(StrV("a"), StrV("b"))], false))
  {
    assert !Overlapping([(StrV("verbose"), BoolV(true))], []);
    assert !Overlapping([(StrV("a"), IntV(1)), (StrV("b"), IntV(2))], []);
  }

  /** The root handler's `run_mode`. */
  datatype RunMode = Smart | CommandlineMode | GuiMode | ProgrammaticMode

  /** The ways `choose_strategy` can collect the arguments. */
  datatype Strategy = RunFromCommandline | RunAsGui | RunProgrammatically

  /**
   * Which way `choose_strategy` collects the arguments. In SMART mode an
   * explicit None, any keyword argument or an interactive interpreter
   * select the programmatic run, and otherwise the GUI is used exactly when
   * the command line carries no arguments; any other mode names its way.
   */
  function ChooseStrategy(mode: RunMode, explicitNone: bool, allKwargs: seq<(Value, Value)>, inIPython: bool, argv: seq<string>): (s: Strategy)
    ensures mode == Smart && (explicitNone || allKwargs != [] || inIPython) ==> s == RunProgrammatically
    ensures mode == Smart && !explicitNone && allKwargs == [] && !inIPython ==> (s == RunAsGui <==> |argv| <= 1) && s != RunProgrammatically
    ensures mode == CommandlineMode ==> s == RunFromCommandline
    ensures mode == GuiMode ==> s == RunAsGui
    ensures mode == ProgrammaticMode ==> s == RunProgrammatically
  {
    match mode
    case Smart =>
      if explicitNone || allKwargs != [] || inIPython then RunProgrammatically
      else if |argv| <= 1 then RunAsGui
      else RunFromCommandline
    case CommandlineMode => RunFromCommandline
    case GuiMode => RunAsGui
    case ProgrammaticMode => RunProgrammatically
  }

  /**
   * `run_programatically`, once the node has been chosen strictly from the
   * arguments (`chosen`): when there are any arguments, the values along
   * the path to the node are set from them. The result is the chosen node
   * or the exception raised, and every node's values afterwards.
   */
  function Programmatic(env: MiscValidator.Env, ns: seq<Node>, snaps: seq<seq<(string, MiscValidator.Spec)>>, args: seq<(Value, Value)>,
                        chosen: Result<nat>, all: seq<seq<Value>>): (r: (Result<nat>, seq<seq<Value>>))
    requires WellFormed(ns) && |ns| == |snaps| && Shaped(snaps, all) && (chosen.Ok? ==> chosen.value < |ns|)
  {
    match chosen
    case Err(e) => (Err(e), all)
    case Ok(j) =>
      if args == [] then (Ok(j), all)
      else
        var walk := Ascending(env, ns, snaps, TopDown(ns, j), 0, DictV(args), all);
        (if walk.0.Some? then Err(walk.0.value) else Ok(j), walk.1)
  }

  /**
   * A programmatic run ends at a leaf, changes no value when it raises
   * before reaching one or has no arguments, and otherwise ends as the
   * ascending walk from the root with the whole dict.
   */
  lemma ProgrammaticLeaf(env: MiscValidator.Env, ns: seq<Node>, snaps: seq<seq<(string, MiscValidator.Spec)>>, args: seq<(Value, Value)>,
                         all: seq<seq<Value>>)
    requires WellFormed(ns) && |ns| == |snaps| && Shaped(snaps, all)
    ensures var r := Programmatic(env, ns, snaps, args, Chosen(ns, 0, DictV(args), true), all);
            r.0.Ok? ==> r.0.value < |ns| && ns[r.0.value].children == []
    ensures var r := Programmatic(env, ns, snaps, args, Chosen(ns, 0, DictV(args), true), all);
            Chosen(ns, 0, DictV(args), true).Err? || args == [] ==> r.1 == all
    ensures var r := Programmatic(env, ns, snaps, args, Chosen(ns, 0, DictV(args), true), all);
            Chosen(ns, 0, DictV(args), true).Err? ==> r.0 == Chosen(ns, 0, DictV(args), true)
  {
    var c := Chosen(ns, 0, DictV(args), true);
    ProgrammaticOutcome(env, ns, snaps, args, c, all);
  }

  lemma ProgrammaticOutcome(env: MiscValidator.Env, ns: seq<Node>, snaps: seq<seq<(string, MiscValidator.Spec)>>, args: seq<(Value, Value)>,
                            c: Result<nat>, all: seq<seq<Value>>)
    requires WellFormed(ns) && |ns| == |snaps| && Shaped(snaps, all)
    requires c.Ok? ==> c.value < |ns| && ns[c.value].children == []
    ensures var r := Programmatic(env, ns, snaps, args, c, all);
            (r.0.Ok? ==> r.0.value < |ns| && ns[r.0.value].children == []) &&
            (c.Err? || args == [] ==> r.1 == all) && (c.Err? ==> r.0 == c)
  {
  }

  /** `run_programatically`, with the node chosen as `DetermineChosenNode` chooses it. */
  method RunProgrammaticallyMethod(env: MiscValidator.Env, ns: seq<Node>, args: seq<(Value, Value)>) returns (r: Result<nat>)
    requires WellFormed(ns) && OwnArguments(ns) && ArgumentsValid(ns)
    modifies ArgObjects(ns)
    ensures ArgumentsValid(ns)
    ensures (r, AllValues(ns)) == Programmatic(env, ns, old(AllSnaps(ns)), args, Chosen(ns, 0, DictV(args), true), old(AllValues(ns)))
  {
    ghost var snaps, all := AllSnaps(ns), AllValues(ns);
    r := Chosen(ns, 0, DictV(args), true);
    if r.Err? || args == [] {
      return;
    }
    var j := r.value;
    ghost var walk := Ascending(env, ns, snaps, TopDown(ns, j), 0, DictV(args), all);
    assert Programmatic(env, ns, snaps, args, r, all) == (if walk.0.Some? then Err(walk.0.value) else Ok(j), walk.1);
    var raised := SetValuesFromNamespaceAscending(env, ns, j, DictV(args));
    assert (raised, AllValues(ns)) == walk;
    if raised.Some? {
      r := Err(raised.value);
    }
  }
}
