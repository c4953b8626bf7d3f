/**
 * The slice of Python's runtime that the modelled library relies on:
 * dynamically typed values, insertion-ordered dicts, the exceptions the
 * library raises or catches, and the ASCII part of the `str` methods it
 * calls (`isidentifier`, `isalnum`, `lower`, `strip`, `split`, `join`).
 */
module Python {

  datatype Option<T> = None | Some(value: T)

  /** Why a ValueError was raised; every case is the Python class ValueError. */
  datatype ValueReason =
    | NotAChoice                       // value outside the validator's choices
    | ConditionFailed(index: nat)      // the condition at this position returned a falsy result
    | Message(text: string)            // any other ValueError

  /** The exception classes the library raises, catches or lets escape. */
  datatype Exc =
    | ValueError(reason: ValueReason)
    | TypeConversionError
    | TypeError(text: string)
    | RuntimeError(text: string)
    | NameError(text: string)
    | AttributeError(text: string)
    | KeyError
    | IndexError
    | KeyboardInterrupt
    | UnknownTypeError
    | SystemExit
    | Foreign(text: string)            // raised by code outside the model (a constructor, a callback)

  /** An exception `except Exception` catches: anything but KeyboardInterrupt and SystemExit. */
  predicate IsException(e: Exc)
  {
    !(e.KeyboardInterrupt? || e.SystemExit?)
  }

  datatype Result<T> = Ok(value: T) | Err(error: Exc)

  /**
   * A Python object as far as the library inspects it. Dicts are kept as
   * insertion-ordered entry lists; `Obj` stands for any other object
   * (a date, a path, a user class instance) identified by its type name.
   */
  datatype Value =
    | NoneV
    | BoolV(b: bool)
    | IntV(i: int)
    | StrV(s: string)
    | ListV(items: seq<Value>)
    | DictV(entries: seq<(Value, Value)>)
    | Obj(typeName: string, id: nat)

  /** Python's `bool(v)`. */
  predicate Truthy(v: Value)
  {
    match v
    case NoneV => false
    case BoolV(b) => b
    case IntV(i) => i != 0
    case StrV(s) => s != ""
    case ListV(items) => items != []
    case DictV(entries) => entries != []
    case Obj(_, _) => true
  }

  /** What `for x in v` visits: list items, dict keys, or nothing for a non-iterable. */
  function Iterate(v: Value): (r: Option<seq<Value>>)
    ensures v.ListV? ==> r == Some(v.items)
    ensures v.DictV? ==> r.Some? && |r.value| == |v.entries|
    ensures !v.ListV? && !v.DictV? && !v.StrV? ==> r == None
  {
    match v
    case ListV(items) => Some(items)
    case DictV(entries) => Some(Keys(entries))
    case StrV(s) => Some(seq(|s|, i requires 0 <= i < |s| => StrV([s[i]])))
    case _ => None
  }

  /** Whether `hash(v)` succeeds: lists and dicts are unhashable. */
  predicate Hashable(v: Value)
  {
    !v.ListV? && !v.DictV?
  }

  /** What building a `set` of the items raises: the first unhashable item's TypeError, if any. */
  function Unhashable(items: seq<Value>): (r: Option<Exc>)
    ensures r.None? <==> forall j :: 0 <= j < |items| ==> Hashable(items[j])
    ensures r.Some? ==> r.value.TypeError?
  {
    if items == [] then None
    else if items[0].ListV? then Some(TypeError("unhashable type: 'list'"))
    else if items[0].DictV? then Some(TypeError("unhashable type: 'dict'"))
    else Unhashable(items[1..])
  }

  // ---------------------------------------------------------------- dicts

  function Keys<K, V>(entries: seq<(K, V)>): (r: seq<K>)
    ensures |r| == |entries|
    ensures forall i :: 0 <= i < |entries| ==> r[i] == entries[i].0
  {
    if entries == [] then [] else [entries[0].0] + Keys(entries[1..])
  }

  predicate HasKey<K(==), V>(entries: seq<(K, V)>, k: K)
  {
    exists i :: 0 <= i < |entries| && entries[i].0 == k
  }

  /** `d[k]`: the value stored under the first entry with key `k`. */
  function Get<K(==), V>(entries: seq<(K, V)>, k: K): (r: Option<V>)
    ensures r.None? <==> !HasKey(entries, k)
    ensures r.Some? ==> exists i :: 0 <= i < |entries| && entries[i] == (k, r.value)
  {
    if entries == [] then None
    else if entries[0].0 == k then Some(entries[0].1)
    else
      var rest := Get(entries[1..], k);
      assert forall i :: 0 < i < |entries| ==> entries[i] == entries[1..][i - 1];
      assert rest.Some? ==> exists i :: 0 <= i < |entries| && entries[i] == (k, rest.value) by {
        if rest.Some? {
          var j :| 0 <= j < |entries[1..]| && entries[1..][j] == (k, rest.value);
          assert entries[j + 1] == (k, rest.value);
        }
      }
      rest
  }

  /** A key is among a dict's keys exactly when the dict has it. */
  lemma KeysHasKey<K, V>(entries: seq<(K, V)>, k: K)
    ensures k in Keys(entries) <==> HasKey(entries, k)
  {
    if k in Keys(entries) {
      var i :| 0 <= i < |entries| && Keys(entries)[i] == k;
      assert entries[i].0 == k;
    }
  }

  /** A key is in a non-empty dict when it is the first key or a key of the rest. */
  lemma HasKeyTail<K, V>(entries: seq<(K, V)>, k: K)
    requires entries != []
    ensures HasKey(entries, k) <==> entries[0].0 == k || HasKey(entries[1..], k)
  {
    if HasKey(entries, k) && entries[0].0 != k {
      var i :| 0 <= i < |entries| && entries[i].0 == k;
      assert entries[1..][i - 1].0 == k;
    }
    if HasKey(entries[1..], k) {
      var i :| 0 <= i < |entries[1..]| && entries[1..][i].0 == k;
      assert entries[i + 1].0 == k;
    }
  }

  /**
   * `d[k] = v`: an existing key keeps its position and gets the new value,
   * a new key is appended at the end.
   */
  function Set<K(==,!new), V>(entries: seq<(K, V)>, k: K, v: V): (r: seq<(K, V)>)
    ensures HasKey(entries, k) ==> |r| == |entries|
    ensures !HasKey(entries, k) ==> r == entries + [(k, v)]
    ensures Get(r, k) == Some(v)
    ensures forall k' :: k' != k ==> Get(r, k') == Get(entries, k')
  {
    if entries == [] then [(k, v)]
    else if entries[0].0 == k then
      var r := [(k, v)] + entries[1..];
      assert r[1..] == entries[1..];
      r
    else
      var rest := Set(entries[1..], k, v);
      HasKeyTail(entries, k);
      var r := [entries[0]] + rest;
      assert r[1..] == rest && r[0] == entries[0];
      r
  }

  /** Every key of the dict is hashable, as inserting into a `dict` demands. */
  predicate KeysHashable(entries: seq<(Value, Value)>)
  {
    forall j :: 0 <= j < |entries| ==> Hashable(entries[j].0)
  }

  /** `d[k] = v` with a hashable key keeps every key hashable. */
  lemma {:induction false} SetKeepsHashable(entries: seq<(Value, Value)>, k: Value, v: Value)
    requires KeysHashable(entries) && Hashable(k)
    ensures KeysHashable(Set(entries, k, v))
  {
    if entries != [] && entries[0].0 != k {
      SetKeepsHashable(entries[1..], k, v);
      assert Set(entries, k, v) == [entries[0]] + Set(entries[1..], k, v);
    }
  }

  // ---------------------------------------------------------- characters

  predicate IsAsciiLetter(c: char) { 'a' <= c <= 'z' || 'A' <= c <= 'Z' }
  predicate IsDigit(c: char) { '0' <= c <= '9' }
  predicate IsAlnum(c: char) { IsAsciiLetter(c) || IsDigit(c) }

  /** `str.isidentifier()` restricted to ASCII. */
  predicate IsIdentifier(s: string)
  {
    |s| > 0 && (IsAsciiLetter(s[0]) || s[0] == '_')
    && forall i :: 0 < i < |s| ==> IsAlnum(s[i]) || s[i] == '_'
  }

  function LowerChar(c: char): (r: char)
    ensures IsAlnum(c) ==> IsAlnum(r) && !('A' <= r <= 'Z')
    ensures !('A' <= c <= 'Z') ==> r == c
  {
    if 'A' <= c <= 'Z' then (c as int + 32) as char else c
  }

  function Lower(s: string): (r: string)
    ensures |r| == |s|
    ensures forall i :: 0 <= i < |s| ==> r[i] == LowerChar(s[i])
  {
    if s == [] then [] else [LowerChar(s[0])] + Lower(s[1..])
  }

  predicate IsSpace(c: char) { c == ' ' || c == '\t' || c == '\n' || c == '\r' || c == '\U{000B}' || c == '\U{000C}' }

  function StripLeft(s: string): (r: string)
    ensures |r| <= |s| && r == s[|s| - |r|..]
    ensures r == [] || !IsSpace(r[0])
  {
    if s != [] && IsSpace(s[0]) then StripLeft(s[1..]) else s
  }

  function StripRight(s: string): (r: string)
    ensures |r| <= |s| && r == s[..|r|]
    ensures r == [] || !IsSpace(r[|r| - 1])
  {
    if s != [] && IsSpace(s[|s| - 1]) then StripRight(s[..|s| - 1]) else s
  }

  /** `str.strip()` with the ASCII whitespace set. */
  function Strip(s: string): (r: string)
    ensures |r| <= |s|
    ensures r == [] || (!IsSpace(r[0]) && !IsSpace(r[|r| - 1]))
  {
    StripRight(StripLeft(s))
  }

  /** `s * n`: empty for n <= 0. */
  function Repeat(s: string, n: int): (r: string)
    ensures n <= 0 ==> r == []
    ensures n > 0 ==> |r| == |s| * n
    decreases if n < 0 then 0 else n
  {
    if n <= 0 then [] else s + Repeat(s, n - 1)
  }

  /** The `k`-th copy in `s * n` is `s` itself. */
  lemma {:induction false} RepeatPiece(s: string, n: int, k: nat)
    requires k < n
    ensures |s| * k + |s| <= |Repeat(s, n)| && Repeat(s, n)[|s| * k .. |s| * k + |s|] == s
  {
    var m := |s|;
    var r := Repeat(s, n);
    var rest := Repeat(s, n - 1);
    assert r == s + rest;
    assert |r| == m + |rest|;
    if k > 0 {
      RepeatPiece(s, n - 1, k - 1);
      MulStep(m, k);
      assert r[m * k .. m * k + m] == rest[m * (k - 1) .. m * (k - 1) + m];
    }
  }

  /** One more copy adds one more length. */
  lemma MulStep(m: nat, k: nat)
    requires k > 0
    ensures m * k == m * (k - 1) + m
  {
  }

  /** Repetition distributes over addition of counts. */
  lemma {:induction false} RepeatAdd(s: string, a: nat, b: nat)
    ensures Repeat(s, a + b) == Repeat(s, a) + Repeat(s, b)
  {
    if a > 0 {
      RepeatAdd(s, a - 1, b);
      calc {
        Repeat(s, a + b);
        s + Repeat(s, (a - 1) + b);
        s + (Repeat(s, a - 1) + Repeat(s, b));
        (s + Repeat(s, a - 1)) + Repeat(s, b);
        Repeat(s, a) + Repeat(s, b);
      }
    } else {
      assert Repeat(s, a) == [];
    }
  }

  // ------------------------------------------------------ split and join

  /** `s.split(sep)` for a one-character separator: never empty, `"".split(x) == [""]`. */
  function Split(s: string, sep: char): (r: seq<string>)
    ensures |r| >= 1
    ensures forall i :: 0 <= i < |r| ==> sep !in r[i]
  {
    if s == [] then [""]
    else
      var rest := Split(s[1..], sep);
      if s[0] == sep then [""] + rest
      else [[s[0]] + rest[0]] + rest[1..]
  }

  /** `sep.join(parts)`. */
  function Join(sep: string, parts: seq<string>): string
  {
    if parts == [] then ""
    else if |parts| == 1 then parts[0]
    else parts[0] + sep + Join(sep, parts[1..])
  }

  lemma JoinCons(sep: string, c: char, parts: seq<string>)
    requires |parts| >= 1
    ensures Join(sep, [[c] + parts[0]] + parts[1..]) == [c] + Join(sep, parts)
  {
    var ps := [[c] + parts[0]] + parts[1..];
    assert ps[1..] == parts[1..];
  }

  /** Joining the pieces of a split gives the text back. */
  lemma {:induction false} JoinSplit(s: string, sep: char)
    ensures Join([sep], Split(s, sep)) == s
  {
    if s != [] {
      var rest := Split(s[1..], sep);
      JoinSplit(s[1..], sep);
      if s[0] == sep {
        assert ([""] + rest)[1..] == rest;
        assert s == [sep] + s[1..];
      } else {
        JoinCons([sep], s[0], rest);
        assert s == [s[0]] + s[1..];
      }
    }
  }

  lemma {:induction false} SplitNoSep(p: string, sep: char, t: string)
    requires sep !in p
    ensures Split(p + t, sep) == [p + Split(t, sep)[0]] + Split(t, sep)[1..]
  {
    if p != [] {
      assert (p + t)[1..] == p[1..] + t;
      SplitNoSep(p[1..], sep, t);
      assert [p[0]] + (p[1..] + Split(t, sep)[0]) == p + Split(t, sep)[0];
    } else {
      var r := Split(t, sep);
      assert p + t == t;
      assert p + r[0] == r[0];
      assert r == [r[0]] + r[1..];
    }
  }

  /** Splitting a join of separator-free pieces gives the pieces back. */
  lemma {:induction false} SplitJoin(parts: seq<string>, sep: char)
    requires |parts| >= 1
    requires forall i :: 0 <= i < |parts| ==> sep !in parts[i]
    ensures Split(Join([sep], parts), sep) == parts
  {
    if |parts| == 1 {
      SplitNoSep(parts[0], sep, "");
      assert parts[0] + "" == parts[0];
    } else {
      var tail := Join([sep], parts[1..]);
      SplitJoin(parts[1..], sep);
      assert Join([sep], parts) == parts[0] + ([sep] + tail);
      SplitNoSep(parts[0], sep, [sep] + tail);
      var st := [sep] + tail;
      assert st[0] == sep && st[1..] == tail;
      assert Split(st, sep) == [""] + Split(tail, sep);
      var r := Split(st, sep);
      assert r[0] == "" && r[1..] == parts[1..];
      assert parts[0] + r[0] == parts[0];
      assert Split(parts[0] + st, sep) == [parts[0]] + parts[1..];
      assert parts == [parts[0]] + parts[1..];
    }
  }

  // ------------------------------------------------ substring occurrences

  predicate OccursAt(s: string, pat: string, i: int)
  {
    0 <= i && i + |pat| <= |s| && s[i..i + |pat|] == pat
  }

  predicate Contains(s: string, pat: string)
  {
    exists i :: 0 <= i <= |s| && OccursAt(s, pat, i)
  }

  // ------------------------------------------------------------ numbers

  function DigitChar(d: nat): (c: char)
    requires d < 10
    ensures IsDigit(c)
  {
    ('0' as int + d) as char
  }

  /** `str(n)` for a non-negative integer. */
  function NatStr(n: nat): (r: string)
    ensures |r| >= 1
    ensures forall i :: 0 <= i < |r| ==> IsDigit(r[i])
    decreases n
  {
    if n < 10 then [DigitChar(n)] else NatStr(n / 10) + [DigitChar(n % 10)]
  }

  /** `str(i)` for any integer. */
  function IntStr(i: int): (r: string)
    ensures |r| >= 1
  {
    if i < 0 then "-" + NatStr(-i) else NatStr(i)
  }

  // ------------------------------------------------------------- search

  /** The first position whose element satisfies `p`, as a `for ... break` scan finds it. */
  function FirstMatch<T>(xs: seq<T>, p: T -> bool): (r: Option<nat>)
    ensures r.Some? ==> r.value < |xs| && p(xs[r.value]) && forall j :: 0 <= j < r.value ==> !p(xs[j])
    ensures r.None? ==> forall j :: 0 <= j < |xs| ==> !p(xs[j])
  {
    if xs == [] then None
    else if p(xs[0]) then Some(0)
    else match FirstMatch(xs[1..], p)
      case None => None
      case Some(k) => Some(k + 1)
  }

  /**
   * A class looked up in a table keyed by class name: its own entry, else
   * the first entry it subclasses, else `fallback`. No key repeats.
   */
  function ClassLookup<V>(t: seq<(string, V)>, name: string, subclass: (string, string) -> bool, fallback: V): (v: V)
    requires forall i, j :: 0 <= i < j < |t| ==> t[i].0 != t[j].0
    ensures forall i :: 0 <= i < |t| && t[i].0 == name ==> v == t[i].1
    ensures (forall i :: 0 <= i < |t| ==> t[i].0 != name) ==>
              forall i :: (0 <= i < |t| && subclass(name, t[i].0)
                           && forall j :: 0 <= j < i ==> !subclass(name, t[j].0))
                          ==> v == t[i].1
    ensures (forall i :: 0 <= i < |t| ==> t[i].0 != name && !subclass(name, t[i].0)) ==> v == fallback
  {
    match FirstMatch(t, (e: (string, V)) => e.0 == name)
    case Some(i) => t[i].1
    case None =>
      match FirstMatch(t, (e: (string, V)) => subclass(name, e.0))
      case Some(i) => t[i].1
      case None => fallback
  }
}
