/**
 * Alias handling shared by the three handler generations: rendering a name
 * as a command-line flag, collapsing repeated names as a Python set does,
 * sorting by length as `sorted(..., key=len)` does, and handing out
 * one-letter short aliases from a shrinking pool of letters.
 */
module Aliases {
  import opened Python

  // ------------------------------------------------------------ rendering

  /** `-x` for a one-character name, `--name` for a longer one. */
  function Render(n: string): string
  {
    if |n| > 1 then "--" + n else "-" + n
  }

  /** A flag is one or two dashes followed by the name itself. */
  lemma RenderShape(n: string)
    requires n != []
    ensures |n| == 1 ==> |Render(n)| == 2 && Render(n)[0] == '-' && Render(n)[1..] == n
    ensures |n| > 1 ==> |Render(n)| == |n| + 2 && Render(n)[..2] == "--" && Render(n)[2..] == n
  {
  }

  /** Two different non-empty names never render to the same flag. */
  lemma RenderInjective(a: string, b: string)
    requires a != [] && b != [] && Render(a) == Render(b)
    ensures a == b
  {
    RenderShape(a);
    RenderShape(b);
  }

  /** The flags of the non-empty names, in order (`if name` drops the empty ones). */
  function Flags(names: seq<string>): (r: seq<string>)
    ensures forall n :: n in names && n != [] ==> Render(n) in r
    ensures forall f :: f in r ==> exists n :: n in names && n != [] && f == Render(n)
    ensures |r| <= |names|
  {
    if names == [] then []
    else if names[0] == [] then Flags(names[1..])
    else [Render(names[0])] + Flags(names[1..])
  }

  /** A sequence that holds no element twice: what iterating a set yields. */
  predicate Distinct<T(==)>(s: seq<T>)
  {
    forall i, j :: 0 <= i < j < |s| ==> s[i] != s[j]
  }

  /** A name missing from a list has no flag among the list's flags. */
  lemma RenderNotInFlags(x: string, names: seq<string>)
    requires x != [] && x !in names
    ensures Render(x) !in Flags(names)
  {
    if Render(x) in Flags(names) {
      var n :| n in names && n != [] && Render(x) == Render(n);
      RenderInjective(n, x);
      assert false;
    }
  }

  /** Distinct names give distinct flags. */
  lemma {:induction false} FlagsDistinct(names: seq<string>)
    requires Distinct(names)
    ensures Distinct(Flags(names))
  {
    if names != [] {
      var tail := names[1..];
      assert Distinct(tail) by {
        forall i, j | 0 <= i < j < |tail| ensures tail[i] != tail[j] {
          assert tail[i] == names[i + 1] && tail[j] == names[j + 1];
        }
      }
      FlagsDistinct(tail);
      if names[0] != [] {
        assert names[0] !in tail by {
          forall k | 0 <= k < |tail| ensures tail[k] != names[0] {
            assert tail[k] == names[k + 1];
          }
        }
        RenderNotInFlags(names[0], tail);
        var f := Flags(tail);
        var r := [Render(names[0])] + f;
        forall i, j | 0 <= i < j < |r| ensures r[i] != r[j] {
          assert r[j] == f[j - 1];
          if i > 0 {
            assert r[i] == f[i - 1];
          }
        }
      }
    }
  }

  /** The elements of a sequence as a set keeps them: first occurrences, in order. */
  function Dedup<T(==,!new)>(s: seq<T>): (r: seq<T>)
    ensures Distinct(r)
    ensures forall x :: x in r <==> x in s
    ensures |r| <= |s|
  {
    if s == [] then []
    else
      var rest := Dedup(s[..|s| - 1]);
      assert forall x :: x in s <==> x in s[..|s| - 1] || x == s[|s| - 1] by {
        assert s == s[..|s| - 1] + [s[|s| - 1]];
      }
      if s[|s| - 1] in rest then rest else rest + [s[|s| - 1]]
  }

  /** Deduplicating a duplicate-free sequence leaves it as it is. */
  lemma {:induction false} DedupDistinct<T(!new)>(s: seq<T>)
    requires Distinct(s)
    ensures Dedup(s) == s
  {
    if s != [] {
      var init := s[..|s| - 1];
      assert Distinct(init);
      DedupDistinct(init);
      assert s[|s| - 1] !in init;
      assert s == init + [s[|s| - 1]];
    }
  }

  // ------------------------------------------------------------- sorting

  predicate SortedByLen(s: seq<string>)
  {
    forall i, j :: 0 <= i < j < |s| ==> |s[i]| <= |s[j]|
  }

  /** Puts `x` after every element no longer than it, as a stable sort places a later element. */
  function InsertByLen(x: string, s: seq<string>): (r: seq<string>)
    requires SortedByLen(s)
    ensures SortedByLen(r)
    ensures multiset(r) == multiset(s) + multiset{x}
    ensures |r| == |s| + 1
  {
    if s == [] || |x| < |s[0]| then [x] + s
    else
      SortedTail(s);
      var rest := InsertByLen(x, s[1..]);
      InsertStep(x, s, rest);
      [s[0]] + rest
  }

  /** The tail of a sorted sequence is sorted, and no element of it is shorter than the head. */
  lemma SortedTail(s: seq<string>)
    requires s != [] && SortedByLen(s)
    ensures SortedByLen(s[1..]) && forall k :: 0 <= k < |s[1..]| ==> |s[0]| <= |s[1..][k]|
  {
    var t := s[1..];
    forall k | 0 <= k < |t| ensures t[k] == s[k + 1] { }
  }

  /** Putting the head back in front of the tail with `x` inserted sorts `s` with `x` added. */
  lemma InsertStep(x: string, s: seq<string>, rest: seq<string>)
    requires s != [] && SortedByLen(s) && |s[0]| <= |x|
    requires SortedByLen(rest) && multiset(rest) == multiset(s[1..]) + multiset{x}
    ensures SortedByLen([s[0]] + rest)
    ensures multiset([s[0]] + rest) == multiset(s) + multiset{x}
  {
    SortedTail(s);
    AtLeastAll(|s[0]|, x, s[1..], rest);
    SortedCons(s[0], rest);
    assert s == [s[0]] + s[1..];
  }

  /** An element no longer than any of a sorted sequence can go in front of it. */
  lemma SortedCons(y: string, rest: seq<string>)
    requires SortedByLen(rest) && forall k :: 0 <= k < |rest| ==> |y| <= |rest[k]|
    ensures SortedByLen([y] + rest)
  {
    var r := [y] + rest;
    forall i, j | 0 <= i < j < |r| ensures |r[i]| <= |r[j]| {
      assert r[j] == rest[j - 1];
      if i > 0 {
        assert r[i] == rest[i - 1];
      }
    }
  }

  /** A permutation of elements no shorter than `n` has none shorter than `n`. */
  lemma AtLeastAll(n: nat, x: string, t: seq<string>, rest: seq<string>)
    requires |x| >= n && forall k :: 0 <= k < |t| ==> |t[k]| >= n
    requires multiset(rest) == multiset(t) + multiset{x}
    ensures forall k :: 0 <= k < |rest| ==> n <= |rest[k]|
  {
    forall k | 0 <= k < |rest| ensures n <= |rest[k]| {
      assert rest[k] in multiset(rest);
      if rest[k] != x {
        assert rest[k] in multiset(t);
        var j :| 0 <= j < |t| && t[j] == rest[k];
      }
    }
  }

  /** `sorted(s, key=len)`: ordered by length and a permutation of `s`. */
  function SortByLen(s: seq<string>): (r: seq<string>)
    ensures SortedByLen(r)
    ensures multiset(r) == multiset(s)
    ensures |r| == |s|
  {
    if s == [] then []
    else
      assert s == s[..|s| - 1] + [s[|s| - 1]];
      InsertByLen(s[|s| - 1], SortByLen(s[..|s| - 1]))
  }

  /** Sorting keeps exactly the elements it was given. */
  lemma SortByLenMembers(s: seq<string>)
    ensures forall x :: x in SortByLen(s) <==> x in s
  {
    forall x ensures x in SortByLen(s) <==> x in s {
      assert x in SortByLen(s) <==> x in multiset(SortByLen(s));
      assert x in s <==> x in multiset(s);
    }
  }

  /** Sorting a duplicate-free sequence leaves it duplicate-free. */
  lemma SortByLenDistinct(s: seq<string>)
    requires Distinct(s)
    ensures Distinct(SortByLen(s))
  {
    var r := SortByLen(s);
    forall i, j | 0 <= i < j < |r| ensures r[i] != r[j] {
      if r[i] == r[j] {
        RepeatedTwice(r, i, j);
        MultiplicityInDistinct(s, r[i]);
        assert false;
      }
    }
  }

  lemma RepeatedTwice<T>(r: seq<T>, i: nat, j: nat)
    requires i < j < |r| && r[i] == r[j]
    ensures multiset(r)[r[i]] >= 2
  {
    assert r == r[..j] + [r[j]] + r[j + 1..];
    assert r[..j][i] == r[i];
    assert multiset(r) == multiset(r[..j]) + multiset{r[j]} + multiset(r[j + 1..]);
  }

  lemma {:induction false} MultiplicityInDistinct<T>(s: seq<T>, x: T)
    requires Distinct(s)
    ensures multiset(s)[x] <= 1
  {
    if s != [] {
      var init := s[..|s| - 1];
      assert s == init + [s[|s| - 1]];
      assert Distinct(init);
      MultiplicityInDistinct(init, x);
      if x == s[|s| - 1] {
        assert x !in init;
      }
    }
  }

  /** The flags of a set of names sorted by length: the shared `aliases` getter. */
  function SortedFlags(names: seq<string>): (r: seq<string>)
    ensures SortedByLen(r)
    ensures forall f :: f in r <==> exists n :: n in names && n != [] && f == Render(n)
  {
    SortByLenMembers(Flags(names));
    SortByLen(Flags(names))
  }

  /** Distinct names give distinct sorted flags. */
  lemma SortedFlagsDistinct(names: seq<string>)
    requires Distinct(names)
    ensures Distinct(SortedFlags(names))
  {
    FlagsDistinct(names);
    SortByLenDistinct(Flags(names));
  }

  /**
   * The alias list of the later handlers: the name alone when no aliases
   * are given, otherwise the set of the name and the aliases sorted by
   * length (`sorted({name, *aliases}, key=len)`).
   */
  function NameSet(name: string, aliases: Option<seq<string>>): (r: seq<string>)
    ensures aliases.None? ==> r == [name]
    ensures SortedByLen(r) && Distinct(r)
    ensures forall n :: n in r <==> n == name || (aliases.Some? && n in aliases.value)
  {
    if aliases.None? then [name]
    else
      var names := Dedup([name] + aliases.value);
      SortByLenMembers(names);
      SortByLenDistinct(names);
      SortByLen(names)
  }

  /** `[f"--{n}" if len(n) > 1 else f"-{n}" for n in names]`: every name rendered, in order. */
  function FlagList(names: seq<string>): (r: seq<string>)
    ensures |r| == |names|
  {
    seq(|names|, i requires 0 <= i < |names| => Render(names[i]))
  }

  /** The name a flag was rendered from: the flag without its dashes. */
  function Unflag(f: string): string
  {
    if |f| > 2 then f[2..] else if f != [] then f[1..] else f
  }

  /** Every flag of the list gives back its name, and distinct names give distinct flags. */
  lemma FlagListNames(names: seq<string>)
    ensures forall i :: 0 <= i < |names| ==> Unflag(FlagList(names)[i]) == names[i]
    ensures Distinct(names) ==> Distinct(FlagList(names))
  {
    var r := FlagList(names);
    forall i | 0 <= i < |names| ensures Unflag(r[i]) == names[i] {
      assert r[i] == Render(names[i]);
    }
    if Distinct(names) {
      forall i, j | 0 <= i < j < |r| ensures r[i] != r[j] {
        assert Unflag(r[i]) == names[i] && Unflag(r[j]) == names[j];
      }
    }
  }

  // -------------------------------------------------------- short aliases

  const Alphabet: string := "abcdefghijklmnopqrstuvwxyz"

  /** `set(string.ascii_lowercase)` with `h`, kept for help, discarded. */
  const ShortPool: set<char> := set c | c in Alphabet && c != 'h'

  lemma ShortPoolLetters()
    ensures 'h' !in ShortPool
    ensures forall c :: c in ShortPool ==> 'a' <= c <= 'z'
    ensures 'a' in ShortPool && 'z' in ShortPool
  {
    assert Alphabet[0] == 'a' && Alphabet[25] == 'z';
  }

  /**
   * `determine_shortform_alias` as a value: the lower-cased form of the
   * first alphanumeric character of the name that is still in the pool,
   * or None when there is none.
   */
  function ShortAlias(name: string, pool: set<char>): (r: Option<char>)
    ensures r.Some? ==> r.value in pool
    ensures r.Some? ==> exists i :: 0 <= i < |name| && IsAlnum(name[i]) && LowerChar(name[i]) == r.value &&
                                   (forall j :: 0 <= j < i ==> !(IsAlnum(name[j]) && LowerChar(name[j]) in pool))
    ensures r.None? <==> forall i :: 0 <= i < |name| && IsAlnum(name[i]) ==> LowerChar(name[i]) !in pool
  {
    if name == [] then None
    else if IsAlnum(name[0]) && LowerChar(name[0]) in pool then Some(LowerChar(name[0]))
    else
      var r := ShortAlias(name[1..], pool);
      assert forall i :: 0 < i < |name| ==> name[i] == name[1..][i - 1];
      if r.Some? then
        var k :| 0 <= k < |name[1..]| && IsAlnum(name[1..][k]) && LowerChar(name[1..][k]) == r.value &&
                 forall j :: 0 <= j < k ==> !(IsAlnum(name[1..][j]) && LowerChar(name[1..][j]) in pool);
        assert IsAlnum(name[k + 1]) && LowerChar(name[k + 1]) == r.value;
        r
      else r
  }

  /** The pool after an allocation: the letter handed out is gone. */
  function Without(pool: set<char>, letter: Option<char>): set<char>
  {
    if letter.Some? then pool - {letter.value} else pool
  }

  /**
   * The loop of `determine_shortform_alias`: walk the name, and take the
   * first lower-cased alphanumeric character still in the pool out of it.
   */
  method TakeShortAlias(name: string, pool: set<char>) returns (letter: Option<char>, rest: set<char>)
    ensures letter == ShortAlias(name, pool)
    ensures rest == Without(pool, letter)
  {
    for i := 0 to |name|
      invariant ShortAlias(name, pool) == ShortAlias(name[i..], pool)
    {
      assert name[i..] == [name[i]] + name[i + 1..];
      if IsAlnum(name[i]) {
        var c := LowerChar(name[i]);
        if c in pool {
          return Some(c), pool - {c};
        }
      }
    }
    return None, pool;
  }

  /** The letters handed out for the names in turn, from one pool. */
  function Allocate(names: seq<string>, pool: set<char>): (r: seq<Option<char>>)
    ensures |r| == |names|
  {
    if names == [] then []
    else
      var letter := ShortAlias(names[0], pool);
      [letter] + Allocate(names[1..], Without(pool, letter))
  }

  /** Every letter handed out comes from the pool, and none is handed out twice. */
  lemma {:induction false} AllocateDistinct(names: seq<string>, pool: set<char>)
    ensures forall i :: 0 <= i < |names| && Allocate(names, pool)[i].Some? ==> Allocate(names, pool)[i].value in pool
    ensures forall i, j :: 0 <= i < j < |names| && Allocate(names, pool)[i].Some? && Allocate(names, pool)[j].Some? ==>
              Allocate(names, pool)[i].value != Allocate(names, pool)[j].value
  {
    if names != [] {
      var letter := ShortAlias(names[0], pool);
      var rest := Allocate(names[1..], Without(pool, letter));
      AllocateDistinct(names[1..], Without(pool, letter));
      var r := Allocate(names, pool);
      assert r == [letter] + rest;
      forall i | 0 < i < |names| && r[i].Some? ensures r[i].value in Without(pool, letter) {
        assert r[i] == rest[i - 1];
      }
    }
  }

  /** Starting from the short pool, `h` is never handed out. */
  lemma NeverH(names: seq<string>)
    ensures forall i :: 0 <= i < |names| && Allocate(names, ShortPool)[i].Some? ==> Allocate(names, ShortPool)[i].value != 'h'
  {
    AllocateDistinct(names, ShortPool);
    ShortPoolLetters();
  }
}
