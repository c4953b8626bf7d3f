/**
 * The console's interactive choice (iotools/misc/console.py): a menu of
 * choices with a cursor that the arrow keys move, Enter confirms and Esc
 * abandons; in multi-select mode Right and Left add and remove the line
 * under the cursor. Key presses are the input, as a finite sequence; when
 * it runs out before Enter or Esc the prompt is still waiting.
 */
module Consoles {
  import opened Python

  /** `Console.UP_ONE_LINE`. */
  const UpOneLine: string := "\U{1B}[A"
  /** `Console.CLEAR_CURRENT_LINE`. */
  const ClearCurrentLine: string := "\U{1B}[2K"

  /** `clear_lines(num)`: the up-one-line and clear-line pair, `num` times (none for a negative count). */
  function ClearLines(num: int): (r: string)
    ensures |r| == if num <= 0 then 0 else 7 * num
    ensures forall k :: 0 <= k < num ==> r[7 * k .. 7 * k + 7] == UpOneLine + ClearCurrentLine
  {
    var pair := UpOneLine + ClearCurrentLine;
    assert |pair| == 7;
    assert forall k :: 0 <= k < num ==> Repeat(pair, num)[7 * k .. 7 * k + 7] == pair by {
      forall k | 0 <= k < num
        ensures Repeat(pair, num)[7 * k .. 7 * k + 7] == pair
      {
        RepeatPiece(pair, num, k);
      }
    }
    Repeat(pair, num)
  }

  /** The keys the prompts react to; any other key is read and ignored. */
  datatype Key = Up | Down | Left | Right | Enter | Esc | OtherKey

  /** How a prompt ended: with a result, with an exception, or still waiting for keys. */
  datatype Collected<T> = Chosen(value: T) | Raised(exc: Exc) | Waiting

  /** `xs[i]` with Python's negative indices; outside the list an IndexError. */
  function PyIndex<T>(xs: seq<T>, i: int): (r: Result<T>)
    ensures r.Ok? <==> -|xs| <= i < |xs|
    ensures 0 <= i < |xs| ==> r == Ok(xs[i])
    ensures -|xs| <= i < 0 ==> r == Ok(xs[|xs| + i])
    ensures r.Err? ==> r.error == IndexError
  {
    if 0 <= i < |xs| then Ok(xs[i])
    else if -|xs| <= i < 0 then Ok(xs[|xs| + i])
    else Err(IndexError)
  }

  /** The cursor after a key: Up stops at the first line, Down at the last; other keys leave it. */
  function Moved(key: Key, i: int, n: int): (j: int)
    ensures key.Up? ==> j == if i - 1 > 0 then i - 1 else 0
    ensures key.Down? ==> j == if i + 1 < n - 1 then i + 1 else n - 1
    ensures !key.Up? && !key.Down? ==> j == i
  {
    match key
    case Up => if i - 1 > 0 then i - 1 else 0
    case Down => if i + 1 < n - 1 then i + 1 else n - 1
    case _ => i
  }

  /** On a non-empty menu the cursor never leaves it. */
  lemma MovedInRange(key: Key, i: int, n: int)
    requires 0 <= i < n
    ensures 0 <= Moved(key, i, n) < n
  {
  }

  // ---------------------------------------------------------- single choice

  /**
   * What `_collect_choice` ends with, from cursor `i` and the keys still to
   * come: Enter gives the choice under the cursor, Esc raises
   * KeyboardInterrupt, Up and Down move the cursor, anything else is
   * ignored.
   */
  function Choose<T>(choices: seq<T>, i: int, keys: seq<Key>): Collected<T>
    decreases |keys|
  {
    if keys == [] then Waiting
    else match keys[0]
      case Enter => (match PyIndex(choices, i) case Ok(v) => Chosen(v) case Err(e) => Raised(e))
      case Esc => Raised(KeyboardInterrupt)
      case _ => Choose(choices, Moved(keys[0], i, |choices|), keys[1..])
  }

  /** `_collect_choice` reading `keys` one at a time. */
  method CollectChoice<T>(choices: seq<T>, start: int, keys: seq<Key>) returns (r: Collected<T>)
    ensures r == Choose(choices, start, keys)
  {
    var current := start;
    var k := 0;
    while k < |keys|
      invariant 0 <= k <= |keys|
      invariant Choose(choices, current, keys[k..]) == Choose(choices, start, keys)
    {
      assert keys[k..][1..] == keys[k + 1..];
      var key := keys[k];
      if key == Up {
        current := if current - 1 > 0 then current - 1 else 0;
      } else if key == Down {
        current := if current + 1 < |choices| - 1 then current + 1 else |choices| - 1;
      } else if key == Enter {
        if 0 <= current < |choices| {
          return Chosen(choices[current]);
        } else if -|choices| <= current < 0 {
          return Chosen(choices[|choices| + current]);
        }
        return Raised(IndexError);
      } else if key == Esc {
        return Raised(KeyboardInterrupt);
      }
      k := k + 1;
    }
    return Waiting;
  }

  /**
   * On a non-empty menu with the cursor on it, the prompt ends exactly when
   * Enter or Esc is pressed: with one of the choices, or with a
   * KeyboardInterrupt after Esc; it never raises anything else.
   */
  lemma {:induction false} ChooseOutcome<T>(choices: seq<T>, i: int, keys: seq<Key>)
    requires 0 <= i < |choices|
    ensures var r := Choose(choices, i, keys);
            (r.Chosen? ==> r.value in choices)
            && (r.Raised? ==> r.exc == KeyboardInterrupt && Esc in keys)
            && (r.Waiting? <==> Enter !in keys && Esc !in keys)
    decreases |keys|
  {
    if keys != [] && keys[0] != Enter && keys[0] != Esc {
      MovedInRange(keys[0], i, |choices|);
      ChooseOutcome(choices, Moved(keys[0], i, |choices|), keys[1..]);
      assert keys == [keys[0]] + keys[1..];
    }
  }

  /** On an empty menu, Enter raises IndexError. */
  lemma EmptyMenuRaises<T>(choices: seq<T>, i: int)
    requires choices == []
    ensures Choose(choices, i, [Enter]) == Raised(IndexError)
  {
  }

  // ---------------------------------------------------------- several choices

  /** The selected positions below `n`, from `i` on, in increasing order. */
  function Ascending(selected: set<int>, i: nat, n: nat): (r: seq<nat>)
    requires i <= n
    ensures forall k :: 0 <= k < |r| ==> i <= r[k] < n && r[k] in selected
    ensures forall k, l :: 0 <= k < l < |r| ==> r[k] < r[l]
    ensures forall j :: i <= j < n && j in selected ==> j in r
    decreases n - i
  {
    if i == n then []
    else if i in selected then [i] + Ascending(selected, i + 1, n)
    else Ascending(selected, i + 1, n)
  }

  /**
   * `[choices[index] for index in selected_indices]`, taking the indices in
   * increasing order; an index off the list raises IndexError.
   */
  function Picked<T>(choices: seq<T>, selected: set<int>): (r: Result<seq<T>>)
    ensures r.Ok? <==> forall x :: x in selected ==> 0 <= x < |choices|
    ensures r.Err? ==> r.error == IndexError
  {
    if forall x :: x in selected ==> 0 <= x < |choices| then
      var pos := Ascending(selected, 0, |choices|);
      Ok(seq(|pos|, k requires 0 <= k < |pos| => choices[pos[k]]))
    else Err(IndexError)
  }

  /** The picked choices are exactly those at the selected indices, in the order of the indices, each once. */
  lemma PickedExactly<T>(choices: seq<T>, selected: set<int>)
    requires forall x :: x in selected ==> 0 <= x < |choices|
    ensures var pos := Ascending(selected, 0, |choices|);
            var r := Picked(choices, selected).value;
            |r| == |pos|
            && (forall k :: 0 <= k < |r| ==> r[k] == choices[pos[k]])
            && (forall x :: x in selected <==> x in pos)
            && (forall k, l :: 0 <= k < l < |pos| ==> pos[k] < pos[l])
  {
  }

  /**
   * What `_collect_choices` ends with, from cursor `i`, the selected
   * indices and the keys still to come: Right adds the cursor's index,
   * Left removes it, Enter gives the choices at the selected indices, Esc
   * raises KeyboardInterrupt, Up and Down move the cursor.
   */
  function ChooseMany<T>(choices: seq<T>, i: int, selected: set<int>, keys: seq<Key>): Collected<seq<T>>
    decreases |keys|
  {
    if keys == [] then Waiting
    else match keys[0]
      case Enter => (match Picked(choices, selected) case Ok(vs) => Chosen(vs) case Err(e) => Raised(e))
      case Esc => Raised(KeyboardInterrupt)
      case Right => ChooseMany(choices, i, selected + {i}, keys[1..])
      case Left => ChooseMany(choices, i, selected - {i}, keys[1..])
      case _ => ChooseMany(choices, Moved(keys[0], i, |choices|), selected, keys[1..])
  }

  /** `_collect_choices` reading `keys` one at a time, with the selected indices in a set. */
  method CollectChoices<T>(choices: seq<T>, start: int, keys: seq<Key>) returns (r: Collected<seq<T>>)
    ensures r == ChooseMany(choices, start, {}, keys)
  {
    var current := start;
    var selected: set<int> := {};
    var k := 0;
    while k < |keys|
      invariant 0 <= k <= |keys|
      invariant ChooseMany(choices, current, selected, keys[k..]) == ChooseMany(choices, start, {}, keys)
    {
      assert keys[k..][1..] == keys[k + 1..];
      var key := keys[k];
      if key == Up {
        current := if current - 1 > 0 then current - 1 else 0;
      } else if key == Down {
        current := if current + 1 < |choices| - 1 then current + 1 else |choices| - 1;
      } else if key == Right {
        selected := selected + {current};
      } else if key == Left {
        selected := selected - {current};
      } else if key == Enter {
        var picked := Picked(choices, selected);
        if picked.Ok? {
          return Chosen(picked.value);
        }
        return Raised(picked.error);
      } else if key == Esc {
        return Raised(KeyboardInterrupt);
      }
      k := k + 1;
    }
    return Waiting;
  }

  /**
   * On a non-empty menu with the cursor on it, every selected index stays
   * on the menu, so the multi-select prompt ends only with the choices at
   * the selected indices, or with a KeyboardInterrupt after Esc.
   */
  lemma {:induction false} ChooseManyOutcome<T>(choices: seq<T>, i: int, selected: set<int>, keys: seq<Key>)
    requires 0 <= i < |choices| && forall x :: x in selected ==> 0 <= x < |choices|
    ensures var r := ChooseMany(choices, i, selected, keys);
            (r.Chosen? ==> forall v :: v in r.value ==> v in choices)
            && (r.Raised? ==> r.exc == KeyboardInterrupt && Esc in keys)
            && (r.Waiting? <==> Enter !in keys && Esc !in keys)
    decreases |keys|
  {
    if keys != [] {
      assert keys == [keys[0]] + keys[1..];
      match keys[0]
      case Enter =>
        PickedExactly(choices, selected);
        var vs := Picked(choices, selected).value;
        forall v | v in vs ensures v in choices {
          var k :| 0 <= k < |vs| && vs[k] == v;
          assert v == choices[Ascending(selected, 0, |choices|)[k]];
        }
      case Esc =>
      case Right =>
        ChooseManyOutcome(choices, i, selected + {i}, keys[1..]);
      case Left =>
        ChooseManyOutcome(choices, i, selected - {i}, keys[1..]);
      case _ =>
        MovedInRange(keys[0], i, |choices|);
        ChooseManyOutcome(choices, Moved(keys[0], i, |choices|), selected, keys[1..]);
    }
  }

  /** Selecting the line under the cursor and confirming gives exactly that choice; Left undoes Right. */
  lemma SelectOne<T>(choices: seq<T>, i: int)
    requires 0 <= i < |choices|
    ensures ChooseMany(choices, i, {}, [Right, Enter]) == Chosen([choices[i]])
    ensures ChooseMany(choices, i, {}, [Right, Left, Enter]) == Chosen([])
  {
    PickedSingle(choices, i);
    PickedNone(choices);
    var none: set<int> := {};
    assert none + {i} == {i};
    assert {i} - {i} == none;
    assert [Right, Enter][1..] == [Enter];
    assert [Right, Left, Enter][1..] == [Left, Enter];
    assert [Left, Enter][1..] == [Enter];
    assert ChooseMany(choices, i, {i}, [Enter]) == Chosen([choices[i]]);
    assert ChooseMany(choices, i, none, [Enter]) == Chosen([]);
    assert ChooseMany(choices, i, {i}, [Left, Enter]) == Chosen([]);
  }

  /** One selected index picks the one choice under it. */
  lemma PickedSingle<T>(choices: seq<T>, i: nat)
    requires i < |choices|
    ensures Picked(choices, {i}) == Ok([choices[i]])
  {
    AscendingSingle(i, 0, |choices|);
    var pos := Ascending({i}, 0, |choices|);
    assert seq(|pos|, k requires 0 <= k < |pos| => choices[pos[k]]) == [choices[i]];
  }

  /** No selected index picks nothing. */
  lemma PickedNone<T>(choices: seq<T>)
    ensures Picked(choices, {}) == Ok([])
  {
    AscendingNone({}, 0, |choices|);
    assert |Picked(choices, {}).value| == 0;
  }

  /** One selected index gives a one-element list of positions. */
  lemma {:induction false} AscendingSingle(x: nat, i: nat, n: nat)
    requires i <= x < n
    ensures Ascending({x}, i, n) == [x]
    decreases n - i
  {
    if i < x {
      AscendingSingle(x, i + 1, n);
    } else {
      AscendingNone({x}, i + 1, n);
    }
  }

  /** No selected index from `i` on gives no positions. */
  lemma {:induction false} AscendingNone(selected: set<int>, i: nat, n: nat)
    requires i <= n && forall j :: i <= j < n ==> j !in selected
    ensures Ascending(selected, i, n) == []
    decreases n - i
  {
    if i < n {
      AscendingNone(selected, i + 1, n);
    }
  }

  // ------------------------------------------------------------ offering

  /**
   * The starting index of `offer_choices`: 0 without a starting choice,
   * otherwise its first position in the list, and a ValueError when it is
   * not there.
   */
  function StartIndex<T(==)>(choices: seq<T>, starting: Option<T>): (r: Result<nat>)
    ensures starting.None? ==> r == Ok(0)
    ensures starting.Some? ==> (r.Ok? <==> starting.value in choices)
    ensures starting.Some? && r.Ok? ==> r.value < |choices| && choices[r.value] == starting.value
                                        && forall j :: 0 <= j < r.value ==> choices[j] != starting.value
    ensures r.Err? ==> r.error.ValueError?
  {
    match starting
    case None => Ok(0)
    case Some(s) =>
      match FirstMatch(choices, c => c == s)
      case Some(i) => Ok(i)
      case None => Err(ValueError(Message("is not in list")))
  }

  /** A KeyboardInterrupt becomes SystemExit (`sys.exit()`); any other ending stays. */
  function Exited<T>(r: Collected<T>): Collected<T>
  {
    if r == Raised(KeyboardInterrupt) then Raised(SystemExit) else r
  }

  /**
   * `offer_choices` with one choice: the cursor starts on the starting
   * choice, and Esc exits the program. Outside IPython it never lets a
   * KeyboardInterrupt out; what it returns is one of the choices; on a
   * non-empty menu it raises only the ValueError of a starting choice that
   * is not offered, or SystemExit.
   */
  function OfferChoice<T(==)>(choices: seq<T>, starting: Option<T>, keys: seq<Key>): (r: Collected<T>)
    ensures r != Raised(KeyboardInterrupt)
    ensures r.Chosen? ==> r.value in choices
    ensures choices != [] && r.Raised? ==> r.exc == SystemExit || (r.exc.ValueError? && starting.Some? && starting.value !in choices)
  {
    match StartIndex(choices, starting)
    case Err(e) => Raised(e)
    case Ok(i) =>
      if choices != [] then
        ChooseOutcome(choices, i, keys);
        Exited(Choose(choices, i, keys))
      else
        EmptyOutcome(choices, i, keys);
        Exited(Choose(choices, i, keys))
  }

  /** On an empty menu nothing can be chosen: only an IndexError or a KeyboardInterrupt ends the prompt. */
  lemma {:induction false} EmptyOutcome<T>(choices: seq<T>, i: int, keys: seq<Key>)
    requires choices == []
    ensures var r := Choose(choices, i, keys);
            !r.Chosen? && (r.Raised? ==> r.exc == IndexError || r.exc == KeyboardInterrupt)
    decreases |keys|
  {
    if keys != [] && keys[0] != Enter && keys[0] != Esc {
      EmptyOutcome(choices, Moved(keys[0], i, 0), keys[1..]);
    }
  }

  /** `offer_choices` with `multi_select`: as above, with the list of the choices selected. */
  function OfferChoices<T(==)>(choices: seq<T>, starting: Option<T>, keys: seq<Key>): (r: Collected<seq<T>>)
    ensures r != Raised(KeyboardInterrupt)
    ensures choices != [] && r.Chosen? ==> forall v :: v in r.value ==> v in choices
    ensures choices != [] && r.Raised? ==> r.exc == SystemExit || (r.exc.ValueError? && starting.Some? && starting.value !in choices)
  {
    match StartIndex(choices, starting)
    case Err(e) => Raised(e)
    case Ok(i) =>
      if choices != [] then
        ChooseManyOutcome(choices, i, {}, keys);
        Exited(ChooseMany(choices, i, {}, keys))
      else
        Exited(ChooseMany(choices, i, {}, keys))
  }

  // ------------------------------------------------------------ yes or no

  /** `{yes_text: True, no_text: False}`: a single entry, mapped to False, when the texts are equal. */
  function YesNoMappings(yes: string, no: string): (m: seq<(string, bool)>)
    ensures yes != no ==> m == [(yes, true), (no, false)]
    ensures yes == no ==> m == [(yes, false)]
  {
    var first := Set([], yes, true);
    assert first == [(yes, true)];
    Set(first, no, false)
  }

  /**
   * `offer_yes_or_no`: the keys of the mapping are offered, the cursor on
   * the default's text, and the answer is what the chosen text maps to.
   */
  function OfferYesOrNo(default: bool, yes: string, no: string, keys: seq<Key>): (r: Collected<bool>)
    ensures r != Raised(KeyboardInterrupt)
  {
    var mappings := YesNoMappings(yes, no);
    match OfferChoice(Keys(mappings), Some(if default then yes else no), keys)
    case Chosen(text) => (match Get(mappings, text) case Some(b) => Chosen(b) case None => Raised(KeyError))
    case Raised(e) => Raised(e)
    case Waiting => Waiting
  }

  /**
   * With two different texts, choosing the yes text answers True and the
   * no text False.
   */
  lemma YesOrNoAnswers(default: bool, yes: string, no: string, keys: seq<Key>)
    requires yes != no
    ensures var chosen := OfferChoice([yes, no], Some(if default then yes else no), keys);
            var r := OfferYesOrNo(default, yes, no, keys);
            (r.Chosen? <==> chosen.Chosen?) && (r.Chosen? ==> (r.value <==> chosen.value == yes))
  {
    var mappings := YesNoMappings(yes, no);
    assert Keys(mappings) == [yes, no];
  }

  /** Enter at once answers the default; Up or Down then Enter answer True or False whatever the default. */
  lemma YesOrNoKeys(default: bool, yes: string, no: string)
    requires yes != no
    ensures OfferYesOrNo(default, yes, no, [Enter]) == Chosen(default)
    ensures OfferYesOrNo(default, yes, no, [Up, Enter]) == Chosen(true)
    ensures OfferYesOrNo(default, yes, no, [Down, Enter]) == Chosen(false)
  {
    var start := if default then yes else no;
    var i := if default then 0 else 1;
    assert StartIndex([yes, no], Some(start)) == Ok(i);
    assert [Up, Enter][1..] == [Enter];
    assert [Down, Enter][1..] == [Enter];
    assert Choose([yes, no], i, [Enter]) == Chosen(start);
    assert Choose([yes, no], i, [Up, Enter]) == Chosen(yes);
    assert Choose([yes, no], i, [Down, Enter]) == Chosen(no);
    YesOrNoAnswers(default, yes, no, [Enter]);
    YesOrNoAnswers(default, yes, no, [Up, Enter]);
    YesOrNoAnswers(default, yes, no, [Down, Enter]);
  }

  /** With equal texts there is one choice, and it answers False. */
  lemma YesOrNoSameTexts(default: bool, text: string, keys: seq<Key>)
    ensures var r := OfferYesOrNo(default, text, text, keys);
            r.Chosen? ==> !r.value
  {
    assert Keys(YesNoMappings(text, text)) == [text];
  }
}
