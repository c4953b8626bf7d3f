/**
 * The print log (iotools/log/print_log.py): text written to the redirected
 * standard output is logged stripped, and when the log is closed its file
 * is rewritten so that the console's clear-line sequences take effect: a
 * line holding the sequence k times erases the k lines before it, and keeps
 * only what follows its last occurrence.
 */
module PrintLogs {
  import opened Python

  /** `Console.UP_ONE_LINE + Console.CLEAR_CURRENT_LINE`. */
  const ClearLine: string := "\U{1B}[A\U{1B}[2K"

  /** `StdOutLogRedirector.write`: the text is logged at INFO stripped, and only when something remains. */
  function Redirected(text: string): (logged: Option<string>)
    ensures logged.Some? <==> Strip(text) != ""
    ensures logged.Some? ==> logged.value == Strip(text) && |logged.value| <= |text|
  {
    var clean := Strip(text);
    if clean != "" then Some(clean) else None
  }

  // ------------------------------------------------- occurrences of a pattern

  /** `s.count(pat)`: non-overlapping occurrences, scanning from the left. */
  function Count(s: string, pat: string): (n: nat)
    requires pat != ""
    decreases |s|
  {
    if |s| < |pat| then 0
    else if OccursAt(s, pat, 0) then 1 + Count(s[|pat|..], pat)
    else Count(s[1..], pat)
  }

  /** A pattern is counted at least once exactly when it occurs. */
  lemma {:induction false} CountPositive(s: string, pat: string)
    requires pat != ""
    ensures Count(s, pat) > 0 <==> Contains(s, pat)
    decreases |s|
  {
    if |s| < |pat| {
    } else if !OccursAt(s, pat, 0) {
      CountPositive(s[1..], pat);
      if Contains(s, pat) {
        var i :| 0 <= i <= |s| && OccursAt(s, pat, i);
        assert i >= 1;
        assert s[1..][i - 1..i - 1 + |pat|] == s[i..i + |pat|];
        assert OccursAt(s[1..], pat, i - 1);
      }
      if Contains(s[1..], pat) {
        var i :| 0 <= i <= |s[1..]| && OccursAt(s[1..], pat, i);
        assert s[i + 1..i + 1 + |pat|] == s[1..][i..i + |pat|];
        assert OccursAt(s, pat, i + 1);
      }
    } else {
      assert OccursAt(s, pat, 0);
    }
  }

  /** The last position at or before `i` where the pattern occurs, if any. */
  function LastAt(s: string, pat: string, i: int): (r: Option<nat>)
    ensures r.Some? ==> r.value <= i && OccursAt(s, pat, r.value)
    ensures forall j :: (if r.Some? then r.value + 1 else 0) <= j <= i ==> !OccursAt(s, pat, j)
    decreases if i < 0 then 0 else i + 1
  {
    if i < 0 then None
    else if OccursAt(s, pat, i) then Some(i)
    else LastAt(s, pat, i - 1)
  }

  /**
   * `after_last(pattern)`: the text after the last occurrence of the
   * pattern; the whole text when it does not occur.
   */
  function AfterLast(s: string, pat: string): (r: string)
    ensures |r| <= |s|
  {
    match LastAt(s, pat, |s|)
    case None => s
    case Some(i) => s[i + |pat|..]
  }

  /** What follows the last occurrence is a suffix of the text. */
  lemma AfterLastSuffix(s: string, pat: string)
    ensures AfterLast(s, pat) == s[|s| - |AfterLast(s, pat)|..]
  {
  }

  /** Nothing after the last occurrence of a pattern contains it. */
  lemma AfterLastClean(s: string, pat: string)
    requires pat != ""
    ensures !Contains(AfterLast(s, pat), pat)
  {
    var r := AfterLast(s, pat);
    var last := LastAt(s, pat, |s|);
    var start := if last.Some? then last.value + |pat| else 0;
    assert r == s[start..];
    forall j | 0 <= j <= |r| ensures !OccursAt(r, pat, j) {
      var at := start + j;
      assert !OccursAt(s, pat, at);
      if j + |pat| <= |r| {
        assert s[at..at + |pat|] == r[j..j + |pat|];
      }
    }
  }

  // ------------------------------------------------------------- the erasure

  /**
   * One step of the pass: the counter of lines still to drop, after a line
   * holding the sequence `found` times. A dropped line uses up one; a line
   * with the sequence raises the counter to at least its count.
   */
  function NextSkip(skip: nat, found: nat): nat
  {
    var left := if skip > 0 then skip - 1 else 0;
    if found > 0 && found > left then found else left
  }

  /** The number of clear-line sequences each line holds. */
  function Counts(rev: seq<string>): (c: seq<nat>)
    ensures |c| == |rev|
  {
    seq(|rev|, j requires 0 <= j < |rev| => Count(rev[j], ClearLine))
  }

  /** The counter before each of the first `n` lines, given each line's count (the file's lines, last first). */
  function Skips(counts: seq<nat>, n: nat): (r: seq<nat>)
    requires n <= |counts|
    ensures |r| == n + 1 && r[0] == 0
    ensures forall j :: 0 <= j < n ==> r[j + 1] == NextSkip(r[j], counts[j])
  {
    if n == 0 then [0]
    else
      var before := Skips(counts, n - 1);
      before + [NextSkip(before[n - 1], counts[n - 1])]
  }

  /** A kept line: cut to what follows its last clear-line sequence when it holds one. */
  function Rendered(line: string): string
  {
    if Count(line, ClearLine) > 0 then AfterLast(line, ClearLine) else line
  }

  /** Each line as it would be kept. */
  function Renders(rev: seq<string>): (r: seq<string>)
    ensures |r| == |rev|
  {
    seq(|rev|, j requires 0 <= j < |rev| => Rendered(rev[j]))
  }

  /** The positions of the lines kept among the first `n`, in order. */
  function KeptAt(counts: seq<nat>, n: nat): (r: seq<nat>)
    requires n <= |counts|
    ensures |r| <= n && forall k :: 0 <= k < |r| ==> r[k] < n
  {
    if n == 0 then []
    else if Skips(counts, |counts|)[n - 1] == 0 then KeptAt(counts, n - 1) + [n - 1]
    else KeptAt(counts, n - 1)
  }

  /** Exactly the positions whose counter is zero are kept, in increasing order. */
  lemma {:induction false} KeptAtShape(counts: seq<nat>, n: nat)
    requires n <= |counts|
    ensures var r := KeptAt(counts, n);
            (forall k :: 0 <= k < |r| ==> r[k] < n && Skips(counts, |counts|)[r[k]] == 0)
            && (forall k, l :: 0 <= k < l < |r| ==> r[k] < r[l])
            && (forall j :: 0 <= j < n && Skips(counts, |counts|)[j] == 0 ==> j in r)
  {
    if n > 0 {
      KeptAtShape(counts, n - 1);
    }
  }

  /** The counters of a shorter run are those of a longer one. */
  lemma {:induction false} SkipsPrefix(counts: seq<nat>, m: nat, n: nat)
    requires m <= n <= |counts|
    ensures Skips(counts, m) == Skips(counts, n)[..m + 1]
    decreases n
  {
    if m < n {
      SkipsPrefix(counts, m, n - 1);
    }
  }

  /** The lines kept among the first `n`, taken from `renders`, in order. */
  function KeptLines(renders: seq<string>, counts: seq<nat>, n: nat): seq<string>
    requires n <= |counts| == |renders|
  {
    if n == 0 then []
    else if Skips(counts, |counts|)[n - 1] == 0 then KeptLines(renders, counts, n - 1) + [renders[n - 1]]
    else KeptLines(renders, counts, n - 1)
  }

  /** Each kept line is the one at its kept position. */
  lemma {:induction false} KeptLinesAt(renders: seq<string>, counts: seq<nat>, n: nat)
    requires n <= |counts| == |renders|
    ensures var at := KeptAt(counts, n);
            var r := KeptLines(renders, counts, n);
            |r| == |at| && forall k :: 0 <= k < |r| ==> r[k] == renders[at[k]]
  {
    if n > 0 {
      KeptLinesAt(renders, counts, n - 1);
    }
  }

  /** `reversed(...)` of a list. */
  function Reversed<T>(s: seq<T>): (r: seq<T>)
    ensures |r| == |s| && forall i :: 0 <= i < |s| ==> r[i] == s[|s| - 1 - i]
  {
    seq(|s|, i requires 0 <= i < |s| => s[|s| - 1 - i])
  }

  /** The lines the pass keeps, rendered, back in the file's order. */
  function KeptInOrder(lines: seq<string>): seq<string>
  {
    var rev := Reversed(lines);
    Reversed(KeptLines(Renders(rev), Counts(rev), |rev|))
  }

  /** The rewritten file text, as `post_process` computes it. */
  function Erased(text: string): string
  {
    if !Contains(text, ClearLine) then text
    else Join("\n", KeptInOrder(Split(text, '\n')))
  }

  /**
   * `post_process`: the file content is read, rewritten when it holds the
   * clear-line sequence, and written back. Walking the lines from the last,
   * a line is kept unless the counter is positive (then the counter drops by
   * one); a line holding the sequence raises the counter to its count.
   */
  method PostProcess(text: string) returns (content: string)
    ensures content == Erased(text)
  {
    if !Contains(text, ClearLine) {
      return text;
    }
    var rev := Reversed(Split(text, '\n'));
    var outLines: seq<string> := [];
    var skip: nat := 0;
    ghost var counts := Counts(rev);
    ghost var renders := Renders(rev);
    ghost var skips := Skips(counts, |rev|);
    var index := 0;
    while index < |rev|
      invariant 0 <= index <= |rev|
      invariant skip == skips[index]
      invariant outLines == KeptLines(renders, counts, index)
    {
      var line := rev[index];
      var found := Count(line, ClearLine);
      assert found == counts[index];
      assert KeptLines(renders, counts, index + 1)
          == if skip == 0 then outLines + [renders[index]] else outLines;
      if skip > 0 {
        skip := skip - 1;
      } else {
        var kept := if found > 0 then AfterLast(line, ClearLine) else line;
        assert kept == renders[index];
        outLines := outLines + [kept];
      }
      if found > 0 {
        skip := if skip > found then skip else found;
      }
      index := index + 1;
    }
    content := Join("\n", Reversed(outLines));
  }

  /** Text without the clear-line sequence is left as it is. */
  lemma UntouchedWithoutSequence(text: string)
    requires !Contains(text, ClearLine)
    ensures Erased(text) == text
  {
  }

  /** No kept line holds the clear-line sequence, and each holds only characters of its line. */
  lemma RenderedClean(line: string)
    ensures !Contains(Rendered(line), ClearLine)
    ensures forall c :: c in Rendered(line) ==> c in line
  {
    var r := Rendered(line);
    if Count(line, ClearLine) > 0 {
      AfterLastSuffix(line, ClearLine);
      SuffixChars(line, |line| - |r|);
      AfterLastClean(line, ClearLine);
    } else {
      CountPositive(line, ClearLine);
    }
  }

  /** The kept positions turned back into the file's order, for lines counted last first. */
  function FilePositions(counts: seq<nat>): (pos: seq<nat>)
    ensures var at := KeptAt(counts, |counts|);
            |pos| == |at| && forall k :: 0 <= k < |pos| ==> pos[k] == |counts| - 1 - at[|at| - 1 - k] < |counts|
    ensures forall k, l :: 0 <= k < l < |pos| ==> pos[k] < pos[l]
  {
    var at := KeptAt(counts, |counts|);
    KeptAtShape(counts, |counts|);
    seq(|at|, k requires 0 <= k < |at| => |counts| - 1 - at[|at| - 1 - k])
  }

  /** The positions, in the file's order, of the lines the pass keeps. */
  function KeptPositions(lines: seq<string>): seq<nat>
  {
    FilePositions(Counts(Reversed(lines)))
  }

  /** Reversed, the kept lines are those at the kept positions in the file's order. */
  lemma {:induction false} InFileOrder(renders: seq<string>, counts: seq<nat>)
    requires |renders| == |counts|
    ensures var kept := Reversed(KeptLines(renders, counts, |counts|));
            var pos := FilePositions(counts);
            |kept| == |pos| <= |counts|
            && forall k :: 0 <= k < |kept| ==> kept[k] == renders[|counts| - 1 - pos[k]]
  {
    var inRev := KeptLines(renders, counts, |counts|);
    var kept := Reversed(inRev);
    var at := KeptAt(counts, |counts|);
    var pos := FilePositions(counts);
    KeptLinesAt(renders, counts, |counts|);
    forall k | 0 <= k < |kept| ensures kept[k] == renders[|counts| - 1 - pos[k]] {
      KeptAtIndex(inRev, kept, renders, at, k);
    }
  }

  /**
   * The kept lines, back in the file's order, are the rendered lines at the
   * kept positions, none holding the sequence or a line break.
   */
  lemma {:induction false} KeptContent(lines: seq<string>)
    requires forall i :: 0 <= i < |lines| ==> '\n' !in lines[i]
    ensures var kept := KeptInOrder(lines);
            var pos := KeptPositions(lines);
            |kept| <= |lines| && |kept| == |pos|
            && (forall k :: 0 <= k < |kept| ==> pos[k] < |lines| && kept[k] == Rendered(lines[pos[k]]))
            && (forall k :: 0 <= k < |kept| ==> !Contains(kept[k], ClearLine) && '\n' !in kept[k])
  {
    var rev := Reversed(lines);
    var counts := Counts(rev);
    var renders := Renders(rev);
    var kept := KeptInOrder(lines);
    var pos := KeptPositions(lines);
    InFileOrder(renders, counts);
    forall k | 0 <= k < |kept|
      ensures pos[k] < |lines| && kept[k] == Rendered(lines[pos[k]]) && !Contains(kept[k], ClearLine) && '\n' !in kept[k]
    {
      var i := |lines| - 1 - pos[k];
      assert renders[i] == Rendered(rev[i]);
      var line := lines[pos[k]];
      assert rev[i] == line;
      RenderedClean(line);
    }
  }

  /** One kept line in the file's order is the reversal's counterpart. */
  lemma KeptAtIndex(inRev: seq<string>, kept: seq<string>, renders: seq<string>, at: seq<nat>, k: nat)
    requires kept == Reversed(inRev) && |inRev| == |at| && k < |kept|
    requires forall m :: 0 <= m < |inRev| ==> at[m] < |renders| && inRev[m] == renders[at[m]]
    ensures kept[k] == renders[at[|at| - 1 - k]]
  {
    assert kept[k] == inRev[|inRev| - 1 - k];
  }

  /**
   * The rewritten text has no more lines than the original, and its lines
   * are kept lines of the original, rendered, in their original order, none
   * of them holding the sequence.
   */
  lemma ErasedLines(text: string)
    requires Contains(text, ClearLine)
    ensures var lines := Split(text, '\n');
            var kept := KeptInOrder(lines);
            var pos := KeptPositions(lines);
            |kept| <= |lines| && |kept| == |pos|
            && (forall k :: 0 <= k < |kept| ==> kept[k] == Rendered(lines[pos[k]]))
            && (forall k :: 0 <= k < |kept| ==> !Contains(kept[k], ClearLine))
            && (kept != [] ==> Split(Erased(text), '\n') == kept)
            && (kept == [] ==> Erased(text) == "")
  {
    var lines := Split(text, '\n');
    var kept := KeptInOrder(lines);
    KeptContent(lines);
    if kept != [] {
      SplitJoin(kept, '\n');
    }
  }

  /** A suffix holds only characters of the text. */
  lemma SuffixChars(s: string, from: nat)
    requires from <= |s|
    ensures forall c :: c in s[from..] ==> c in s
  {
    forall c | c in s[from..] ensures c in s {
      var i :| 0 <= i < |s[from..]| && s[from..][i] == c;
      assert s[from + i] == c;
    }
  }

  /**
   * Erasure: a line holding the sequence `counts[j]` times (counting from
   * the last line, at position `j`) makes that many lines before it in the
   * file dropped, whatever happened before.
   */
  lemma DropsPreceding(counts: seq<nat>, j: nat, t: nat)
    requires j < t < |counts| && t <= j + counts[j]
    ensures Skips(counts, |counts|)[t] > 0
    ensures t !in KeptAt(counts, |counts|)
  {
    DropsFloor(counts, j, t);
    KeptAtShape(counts, |counts|);
  }

  /**
   * The same in the file's order: a line at position `p` holding the
   * sequence `c` times drops the lines at positions `p - c` to `p - 1`.
   */
  lemma DropsPrecedingLines(lines: seq<string>, p: nat, q: nat)
    requires q < p < |lines| && p - q <= Count(lines[p], ClearLine)
    ensures q !in KeptPositions(lines)
  {
    var rev := Reversed(lines);
    var counts := Counts(rev);
    var t := |lines| - 1 - q;
    assert counts[|lines| - 1 - p] == Count(lines[p], ClearLine);
    DropsPreceding(counts, |lines| - 1 - p, t);
    var pos := FilePositions(counts);
    var at := KeptAt(counts, |rev|);
    forall k | 0 <= k < |pos| ensures pos[k] != q {
      assert at[|at| - 1 - k] != t;
    }
  }

  /** The counter after a line with `c` occurrences stays above `c - (t - j - 1)` for the next lines. */
  lemma {:induction false} DropsFloor(counts: seq<nat>, j: nat, t: nat)
    requires j < t < |counts| && t <= j + counts[j]
    ensures Skips(counts, |counts|)[t] >= counts[j] - (t - j - 1)
    decreases t - j
  {
    var skips := Skips(counts, |counts|);
    assert skips[j + 1] == NextSkip(skips[j], counts[j]);
    if t > j + 1 {
      DropsFloor(counts, j, t - 1);
      assert skips[t] == NextSkip(skips[t - 1], counts[t - 1]);
    }
  }
}
