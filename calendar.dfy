/**
 * The date-time editor's precision (iotools/gui/widget/calendar.py): the
 * magnitude says how many of year, month, day, hour, minute and second the
 * editor shows, and the display format is built from it.
 */
module Calendar {
  import opened Python

  /** `magnitude or 6`: a missing or zero magnitude means full precision; any other is kept. */
  function Magnitude(given: Option<int>): (m: int)
    ensures given.None? || given == Some(0) ==> m == 6
    ensures given.Some? && given.value != 0 ==> m == given.value
  {
    if given.None? || given.value == 0 then 6 else given.value
  }

  /** The format component at position `k` (1 to 5) and the magnitude at which it appears. */
  function Component(k: nat): string
    requires 1 <= k <= 5
  {
    if k == 1 then "-MM" else if k == 2 then "-dd" else if k == 3 then " hh" else if k == 4 then ":mm" else ":ss"
  }

  function Part(m: int, k: nat): string
    requires 1 <= k <= 5
  {
    if m >= k + 1 then Component(k) else ""
  }

  /** The display format of `_configure`: `yyyy`, then each component whose threshold the magnitude reaches. */
  function DisplayFormat(m: int): (f: string)
    ensures |f| >= 4 && f[..4] == "yyyy"
  {
    "yyyy" + Part(m, 1) + Part(m, 2) + Part(m, 3) + Part(m, 4) + Part(m, 5)
  }

  /** The components a magnitude shows, in order: the first `m - 1` of them, at most five. */
  function Shown(m: int, k: nat): (s: string)
    requires 1 <= k <= 6
    decreases 6 - k
  {
    if k == 6 || m < k + 1 then "" else Component(k) + Shown(m, k + 1)
  }

  /** Components appear only in order: once one is missing, so are all that follow. */
  lemma {:induction false} PartsInOrder(m: int, k: nat)
    requires 1 <= k <= 5
    ensures Part(m, k) + Shown(m, k + 1) == Shown(m, k)
  {
    if m < k + 1 && k + 1 <= 5 {
      assert Shown(m, k + 1) == "";
    }
  }

  /**
   * The format is `yyyy` followed by the components, in order, whose
   * threshold the magnitude reaches; each component is present exactly
   * when the magnitude reaches it.
   */
  lemma FormatComponents(m: int)
    ensures DisplayFormat(m) == "yyyy" + Shown(m, 1)
    ensures m <= 1 ==> DisplayFormat(m) == "yyyy"
    ensures forall k :: 1 <= k <= 5 ==> (Part(m, k) == Component(k) <==> m >= k + 1)
    ensures forall k :: 1 <= k <= 5 ==> (Part(m, k) == "" <==> m < k + 1)
  {
    PartsInOrder(m, 5);
    PartsInOrder(m, 4);
    PartsInOrder(m, 3);
    PartsInOrder(m, 2);
    PartsInOrder(m, 1);
  }

  /** Raising the magnitude only appends to the format. */
  lemma {:induction false} ShownPrefix(m: int, k: nat)
    requires 1 <= k <= 6
    ensures Shown(m, k) <= Shown(m + 1, k)
    decreases 6 - k
  {
    if k < 6 && m >= k + 1 {
      ShownPrefix(m, k + 1);
    }
  }

  /** The format for magnitude m is a prefix of the format for m + 1. */
  lemma FormatPrefix(m: int)
    ensures DisplayFormat(m) <= DisplayFormat(m + 1)
  {
    FormatComponents(m);
    FormatComponents(m + 1);
    ShownPrefix(m, 1);
  }

  /** Any magnitude of 6 or more, and a missing or zero one, gives the full format. */
  lemma FullFormat(m: int, given: Option<int>)
    requires m >= 6
    requires given.None? || given == Some(0)
    ensures DisplayFormat(m) == "yyyy-MM-dd hh:mm:ss"
    ensures DisplayFormat(Magnitude(given)) == "yyyy-MM-dd hh:mm:ss"
  {
  }
}
