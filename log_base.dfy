/**
 * The log handler base class (iotools/log/base.py): a record is formatted
 * line by line, every line of its stripped message behind the same prefix
 * of time, channel and level name; records logged at level 100 are written
 * as they are. The format string and the formatter cannot be replaced.
 */
module LogBase {
  import opened Python

  /** logbook's level numbers for the levels the class logs at. */
  const Debug: int := 10
  const Critical: int := 15
  /** The level `bare` logs at: such records skip all formatting. */
  const Bare: int := 100

  /** What `format` reads of a logbook record; `time` is the record's time already rendered. */
  datatype Record = Record(level: int, levelName: string, channel: string, time: string, message: string)

  /** `s.ljust(width)`: `s` padded with spaces on the right to at least `width` characters. */
  function LJust(s: string, width: int): (r: string)
    ensures |r| == if |s| >= width then |s| else width
    ensures r[..|s|] == s
    ensures forall i :: |s| <= i < |r| ==> r[i] == ' '
  {
    s + seq(if |s| >= width then 0 else width - |s|, _ => ' ')
  }

  /** `format_prefix`: time, then channel and level name (padded to eight), between bars. */
  function Prefix(r: Record): string
  {
    r.time + " | " + r.channel + "." + LJust(r.levelName, 8) + " | "
  }

  /** Each line given the prefix and passed through the line format. */
  function PrefixedLines(prefix: string, lines: seq<string>, lineFormat: string -> string): (r: seq<string>)
    ensures |r| == |lines|
    ensures forall i :: 0 <= i < |lines| ==> r[i] == prefix + lineFormat(lines[i])
  {
    seq(|lines|, i requires 0 <= i < |lines| => prefix + lineFormat(lines[i]))
  }

  /** `format_message`: the message stripped. */
  function MessageText(r: Record): string
  {
    Strip(r.message)
  }

  /**
   * `format`: a record at level 100 is its message; any other is the
   * stripped message split into lines, each behind the prefix and passed
   * through `lineFormat` (the `format_message_line` of the class in use),
   * joined again by newlines.
   */
  function Format(r: Record, lineFormat: string -> string): (out: string)
    ensures r.level == Bare ==> out == r.message
  {
    if r.level == Bare then r.message
    else Join("\n", PrefixedLines(Prefix(r), Split(MessageText(r), '\n'), lineFormat))
  }

  /** Two line formats that agree on every line format every record alike. */
  lemma {:induction false} SameLineFormat(r: Record, f: string -> string, g: string -> string)
    requires forall line :: f(line) == g(line)
    ensures Format(r, f) == Format(r, g)
  {
    if r.level != Bare {
      var lines := Split(MessageText(r), '\n');
      assert PrefixedLines(Prefix(r), lines, f) == PrefixedLines(Prefix(r), lines, g);
    }
  }

  /** The base class's `format_message_line`: the line as it is. */
  function Plain(line: string): string
  {
    line
  }

  /**
   * Formatting keeps the lines of the stripped message: the output has as
   * many lines, and line i is the prefix followed by the formatted line i,
   * provided neither the prefix nor a formatted line adds a line break.
   */
  lemma FormatLines(r: Record, lineFormat: string -> string)
    requires r.level != Bare
    requires '\n' !in Prefix(r)
    requires forall line :: '\n' !in line ==> '\n' !in lineFormat(line)
    ensures var lines := Split(MessageText(r), '\n');
            var out := Split(Format(r, lineFormat), '\n');
            |out| == |lines| && forall i :: 0 <= i < |lines| ==> out[i] == Prefix(r) + lineFormat(lines[i])
  {
    var lines := Split(MessageText(r), '\n');
    var prefixed := PrefixedLines(Prefix(r), lines, lineFormat);
    forall i | 0 <= i < |prefixed| ensures '\n' !in prefixed[i] {
      assert '\n' !in lines[i];
    }
    SplitJoin(prefixed, '\n');
  }

  /** A line with its first `n` characters dropped. */
  function Unprefixed(line: string, n: nat): string
  {
    if n <= |line| then line[n..] else ""
  }

  /** With the plain line format, dropping the prefix from each output line gives the stripped message back. */
  lemma PlainFormatKeepsMessage(r: Record)
    requires r.level != Bare
    requires '\n' !in Prefix(r)
    ensures var out := Split(Format(r, Plain), '\n');
            Join("\n", seq(|out|, i requires 0 <= i < |out| => Unprefixed(out[i], |Prefix(r)|))) == MessageText(r)
  {
    var lines := Split(MessageText(r), '\n');
    FormatLines(r, Plain);
    var out := Split(Format(r, Plain), '\n');
    var back := seq(|out|, i requires 0 <= i < |out| => Unprefixed(out[i], |Prefix(r)|));
    assert back == lines by {
      forall i | 0 <= i < |lines| ensures back[i] == lines[i] {
        assert out[i] == Prefix(r) + lines[i];
      }
    }
    JoinSplit(MessageText(r), '\n');
  }

  /** The message of the ValueError both setters raise. */
  function CannotSet(attribute: string): string
  {
    "Cannot set '" + attribute + "' directly. Please subclass and override one or several of the following methods:"
  }

  /**
   * The `format_string` setter: None and the handler's default format
   * string are accepted (and change nothing); any other string is refused
   * with a ValueError. The getter always reads None.
   */
  function SetFormatString(value: Option<string>, default: string): (raised: Option<Exc>)
    ensures raised.None? <==> value.None? || value.value == default
    ensures raised.Some? ==> raised.value.ValueError?
  {
    if value.Some? && value.value != default then
      Some(ValueError(Message(CannotSet("format_string"))))
    else None
  }

  /** The `formatter` setter: only None is accepted; the getter is always the class's own `format`. */
  function SetFormatter<F>(value: Option<F>): (raised: Option<Exc>)
    ensures raised.None? <==> value.None?
    ensures raised.Some? ==> raised.value.ValueError?
  {
    if value.Some? then
      Some(ValueError(Message(CannotSet("formatter"))))
    else None
  }

  /** `"-"*200` and `"="*200`, the single and double delimiters. */
  function Delimiter(c: char): (d: string)
    ensures |d| == 200 && forall i :: 0 <= i < 200 ==> d[i] == c
  {
    seq(200, _ => c)
  }

  /** A record logged by the class at `level` on the default logger. */
  function Logged(level: int, levelName: string, time: string, message: string): Record
  {
    Record(level, levelName, "main", time, message)
  }

  /** `greeting`: who ran the process, then a single delimiter, both at DEBUG. */
  function Greeting(user: string, time: string): (rs: seq<Record>)
    ensures |rs| == 2 && rs[0].message == "Process executed by user " + user && rs[1].message == Delimiter('-')
    ensures forall i :: 0 <= i < |rs| ==> rs[i].level == Debug
  {
    [Logged(Debug, "DEBUG", time, "Process executed by user " + user), Logged(Debug, "DEBUG", time, Delimiter('-'))]
  }

  /** `goodbye`: a double delimiter at DEBUG. */
  function Goodbye(time: string): (rs: seq<Record>)
    ensures |rs| == 1 && rs[0].level == Debug && rs[0].message == Delimiter('=')
  {
    [Logged(Debug, "DEBUG", time, Delimiter('='))]
  }

  /** `handle_exception`: a single delimiter at DEBUG, then the traceback at CRITICAL. */
  function ExceptionRecords(traceback: string, time: string): (rs: seq<Record>)
    ensures |rs| == 2 && rs[0].level == Debug && rs[0].message == Delimiter('-')
    ensures rs[1].level == Critical && rs[1].message == traceback
  {
    [Logged(Debug, "DEBUG", time, Delimiter('-')), Logged(Critical, "CRITICAL", time, traceback)]
  }
}
