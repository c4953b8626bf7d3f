/**
 * Nested logs (iotools/log/nested.py): every formatted line is indented by
 * the indentation token repeated to the current level, unless indentation
 * is switched off. An indentation log keeps the level as a counter that a
 * `with` block raises; a stack-frame log derives it from a stack of call
 * frames that it refreshes from each record's frames.
 */
module NestedLogs {
  import opened Python
  import LogBase

  /** A call frame, by identity. */
  type Frame = nat

  /** `format_message_line`: the token repeated `level` times before the line when `indent` is set. */
  function MessageLine(token: string, level: int, indent: bool, line: string): string
  {
    (if indent then Repeat(token, level) else "") + line
  }

  /**
   * The frames `refresh_frames` keeps, for a non-empty stack: top frames
   * absent from the record's frames are popped; at the first present one the
   * record's topmost frame is pushed unless that frame already is it. A
   * stack whose frames are all absent ends empty.
   */
  function Unwound(frames: seq<Frame>, recordFrames: seq<Frame>): seq<Frame>
    requires recordFrames != []
    decreases |frames|
  {
    if frames == [] then []
    else if frames[|frames| - 1] !in recordFrames then Unwound(frames[..|frames| - 1], recordFrames)
    else if frames[|frames| - 1] != recordFrames[0] then frames + [recordFrames[0]]
    else frames
  }

  /** `refresh_frames`: an empty stack gets the record's topmost frame; any other is unwound. */
  function Refreshed(frames: seq<Frame>, recordFrames: seq<Frame>): seq<Frame>
    requires recordFrames != []
  {
    if frames == [] then [recordFrames[0]] else Unwound(frames, recordFrames)
  }

  /**
   * Unwinding keeps a prefix of the stack and may push the record's topmost
   * frame: afterwards the stack is empty or topped by that frame, it is at
   * most one frame deeper, every frame popped is absent from the record's
   * frames, and it is empty only when every frame was absent.
   */
  lemma {:induction false} UnwoundShape(frames: seq<Frame>, recordFrames: seq<Frame>)
    requires recordFrames != []
    ensures var r := Unwound(frames, recordFrames);
            (r == [] || r[|r| - 1] == recordFrames[0])
            && |r| <= |frames| + 1
            && (r != [] ==> r[..|r| - 1] <= frames)
            && (forall j :: |r| <= j < |frames| ==> frames[j] !in recordFrames)
            && (r == [] <==> forall j :: 0 <= j < |frames| ==> frames[j] !in recordFrames)
    decreases |frames|
  {
    if frames != [] {
      var n := |frames| - 1;
      var rest := frames[..n];
      if frames[n] !in recordFrames {
        UnwoundShape(rest, recordFrames);
        var r := Unwound(rest, recordFrames);
        assert Unwound(frames, recordFrames) == r;
        if r != [] {
          assert r[..|r| - 1] <= frames by {
            assert r[..|r| - 1] <= rest;
            assert rest <= frames;
          }
        }
        forall j | |r| <= j < |frames| ensures frames[j] !in recordFrames {
          if j < n {
            assert frames[j] == rest[j];
          }
        }
        assert (forall j :: 0 <= j < |frames| ==> frames[j] !in recordFrames)
               <==> (forall j :: 0 <= j < n ==> rest[j] !in recordFrames);
      } else {
        var r := Unwound(frames, recordFrames);
        assert r[..|r| - 1] <= frames by {
          if frames[n] != recordFrames[0] {
            assert r[..|r| - 1] == frames;
          }
        }
      }
    }
  }

  /** After a refresh the stack is topped by the record's topmost frame or empty, and at most one frame deeper. */
  lemma RefreshShape(frames: seq<Frame>, recordFrames: seq<Frame>)
    requires recordFrames != []
    ensures var r := Refreshed(frames, recordFrames);
            (r == [] || r[|r| - 1] == recordFrames[0]) && |r| <= |frames| + 1
            && (r == [] ==> frames != [])
  {
    if frames != [] {
      UnwoundShape(frames, recordFrames);
    }
  }

  /** A record from the frame already on top leaves the stack as it is. */
  lemma RefreshSameFrame(frames: seq<Frame>, recordFrames: seq<Frame>)
    requires recordFrames != [] && frames != [] && frames[|frames| - 1] == recordFrames[0]
    ensures Refreshed(frames, recordFrames) == frames
  {
  }

  /** The `indentation_token` default of the base class: four spaces. */
  const DefaultToken: string := "    "

  /**
   * A nested log. `framed` tells the two concrete classes apart: a
   * stack-frame log (level from `frames`) or an indentation log (level from
   * `counter`); the fields of the other class are unused.
   */
  class NestedLog {
    const token: string
    const framed: bool
    var indent: bool
    var counter: int
    var frames: seq<Frame>

    /**
     * `__init__`: indentation on, level counter zero, no frames. Only the
     * stack-frame log passes its `indentation_token` on to the base class;
     * an indentation log keeps the base default of four spaces whatever it
     * is given.
     */
    constructor (indentationToken: string, isFramed: bool)
      ensures token == (if isFramed then indentationToken else DefaultToken) && framed == isFramed
      ensures indent && counter == 0 && frames == []
    {
      token, framed := if isFramed then indentationToken else DefaultToken, isFramed;
      indent, counter, frames := true, 0, [];
    }

    /** `indentation_level`: the stack depth less one, or the counter. */
    function Level(): (l: int)
      reads this
      ensures framed ==> l == |frames| - 1
      ensures !framed ==> l == counter
    {
      if framed then |frames| - 1 else counter
    }

    /** The record formatted with this log's `format_message_line`, in the current state. */
    function Formatted(r: LogBase.Record): (s: string)
      reads this
      ensures !indent ==> s == LogBase.Format(r, LogBase.Plain)
    {
      var t, l, i := token, Level(), indent;
      UnindentedIsPlain(t, l, r);
      LogBase.Format(r, line => MessageLine(t, l, i, line))
    }

    /**
     * `no_indentation`, entering: the flag is saved (in the generator) and
     * cleared.
     */
    method EnterNoIndentation() returns (saved: bool)
      modifies this
      ensures saved == old(indent) && !indent
      ensures counter == old(counter) && frames == old(frames)
    {
      saved := indent;
      indent := false;
    }

    /**
     * `no_indentation`, leaving: the saved flag comes back only when the
     * block ended normally; there is no `finally`, so an exception leaves
     * indentation off.
     */
    method ExitNoIndentation(saved: bool, raised: bool)
      modifies this
      ensures indent == if raised then old(indent) else saved
      ensures counter == old(counter) && frames == old(frames)
    {
      if !raised {
        indent := saved;
      }
    }

    /** `indentation` of an indentation log, entering: one level deeper. */
    method EnterIndentation()
      requires !framed
      modifies this
      ensures counter == old(counter) + 1 && Level() == old(Level()) + 1
      ensures indent == old(indent) && frames == old(frames)
    {
      counter := counter + 1;
    }

    /** `indentation`, leaving: one level back only on normal exit (no `finally`). */
    method ExitIndentation(raised: bool)
      requires !framed
      modifies this
      ensures counter == if raised then old(counter) else old(counter) - 1
      ensures indent == old(indent) && frames == old(frames)
    {
      if !raised {
        counter := counter - 1;
      }
    }

    /**
     * `refresh_frames`: the record's frames (`true_frames` of its frame) are
     * a parameter; an empty list makes `record_frames[0]` raise an
     * IndexError before anything changes.
     */
    method RefreshFrames(recordFrames: seq<Frame>) returns (raised: Option<Exc>)
      requires framed
      modifies this
      ensures recordFrames == [] ==> raised == Some(IndexError) && frames == old(frames)
      ensures recordFrames != [] ==> raised.None? && frames == Refreshed(old(frames), recordFrames)
      ensures indent == old(indent) && counter == old(counter)
    {
      if recordFrames == [] {
        return Some(IndexError);
      }
      var top := recordFrames[0];
      if frames == [] {
        frames := [top];
        return None;
      }
      var i := |frames|;
      while i > 0
        invariant 0 <= i <= |old(frames)| && frames == old(frames)[..i]
        invariant frames != [] ==> Unwound(frames, recordFrames) == Unwound(old(frames), recordFrames)
        invariant frames == [] ==> Unwound(old(frames), recordFrames) == []
        invariant indent == old(indent) && counter == old(counter)
      {
        var frame := frames[i - 1];
        if frame !in recordFrames {
          frames := frames[..i - 1];
          i := i - 1;
        } else {
          if frame != top {
            frames := frames + [top];
          }
          return None;
        }
      }
      return None;
    }

    /**
     * `format`: a stack-frame log with indentation on first refreshes its
     * frames from the record's; then the record is formatted at the level
     * that results.
     */
    method Format(r: LogBase.Record, recordFrames: seq<Frame>) returns (out: Result<string>)
      modifies this
      ensures framed && indent && recordFrames == [] ==> out == Err(IndexError) && frames == old(frames)
      ensures framed && indent && recordFrames != [] ==> frames == Refreshed(old(frames), recordFrames)
      ensures !(framed && indent) ==> frames == old(frames)
      ensures !(framed && indent && recordFrames == []) ==> out == Ok(Formatted(r))
      ensures indent == old(indent) && counter == old(counter)
    {
      if framed && indent {
        var raised := RefreshFrames(recordFrames);
        if raised.Some? {
          return Err(raised.value);
        }
      }
      out := Ok(Formatted(r));
    }

    /** `format` while indentation is off: the frames are not refreshed and the record reads as the base class formats it. */
    method FormatUnindented(r: LogBase.Record) returns (line: string)
      requires !indent
      modifies this
      ensures line == LogBase.Format(r, LogBase.Plain)
      ensures !indent && counter == old(counter) && frames == old(frames)
    {
      var out := Format(r, []);
      line := out.value;
    }

    /**
     * What `greeting`, `goodbye` and `handle_exception` share: their records
     * are formatted with indentation off, so each reads as the base class
     * formats it, and the frames are not refreshed; afterwards indentation is
     * as before.
     */
    method Unindented(records: seq<LogBase.Record>) returns (out: seq<string>)
      modifies this
      ensures |out| == |records|
      ensures forall i :: 0 <= i < |records| ==> out[i] == LogBase.Format(records[i], LogBase.Plain)
      ensures indent == old(indent) && counter == old(counter) && frames == old(frames)
    {
      var saved := EnterNoIndentation();
      out := [];
      var i := 0;
      while i < |records|
        invariant 0 <= i <= |records| && !indent
        invariant counter == old(counter) && frames == old(frames)
        invariant |out| == i
        invariant forall k :: 0 <= k < i ==> out[k] == LogBase.Format(records[k], LogBase.Plain)
      {
        var line := FormatUnindented(records[i]);
        out := out + [line];
        i := i + 1;
      }
      ExitNoIndentation(saved, false);
    }

    /** `greeting`, with indentation off. */
    method Greeting(user: string, time: string) returns (out: seq<string>)
      modifies this
      ensures |out| == 2 && out[0] == LogBase.Format(LogBase.Greeting(user, time)[0], LogBase.Plain)
      ensures out[1] == LogBase.Format(LogBase.Greeting(user, time)[1], LogBase.Plain)
      ensures indent == old(indent) && counter == old(counter) && frames == old(frames)
    {
      out := Unindented(LogBase.Greeting(user, time));
    }

    /** `goodbye`, with indentation off. */
    method Goodbye(time: string) returns (out: seq<string>)
      modifies this
      ensures out == [LogBase.Format(LogBase.Goodbye(time)[0], LogBase.Plain)]
      ensures indent == old(indent) && counter == old(counter) && frames == old(frames)
    {
      out := Unindented(LogBase.Goodbye(time));
    }

    /** `handle_exception`, with indentation off. */
    method HandleException(traceback: string, time: string) returns (out: seq<string>)
      modifies this
      ensures |out| == 2 && out[1] == LogBase.Format(LogBase.ExceptionRecords(traceback, time)[1], LogBase.Plain)
      ensures out[0] == LogBase.Format(LogBase.ExceptionRecords(traceback, time)[0], LogBase.Plain)
      ensures indent == old(indent) && counter == old(counter) && frames == old(frames)
    {
      out := Unindented(LogBase.ExceptionRecords(traceback, time));
    }

    /** `__enter__`: a stack-frame log clears its frames; then the greeting is written. */
    method Enter(user: string, time: string) returns (out: seq<string>)
      modifies this
      ensures framed ==> frames == []
      ensures !framed ==> frames == old(frames)
      ensures |out| == 2 && out[0] == LogBase.Format(LogBase.Greeting(user, time)[0], LogBase.Plain)
      ensures indent == old(indent) && counter == old(counter)
    {
      if framed {
        frames := [];
      }
      out := Greeting(user, time);
    }

    /**
     * `__exit__`: a stack-frame log clears its frames; an exception is
     * written (delimiter and traceback), then the goodbye.
     */
    method Exit(traceback: Option<string>, time: string) returns (out: seq<string>)
      modifies this
      ensures framed ==> frames == []
      ensures !framed ==> frames == old(frames)
      ensures traceback.None? ==> |out| == 1
      ensures traceback.Some? ==> |out| == 3 && out[0] == LogBase.Format(LogBase.ExceptionRecords(traceback.value, time)[0], LogBase.Plain)
                                  && out[1] == LogBase.Format(LogBase.ExceptionRecords(traceback.value, time)[1], LogBase.Plain)
      ensures out[|out| - 1] == LogBase.Format(LogBase.Goodbye(time)[0], LogBase.Plain)
      ensures indent == old(indent) && counter == old(counter)
    {
      if framed {
        frames := [];
      }
      if traceback.Some? {
        var failure := HandleException(traceback.value, time);
        var bye := Goodbye(time);
        out := [failure[0], failure[1], bye[0]];
      } else {
        out := Goodbye(time);
      }
    }
  }

  /** With indentation off, a nested log formats a record exactly as the base class does. */
  lemma UnindentedIsPlain(token: string, level: int, r: LogBase.Record)
    ensures LogBase.Format(r, line => MessageLine(token, level, false, line)) == LogBase.Format(r, LogBase.Plain)
  {
    LogBase.SameLineFormat(r, line => MessageLine(token, level, false, line), LogBase.Plain);
  }

  /**
   * With indentation on, each output line is the prefix, then the token
   * repeated to the level, then the line of the stripped message; the line
   * count is the message's.
   */
  lemma IndentedLines(token: string, level: int, r: LogBase.Record)
    requires r.level != LogBase.Bare && '\n' !in LogBase.Prefix(r) && '\n' !in token
    ensures var lines := Split(LogBase.MessageText(r), '\n');
            var out := Split(LogBase.Format(r, line => MessageLine(token, level, true, line)), '\n');
            |out| == |lines|
            && forall i :: 0 <= i < |lines| ==> out[i] == LogBase.Prefix(r) + Repeat(token, level) + lines[i]
  {
    var f := line => MessageLine(token, level, true, line);
    RepeatNoNewline(token, level);
    LogBase.FormatLines(r, f);
  }

  lemma {:induction false} RepeatNoNewline(token: string, n: int)
    requires '\n' !in token
    ensures '\n' !in Repeat(token, n)
    decreases if n < 0 then 0 else n
  {
    if n > 0 {
      RepeatNoNewline(token, n - 1);
    }
  }
}
