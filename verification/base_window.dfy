/** The text the base window writes to its log pane and progress label:
    timestamped lines, prefixed lines, the per-taxpayer separator, the start
    banner and the clamped `current/total` counter. */
module BaseWindow {
  import opened Text
  import opened Digits
  import opened Json

  // ---------------------------------------------------------------------
  // _prefix_lines

  /** The lines of a message (`splitlines() or [""]`). */
  function MessageLines(message: string): (r: seq<string>)
    ensures |r| >= 1
    ensures |message| > 0 ==> r == SplitLines(message)
    ensures forall k :: 0 <= k < |r| ==> NoLineBreak(r[k])
  {
    var lines := SplitLines(message);
    if |lines| == 0 then [""] else lines
  }

  /** A line under a prefix; an empty line keeps only the prefix without its
      trailing blanks. */
  function PrefixLine(prefix: string, line: string): (r: string)
    ensures |line| > 0 ==> StartsWith(r, prefix) && EndsWith(r, line) && |r| == |prefix| + |line|
    ensures |line| == 0 ==> r == RStrip(prefix)
  {
    if |line| > 0 then prefix + line else RStrip(prefix)
  }

  function PrefixedLines(prefix: string, message: string): (r: seq<string>)
    ensures |r| == |MessageLines(message)|
    ensures forall k :: 0 <= k < |r| ==> r[k] == PrefixLine(prefix, MessageLines(message)[k])
  {
    var lines := MessageLines(message);
    seq(|lines|, k requires 0 <= k < |lines| => PrefixLine(prefix, lines[k]))
  }

  /** `_prefix_lines(prefix, message)`. */
  function PrefixLines(prefix: string, message: string): string {
    Join(PrefixedLines(prefix, message), "\n")
  }

  lemma NoLineBreakAppend(a: string, b: string)
    requires NoLineBreak(a) && NoLineBreak(b)
    ensures NoLineBreak(a + b)
  {
  }

  lemma RStripNoLineBreak(s: string)
    requires NoLineBreak(s)
    ensures NoLineBreak(RStrip(s))
  {
    var r := RStrip(s);
    assert forall c :: c in r ==> c in s by {
      assert forall j :: 0 <= j < |r| ==> r[j] == s[j];
    }
  }

  /** The output of `_prefix_lines` read back line by line: one line per
      input line (at least one), each the input line under the prefix, or the
      bare prefix for an empty line. Needs a one-line prefix that is not all
      blanks. */
  lemma PrefixLinesSplit(prefix: string, message: string)
    requires NoLineBreak(prefix) && |RStrip(prefix)| > 0
    ensures SplitLines(PrefixLines(prefix, message)) == PrefixedLines(prefix, message)
    ensures |SplitLines(PrefixLines(prefix, message))| == if |message| == 0 then 1 else |SplitLines(message)|
    ensures forall k :: 0 <= k < |SplitLines(message)| && |SplitLines(message)[k]| > 0 ==>
      SplitLines(PrefixLines(prefix, message))[k] == prefix + SplitLines(message)[k]
  {
    var lines := MessageLines(message);
    var out := PrefixedLines(prefix, message);
    RStripNoLineBreak(prefix);
    forall k | 0 <= k < |out|
      ensures NoLineBreak(out[k])
    {
      if |lines[k]| > 0 {
        NoLineBreakAppend(prefix, lines[k]);
      }
    }
    SplitLinesJoin(out);
  }

  // ---------------------------------------------------------------------
  // _format_log_message

  /** `[<timestamp>] <line>`, or `[<timestamp>]` for an empty line. */
  function StampLine(ts: string, line: string): (r: string)
    ensures StartsWith(r, "[" + ts + "]")
  {
    if |line| > 0 then "[" + ts + "] " + line else "[" + ts + "]"
  }

  function StampedLines(ts: string, message: string): (r: seq<string>)
    ensures |r| == |MessageLines(message)|
    ensures forall k :: 0 <= k < |r| ==> r[k] == StampLine(ts, MessageLines(message)[k])
  {
    var lines := MessageLines(message);
    seq(|lines|, k requires 0 <= k < |lines| => StampLine(ts, lines[k]))
  }

  /** `_format_log_message(message)` with the clock reading `ts`. */
  function FormatLogMessage(ts: string, message: string): (r: string)
    ensures |message| == 0 <==> r == ""
    ensures |message| > 0 ==> EndsWith(r, "\n")
  {
    if |message| == 0 then ""
    else
      var body := Join(StampedLines(ts, message), "\n");
      assert (body + "\n")[|body|..] == "\n";
      body + "\n"
  }

  /** Joined lines with a final newline split back into the same lines. */
  lemma {:induction false} SplitLinesJoinNewline(lines: seq<string>)
    requires |lines| > 0
    requires forall k :: 0 <= k < |lines| ==> NoLineBreak(lines[k])
    ensures SplitLines(Join(lines, "\n") + "\n") == lines
    decreases |lines|
  {
    if |lines| == 1 {
      assert Join(lines, "\n") + "\n" == lines[0] + "\n" + "";
      SplitLinesCons(lines[0], "");
    } else {
      var rest := Join(lines[1..], "\n") + "\n";
      assert Join(lines, "\n") + "\n" == lines[0] + "\n" + rest;
      SplitLinesCons(lines[0], rest);
      SplitLinesJoinNewline(lines[1..]);
      assert lines == [lines[0]] + lines[1..];
    }
  }

  /** Every line written to the log starts with the bracketed timestamp, and
      there is exactly one per line of the message. */
  lemma FormatLogMessageLines(ts: string, message: string)
    requires NoLineBreak(ts) && |message| > 0
    ensures SplitLines(FormatLogMessage(ts, message)) == StampedLines(ts, message)
    ensures |SplitLines(FormatLogMessage(ts, message))| == |SplitLines(message)|
    ensures forall k :: 0 <= k < |SplitLines(message)| ==>
      StartsWith(SplitLines(FormatLogMessage(ts, message))[k], "[" + ts + "]")
  {
    var lines := MessageLines(message);
    var out := StampedLines(ts, message);
    forall k | 0 <= k < |out|
      ensures NoLineBreak(out[k])
    {
      var head := "[" + ts + "]";
      assert NoLineBreak(head) by { NoLineBreakAppend("[" + ts, "]"); NoLineBreakAppend("[", ts); }
      if |lines[k]| > 0 {
        NoLineBreakAppend(head, " ");
        NoLineBreakAppend(head + " ", lines[k]);
        assert out[k] == head + " " + lines[k];
      } else {
        assert out[k] == head;
      }
    }
    SplitLinesJoinNewline(out);
  }

  // ---------------------------------------------------------------------
  // log_separator and log_start

  const SeparatorWidth := 60

  function Dashes(): (r: string)
    ensures |r| == SeparatorWidth && forall i :: 0 <= i < |r| ==> r[i] == '-'
  {
    seq(SeparatorWidth, _ => '-')
  }

  /** The message `log_separator(name)` logs. */
  function SeparatorText(name: string): string {
    Dashes() + "\n" + "CONTRIBUYENTE: " + name + "\n" + Dashes()
  }

  /** The separator reads back as three lines: sixty dashes, the label line
      and sixty dashes again. */
  lemma SeparatorLines(name: string)
    requires NoLineBreak(name)
    ensures SplitLines(SeparatorText(name)) == [Dashes(), "CONTRIBUYENTE: " + name, Dashes()]
  {
    var lines := [Dashes(), "CONTRIBUYENTE: " + name, Dashes()];
    assert NoLineBreak(Dashes()) by {
      assert forall c :: c in Dashes() ==> c == '-';
    }
    NoLineBreakAppend("CONTRIBUYENTE: ", name);
    assert Join(lines[2..], "\n") == Dashes();
    assert Join(lines[1..], "\n") == "CONTRIBUYENTE: " + name + "\n" + Dashes() by {
      assert lines[1..][1..] == lines[2..];
    }
    assert Join(lines, "\n") == SeparatorText(name);
    SplitLinesJoin(lines);
  }

  const StartHead := "INICIADOR: "

  /** The message `log_start(title, details)` logs; `encode` is the JSON
      serialisation of the details. */
  function StartText(title: string, details: Value, encode: Value -> string): (r: string)
    ensures StartsWith(r, StartHead + title)
    ensures |r| > |StartHead + title| <==> Truthy(details)
    ensures Truthy(details) ==> r[|StartHead + title|..] == " | " + encode(details)
  {
    var head := StartHead + title;
    if Truthy(details) then
      var r := head + " | " + encode(details);
      assert r[..|head|] == head && r[|head|..] == " | " + encode(details);
      r
    else head
  }

  // ---------------------------------------------------------------------
  // set_progress

  /** What the progress widgets show: the bar's value and maximum and the
      label. */
  datatype Progress = Progress(value: int, maximum: int, caption: string)

  function Clamp(current: int, total: int): (v: int)
    requires total > 0
    ensures 0 <= v <= total
    ensures 0 <= current <= total ==> v == current
    ensures current < 0 ==> v == 0
    ensures current > total ==> v == total
  {
    if current < 0 then 0 else if current > total then total else current
  }

  /** `set_progress(current, total)`. */
  function SetProgress(current: int, total: int): (p: Progress)
    ensures total <= 0 ==> p == Progress(0, 1, "0/0")
    ensures total > 0 ==> p.maximum == total && p.value == Clamp(current, total)
  {
    if total <= 0 then Progress(0, 1, "0/0")
    else
      var v := Clamp(current, total);
      Progress(v, total, IntToString(v) + "/" + IntToString(total))
  }

  /** The label reads back as the shown value and the total. */
  lemma ProgressLabel(current: int, total: int)
    requires total > 0
    ensures var parts := Split(SetProgress(current, total).caption, '/');
      |parts| == 2 && AllDigits(parts[0]) && AllDigits(parts[1])
      && ParseDigits(parts[0]) == Clamp(current, total) && ParseDigits(parts[1]) == total
  {
    var v := Clamp(current, total);
    var a := NatToString(v);
    var b := NatToString(total);
    assert '/' !in a && '/' !in b by {
      assert forall c :: c in a ==> IsAsciiDigit(c);
      assert forall c :: c in b ==> IsAsciiDigit(c);
    }
    SplitTwo(a, b, '/');
    ParseNatToString(v);
    ParseNatToString(total);
  }

  lemma SplitTwo(a: string, b: string, sep: char)
    requires sep !in a && sep !in b
    ensures Split(a + [sep] + b, sep) == [a, b]
  {
    var s := a + [sep] + b;
    assert forall j :: 0 <= j < |a| ==> s[j] == a[j] && a[j] in a;
    FindFirstAt(s, c => c == sep, |a|);
    assert s[|a| + 1..] == b;
    assert s[..|a|] == a;
    assert forall j :: 0 <= j < |b| ==> b[j] in b;
    FindFirstAt(b, c => c == sep, |b|);
  }
}
