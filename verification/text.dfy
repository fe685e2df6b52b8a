/** The Python `str` operations the application relies on, over `seq<char>`:
    whitespace stripping, lower-casing, prefix/suffix/substring tests,
    `split`, `join` and `splitlines`. Character classes cover Latin-1, which is
    every character the application's own literals use. */
module Text {

  /** `str.isspace()` for Latin-1 characters. */
  predicate IsSpace(c: char) {
    || ('\U{09}' <= c <= '\U{0D}')
    || ('\U{1C}' <= c <= '\U{20}')
    || c == '\U{85}' || c == '\U{A0}'
  }

  /** The line boundaries recognised by `str.splitlines()` (besides the
      two-character `\r\n`). */
  predicate IsLineBreak(c: char) {
    || c == '\n' || c == '\r' || c == '\U{0B}' || c == '\U{0C}'
    || c == '\U{1C}' || c == '\U{1D}' || c == '\U{1E}' || c == '\U{85}'
    || c == '\U{2028}' || c == '\U{2029}'
  }

  predicate IsAsciiDigit(c: char) { '0' <= c <= '9' }
  predicate IsAsciiLetter(c: char) { 'a' <= c <= 'z' || 'A' <= c <= 'Z' }

  /** `str.isdigit()` on one Latin-1 character: the ASCII digits and the
      superscripts one, two and three. */
  predicate IsDigit(c: char) {
    IsAsciiDigit(c) || c == '\U{B2}' || c == '\U{B3}' || c == '\U{B9}'
  }

  /** `str.isalnum()` on one Latin-1 character. */
  predicate IsAlnum(c: char) {
    || IsAsciiLetter(c) || IsAsciiDigit(c)
    || c == '\U{AA}' || c == '\U{B2}' || c == '\U{B3}' || c == '\U{B5}'
    || c == '\U{B9}' || c == '\U{BA}' || ('\U{BC}' <= c <= '\U{BE}')
    || ('\U{C0}' <= c <= '\U{FF}' && c != '\U{D7}' && c != '\U{F7}')
  }

  /** `s.isdigit()`: non-empty and made of digits. */
  predicate IsDigits(s: string) {
    |s| > 0 && forall i :: 0 <= i < |s| ==> IsDigit(s[i])
  }

  /** How many leading characters satisfy `p`. */
  function LeadCount(s: string, p: char -> bool): (n: nat)
    ensures n <= |s|
    ensures forall i :: 0 <= i < n ==> p(s[i])
    ensures n == |s| || !p(s[n])
    decreases |s|
  {
    if |s| > 0 && p(s[0]) then 1 + LeadCount(s[1..], p) else 0
  }

  /** Where the trailing run of characters satisfying `p` starts. */
  function TrailStart(s: string, p: char -> bool): (n: nat)
    ensures n <= |s|
    ensures forall i :: n <= i < |s| ==> p(s[i])
    ensures n == 0 || !p(s[n - 1])
    decreases |s|
  {
    if |s| > 0 && p(s[|s| - 1]) then TrailStart(s[..|s| - 1], p) else |s|
  }

  /** Removes the leading characters satisfying `p` (`str.lstrip(chars)`). */
  function TrimLeft(s: string, p: char -> bool): (r: string)
    ensures |r| <= |s|
    ensures forall i :: 0 <= i < |s| - |r| ==> p(s[i])
    ensures |r| == 0 || !p(r[0])
  {
    s[LeadCount(s, p)..]
  }

  /** Removes the trailing characters satisfying `p` (`str.rstrip(chars)`). */
  function TrimRight(s: string, p: char -> bool): (r: string)
    ensures |r| <= |s|
    ensures forall i :: |r| <= i < |s| ==> p(s[i])
    ensures |r| == 0 || !p(r[|r| - 1])
  {
    s[..TrailStart(s, p)]
  }

  /** `str.strip(chars)`: both ends. */
  function Trim(s: string, p: char -> bool): (r: string)
    ensures |r| == 0 || (!p(r[0]) && !p(r[|r| - 1]))
  {
    TrimRight(TrimLeft(s, p), p)
  }

  /** Every character of a trimmed text comes from the original. */
  lemma TrimSubset(s: string, p: char -> bool)
    ensures forall c :: c in Trim(s, p) ==> c in s
  {
    var l := TrimLeft(s, p);
    var r := TrimRight(l, p);
    forall c | c in r
      ensures c in s
    {
      var i :| 0 <= i < |r| && r[i] == c;
      assert l[i] == c;
      assert s[|s| - |l| + i] == c;
    }
  }

  /** A character outside the trimmed set survives trimming. */
  lemma TrimKeeps(s: string, p: char -> bool, i: nat)
    requires i < |s| && !p(s[i])
    ensures s[i] in Trim(s, p)
  {
    var l := TrimLeft(s, p);
    var d := |s| - |l|;
    assert i >= d;
    assert l[i - d] == s[i];
    var r := TrimRight(l, p);
    assert i - d < |r|;
    assert r[i - d] == l[i - d];
  }

  /** Trimming leaves nothing exactly when every character is trimmed. */
  lemma TrimEmpty(s: string, p: char -> bool)
    ensures |Trim(s, p)| == 0 <==> forall i :: 0 <= i < |s| ==> p(s[i])
  {
    if exists i :: 0 <= i < |s| && !p(s[i]) {
      var i :| 0 <= i < |s| && !p(s[i]);
      TrimKeeps(s, p, i);
    } else {
      TrimLeftAll(s, p);
    }
  }

  /** Trimming a text made only of trimmed characters leaves nothing. */
  lemma TrimLeftAll(s: string, p: char -> bool)
    requires forall i :: 0 <= i < |s| ==> p(s[i])
    ensures TrimLeft(s, p) == ""
  {
  }

  /** `str.strip()` with no argument. */
  function Strip(s: string): string { Trim(s, IsSpace) }

  /** A non-empty text with no blank at either end, as `strip()` leaves a
      non-blank one. */
  predicate Stripped(s: string) {
    |s| > 0 && !IsSpace(s[0]) && !IsSpace(s[|s| - 1])
  }

  /** `str.rstrip()` with no argument. */
  function RStrip(s: string): string { TrimRight(s, IsSpace) }

  lemma TrimLeftNoop(s: string, p: char -> bool)
    requires |s| == 0 || !p(s[0])
    ensures TrimLeft(s, p) == s
  {
  }

  lemma TrimRightNoop(s: string, p: char -> bool)
    requires |s| == 0 || !p(s[|s| - 1])
    ensures TrimRight(s, p) == s
  {
  }

  /** One trimmed character after a text that does not end with one is
      all that trimming the right end removes. */
  lemma TrimRightLast(b: string, c: char, p: char -> bool)
    requires p(c)
    requires |b| == 0 || !p(b[|b| - 1])
    ensures TrimRight(b + [c], p) == b
  {
    var s := b + [c];
    assert s[..|s| - 1] == b;
    assert TrailStart(s, p) == TrailStart(b, p) == |b|;
  }

  /** Stripping twice is stripping once. */
  lemma TrimIdempotent(s: string, p: char -> bool)
    ensures Trim(Trim(s, p), p) == Trim(s, p)
  {
    var t := Trim(s, p);
    TrimLeftNoop(t, p);
    TrimRightNoop(t, p);
  }

  /** `str.lower()` on one character: ASCII and Latin-1 upper-case letters. */
  function LowerChar(c: char): char {
    if 'A' <= c <= 'Z' || ('\U{C0}' <= c <= '\U{DE}' && c != '\U{D7}')
    then (c as int + 32) as char
    else c
  }

  function Lower(s: string): (r: string)
    ensures |r| == |s|
    ensures forall i :: 0 <= i < |s| ==> r[i] == LowerChar(s[i])
  {
    seq(|s|, i requires 0 <= i < |s| => LowerChar(s[i]))
  }

  /** Text without upper-case letters is its own lower case. */
  lemma LowerNoUpper(s: string)
    requires forall i :: 0 <= i < |s| ==> !('A' <= s[i] <= 'Z') && !('\U{C0}' <= s[i] <= '\U{DE}')
    ensures Lower(s) == s
  {
  }

  lemma LowerIdempotent(s: string)
    ensures Lower(Lower(s)) == Lower(s)
  {
  }

  predicate StartsWith(s: string, prefix: string) {
    |prefix| <= |s| && s[..|prefix|] == prefix
  }

  predicate EndsWith(s: string, suffix: string) {
    |suffix| <= |s| && s[|s| - |suffix|..] == suffix
  }

  /** `sub in s`. */
  predicate Contains(s: string, sub: string)
    decreases |s|
  {
    StartsWith(s, sub) || (|s| > 0 && Contains(s[1..], sub))
  }

  lemma ContainsPrefix(s: string, t: string, sub: string)
    requires Contains(s, sub)
    ensures Contains(s + t, sub)
    decreases |s|
  {
    if StartsWith(s, sub) {
      assert (s + t)[..|sub|] == s[..|sub|];
    } else {
      assert (s + t)[1..] == s[1..] + t;
      ContainsPrefix(s[1..], t, sub);
    }
  }

  /** A text contains each of its middle pieces. */
  lemma {:induction false} ContainsMiddle(a: string, b: string, c: string)
    ensures Contains(a + b + c, b)
    decreases |a|
  {
    if |a| == 0 {
      assert a + b + c == b + c;
      assert (b + c)[..|b|] == b;
    } else {
      assert (a + b + c)[1..] == a[1..] + b + c;
      ContainsMiddle(a[1..], b, c);
    }
  }

  /** `str.lower().startswith("http")`, the test every link collector applies. */
  predicate IsHttp(s: string) { StartsWith(Lower(s), "http") }

  /** Any text beginning with `http` passes the `http` test. */
  lemma HttpPrefix(s: string)
    requires |s| >= 4 && s[0] == 'h' && s[1] == 't' && s[2] == 't' && s[3] == 'p'
    ensures IsHttp(s)
  {
    var l := Lower(s);
    assert l[0] == 'h' && l[1] == 't' && l[2] == 't' && l[3] == 'p';
    assert l[..4] == "http";
  }

  /** Index of the first character satisfying `p`, or `|s|` when none does. */
  function FindFirst(s: string, p: char -> bool): (i: nat)
    ensures i <= |s|
    ensures forall j :: 0 <= j < i ==> !p(s[j])
    ensures i < |s| ==> p(s[i])
    decreases |s|
  {
    if |s| == 0 then 0
    else if p(s[0]) then 0
    else 1 + FindFirst(s[1..], p)
  }

  /** Index of the last character satisfying `p`, or -1 when none does
      (`str.rfind` on a single character). */
  function FindLast(s: string, p: char -> bool): (i: int)
    ensures -1 <= i < |s|
    ensures forall j :: i < j < |s| ==> !p(s[j])
    ensures i >= 0 ==> p(s[i])
    decreases |s|
  {
    if |s| == 0 then -1
    else if p(s[|s| - 1]) then |s| - 1
    else FindLast(s[..|s| - 1], p)
  }

  /** `FindFirst` stops at the first character satisfying `p`. */
  lemma FindFirstAt(s: string, p: char -> bool, k: nat)
    requires k <= |s|
    requires forall j :: 0 <= j < k ==> !p(s[j])
    requires k < |s| ==> p(s[k])
    ensures FindFirst(s, p) == k
  {
  }

  /** `FindLast` stops at the last character satisfying `p`. */
  lemma FindLastAt(s: string, p: char -> bool, k: int)
    requires -1 <= k < |s|
    requires forall j :: k < j < |s| ==> !p(s[j])
    requires k >= 0 ==> p(s[k])
    ensures FindLast(s, p) == k
  {
  }

  /** `sep.join(parts)`. */
  function Join(parts: seq<string>, sep: string): string
    decreases |parts|
  {
    if |parts| == 0 then ""
    else if |parts| == 1 then parts[0]
    else parts[0] + sep + Join(parts[1..], sep)
  }

  /** `s.split(sep)` for a one-character separator: never empty, and joining
      the pieces back with the separator restores `s`. */
  function Split(s: string, sep: char): (r: seq<string>)
    ensures |r| >= 1
    ensures forall k :: 0 <= k < |r| ==> sep !in r[k]
    ensures Join(r, [sep]) == s
    decreases |s|
  {
    var i := FindFirst(s, c => c == sep);
    if i == |s| then
      assert forall j :: 0 <= j < |s| ==> s[j] != sep;
      [s]
    else
      var rest := Split(s[i + 1..], sep);
      assert s == s[..i] + [sep] + s[i + 1..];
      [s[..i]] + rest
  }

  /** `s.split(sep)[0]`: the text before the first separator. */
  function Before(s: string, sep: char): (r: string)
    ensures StartsWith(s, r) && sep !in r
  {
    var i := FindFirst(s, c => c == sep);
    s[..i]
  }

  /** Pieces free of the separator, joined by it, split back into the same
      pieces. */
  lemma {:induction false} SplitJoin(parts: seq<string>, sep: char)
    requires |parts| > 0
    requires forall k :: 0 <= k < |parts| ==> sep !in parts[k]
    ensures Split(Join(parts, [sep]), sep) == parts
    decreases |parts|
  {
    var s := Join(parts, [sep]);
    if |parts| == 1 {
      assert forall j :: 0 <= j < |s| ==> s[j] in parts[0];
      FindFirstAt(s, c => c == sep, |s|);
    } else {
      var rest := Join(parts[1..], [sep]);
      assert s == parts[0] + [sep] + rest;
      SplitCons(parts[0], sep, rest);
      SplitJoin(parts[1..], sep);
      assert parts == [parts[0]] + parts[1..];
    }
  }

  /** Splitting `a + [sep] + rest`, when `a` has no separator, gives `a`
      followed by the pieces of `rest`. */
  lemma SplitCons(a: string, sep: char, rest: string)
    requires sep !in a
    ensures Split(a + [sep] + rest, sep) == [a] + Split(rest, sep)
  {
    var s := a + [sep] + rest;
    assert forall j :: 0 <= j < |a| ==> s[j] == a[j] && a[j] in a;
    FindFirstAt(s, c => c == sep, |a|);
    assert s[..|a|] == a;
    assert s[|a| + 1..] == rest;
  }

  /** The text before the first separator of `a + [sep] + b`, when `a` has
      none, is `a`. */
  lemma BeforeSplit(a: string, sep: char, b: string)
    requires sep !in a
    ensures Before(a + [sep] + b, sep) == a
  {
    var s := a + [sep] + b;
    assert forall j :: 0 <= j < |a| ==> s[j] == a[j] && a[j] in a;
    FindFirstAt(s, c => c == sep, |a|);
  }

  /** Text without the separator is kept whole. */
  lemma BeforeWhole(a: string, sep: char)
    requires sep !in a
    ensures Before(a, sep) == a
  {
    assert forall j :: 0 <= j < |a| ==> a[j] in a;
    FindFirstAt(a, c => c == sep, |a|);
  }

  /** No line terminator anywhere in the text. */
  predicate NoLineBreak(s: string) {
    forall i :: 0 <= i < |s| ==> !IsLineBreak(s[i])
  }

  /** `str.splitlines()`: lines without their terminators; a final terminator
      does not open an empty last line, and the empty text has no lines. */
  function SplitLines(s: string): (r: seq<string>)
    ensures forall k :: 0 <= k < |r| ==> NoLineBreak(r[k])
    ensures |s| > 0 ==> |r| > 0
    decreases |s|
  {
    if |s| == 0 then []
    else
      var i := FindFirst(s, IsLineBreak);
      if i == |s| then [s]
      else
        var next := if s[i] == '\r' && i + 1 < |s| && s[i + 1] == '\n' then i + 2 else i + 1;
        [s[..i]] + SplitLines(s[next..])
  }


  /** A text whose first terminator is a lone `\n` at `i` splits there. */
  lemma SplitLinesAt(s: string, i: nat)
    requires i < |s| && s[i] == '\n' && NoLineBreak(s[..i])
    ensures SplitLines(s) == [s[..i]] + SplitLines(s[i + 1..])
  {
    assert forall j :: 0 <= j < i ==> s[j] == s[..i][j];
    FindFirstAt(s, IsLineBreak, i);
  }

  /** A line, a `\n` and more text split into that line and the lines of
      the rest. */
  lemma SplitLinesCons(line: string, rest: string)
    requires NoLineBreak(line)
    ensures SplitLines(line + "\n" + rest) == [line] + SplitLines(rest)
  {
    var s := line + "\n" + rest;
    assert s[..|line|] == line;
    assert s[|line| + 1..] == rest;
    SplitLinesAt(s, |line|);
  }

  /** Lines joined by `"\n"` split back into the same lines, provided no line
      holds a terminator and the last one is not empty. */
  lemma {:induction false} SplitLinesJoin(lines: seq<string>)
    requires |lines| > 0
    requires forall k :: 0 <= k < |lines| ==> NoLineBreak(lines[k])
    requires |lines[|lines| - 1]| > 0
    ensures SplitLines(Join(lines, "\n")) == lines
    decreases |lines|
  {
    var s := Join(lines, "\n");
    if |lines| == 1 {
      FindFirstAt(s, IsLineBreak, |s|);
    } else {
      var rest := Join(lines[1..], "\n");
      assert s == lines[0] + "\n" + rest;
      SplitLinesCons(lines[0], rest);
      SplitLinesJoin(lines[1..]);
      assert lines == [lines[0]] + lines[1..];
    }
  }
}
