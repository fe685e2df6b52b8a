/** The shared helpers of `mrbot_app/helpers.py`: URL normalisation, request
    headers, the boolean reading of a spreadsheet cell, collision-free file
    names and the `AAAAMM` period format. */
module Helpers {
  import opened Prelude
  import opened Text
  import opened Digits
  import opened Json
  import opened Urls

  /** `ensure_trailing_slash`: appends `/` unless the URL already ends in one. */
  function EnsureTrailingSlash(url: string): (r: string)
    ensures EndsWith(r, "/")
    ensures StartsWith(r, url) && |r| <= |url| + 1
    ensures EndsWith(url, "/") <==> r == url
  {
    if EndsWith(url, "/") then url else url + "/"
  }

  lemma EnsureTrailingSlashIdempotent(url: string)
    ensures EnsureTrailingSlash(EnsureTrailingSlash(url)) == EnsureTrailingSlash(url)
  {
  }

  const ContentTypeHeader := "Content-Type"
  const ApiKeyHeader := "x-api-key"
  const EmailHeader := "email"

  /** `build_headers`: always a JSON content type; the API key and the e-mail
      only when they are non-empty. */
  function BuildHeaders(apiKey: string, email: string): (h: map<string, string>)
    ensures ContentTypeHeader in h && h[ContentTypeHeader] == "application/json"
    ensures ApiKeyHeader in h <==> |apiKey| > 0
    ensures ApiKeyHeader in h ==> h[ApiKeyHeader] == apiKey
    ensures EmailHeader in h <==> |email| > 0
    ensures EmailHeader in h ==> h[EmailHeader] == email
    ensures h.Keys <= {ContentTypeHeader, ApiKeyHeader, EmailHeader}
  {
    var h0 := map[ContentTypeHeader := "application/json"];
    var h1 := if |apiKey| > 0 then h0[ApiKeyHeader := apiKey] else h0;
    if |email| > 0 then h1[EmailHeader := email] else h1
  }

  /** The words read as true and as false by every boolean cell reader. */
  const TrueWords: set<string> := {"true", "1", "si", "s\U{ED}", "yes", "y"}
  const FalseWords: set<string> := {"false", "0", "no", "n"}

  /** `str(value).strip().lower()`. */
  function CellWord(v: Value): string {
    Lower(Strip(Display(v)))
  }

  /** The meaning of a stripped, lower-cased cell text. */
  function ReadWord(text: string, default: bool): (r: bool)
    ensures text in TrueWords ==> r
    ensures text in FalseWords ==> !r
    ensures text !in TrueWords + FalseWords ==> r == default
  {
    if text in TrueWords then true
    else if text in FalseWords then false
    else default
  }

  /** `parse_bool_cell`: booleans pass through, None gives the default,
      numbers give their truthiness, the true and false words give their
      meaning after stripping and lower-casing, anything else the default. */
  function ParseBoolCell(v: Value, default: bool): (r: bool)
    ensures v.Bool? ==> r == v.b
    ensures v.Null? ==> r == default
    ensures v.Int? ==> r == (v.i != 0)
    ensures v.Float? ==> r == (v.r != 0.0)
    ensures v.NaN? ==> r
    ensures v.Str? && CellWord(v) in TrueWords ==> r
    ensures v.Str? && CellWord(v) in FalseWords ==> !r
    ensures v.Str? && CellWord(v) !in TrueWords + FalseWords ==> r == default
  {
    match v
    case Bool(b) => b
    case Null => default
    case Int(i) => i != 0
    case Float(x) => x != 0.0
    case NaN => true
    case _ => ReadWord(CellWord(v), default)
  }

  /** The cells whose reading depends on the default: None and text that is
      neither a true word nor a false word. */
  predicate Unrecognised(v: Value) {
    || v.Null?
    || ((v.Str? || v.List? || v.Dict?) && CellWord(v) !in TrueWords + FalseWords)
  }

  lemma ParseBoolCellDefault(v: Value)
    ensures ParseBoolCell(v, true) != ParseBoolCell(v, false) <==> Unrecognised(v)
  {
  }

  /** A word with no blank at either end reads as its lower case. */
  lemma CellWordOfWord(w: string)
    requires |w| > 0 && !IsSpace(w[0]) && !IsSpace(w[|w| - 1])
    ensures CellWord(Str(w)) == Lower(w)
  {
    TrimLeftNoop(w, IsSpace);
    TrimRightNoop(w, IsSpace);
  }

  lemma LowerTrue()
    ensures Lower("True") == "true"
  {
    assert LowerChar('T') == 't';
  }

  lemma LowerFalse()
    ensures Lower("False") == "false"
  {
    assert LowerChar('F') == 'f';
  }

  lemma CellWordOfBool(b: bool)
    ensures CellWord(Str(Display(Bool(b)))) == if b then "true" else "false"
  {
    if b {
      CellWordOfWord("True");
      LowerTrue();
    } else {
      CellWordOfWord("False");
      LowerFalse();
    }
  }

  /** What `str()` writes for a boolean reads back as that boolean. */
  lemma ParseBoolCellOfDisplay(b: bool, default: bool)
    ensures ParseBoolCell(Str(Display(Bool(b))), default) == b
  {
    CellWordOfBool(b);
  }

  /** The `n`-th name `get_unique_filename` tries once `filename` is taken:
      `<root>_<timestamp><ext>` first, then `<root>_<timestamp>_<n><ext>`. */
  function Candidate(root: string, ts: string, ext: string, n: nat): string {
    if n == 0 then root + "_" + ts + ext
    else root + "_" + ts + "_" + NatToString(n) + ext
  }

  /** Different counters give different names, so the loop never retries a
      name. */
  lemma CandidateInjective(root: string, ts: string, ext: string, j: nat, k: nat)
    requires Candidate(root, ts, ext, j) == Candidate(root, ts, ext, k)
    ensures j == k
  {
    if j != 0 && k != 0 {
      var pre := root + "_" + ts + "_";
      var dj := NatToString(j);
      var dk := NatToString(k);
      assert |dj| == |dk|;
      assert (pre + dj + ext)[|pre|..|pre| + |dj|] == dj;
      assert (pre + dk + ext)[|pre|..|pre| + |dk|] == dk;
      NatToStringInjective(j, k);
    }
  }

  /** Every candidate below `n` is taken. */
  predicate AllTaken(existing: set<string>, root: string, ts: string, ext: string, n: nat) {
    forall j :: 0 <= j < n ==> Candidate(root, ts, ext, j) in existing
  }

  /** `tried` holds only candidates below `n`. */
  predicate TriedBelow(tried: set<string>, root: string, ts: string, ext: string, n: nat) {
    forall x :: x in tried ==> exists j :: 0 <= j < n && x == Candidate(root, ts, ext, j)
  }

  /** The name tried next differs from every name tried before. */
  lemma CandidateNotTried(root: string, ts: string, ext: string, tried: set<string>, n: nat)
    requires TriedBelow(tried, root, ts, ext, n)
    ensures Candidate(root, ts, ext, n) !in tried
  {
    var name := Candidate(root, ts, ext, n);
    if name in tried {
      var j :| 0 <= j < n && name == Candidate(root, ts, ext, j);
      CandidateInjective(root, ts, ext, j, n);
    }
  }

  lemma TriedStep(existing: set<string>, root: string, ts: string, ext: string, tried: set<string>, n: nat)
    requires TriedBelow(tried, root, ts, ext, n) && AllTaken(existing, root, ts, ext, n)
    requires Candidate(root, ts, ext, n) in existing
    ensures TriedBelow(tried + {Candidate(root, ts, ext, n)}, root, ts, ext, n + 1)
    ensures AllTaken(existing, root, ts, ext, n + 1)
  {
  }

  /** `name` is what `get_unique_filename` answers for `filename` among
      `existing`: the name itself when free, else the first free candidate. */
  ghost predicate UniqueNameFor(existing: set<string>, filename: string, ts: string, name: string) {
    && name !in existing
    && (filename !in existing ==> name == filename)
    && (filename in existing ==>
          var (root, ext) := SplitExt(filename);
          exists n: nat :: name == Candidate(root, ts, ext, n) && AllTaken(existing, root, ts, ext, n))
  }

  /** At most one name answers: the choice is a function of its inputs. */
  lemma UniqueNameDetermined(existing: set<string>, filename: string, ts: string, a: string, b: string)
    requires UniqueNameFor(existing, filename, ts, a) && UniqueNameFor(existing, filename, ts, b)
    ensures a == b
  {
    if filename in existing {
      var (root, ext) := SplitExt(filename);
      var n: nat :| a == Candidate(root, ts, ext, n) && AllTaken(existing, root, ts, ext, n);
      var m: nat :| b == Candidate(root, ts, ext, m) && AllTaken(existing, root, ts, ext, m);
      if n < m {
        assert false;
      } else if m < n {
        assert false;
      }
    }
  }

  /** The clock of a run of downloads: `clock(k)` is the
      `%Y%m%d-%H_%M_%S` time `get_unique_filename` reads when the `k`-th
      file of the run needs renaming. Each call reads the clock afresh, so
      two renamings of one run may or may not share a stamp. */
  type Clock = nat -> string

  /** `get_unique_filename`: `existing` is the set of names already present
      in the directory and `ts` the `%Y%m%d-%H_%M_%S` timestamp. A free name
      is kept; otherwise the result is the first free candidate. */
  method GetUniqueFilename(existing: set<string>, filename: string, ts: string) returns (name: string)
    ensures name !in existing
    ensures filename !in existing ==> name == filename
    ensures filename in existing ==>
      var (root, ext) := SplitExt(filename);
      exists n: nat :: name == Candidate(root, ts, ext, n)
        && forall j :: 0 <= j < n ==> Candidate(root, ts, ext, j) in existing
    ensures UniqueNameFor(existing, filename, ts, name)
    ensures name == UniqueName(existing, filename, ts)
  {
    if filename !in existing {
      return filename;
    }
    var (root, ext) := SplitExt(filename);
    var n: nat := 0;
    name := Candidate(root, ts, ext, 0);
    ghost var tried: set<string> := {};
    while name in existing
      invariant name == Candidate(root, ts, ext, n)
      invariant AllTaken(existing, root, ts, ext, n)
      invariant tried <= existing && |tried| == n
      invariant TriedBelow(tried, root, ts, ext, n)
      decreases |existing| - |tried|
    {
      CandidateNotTried(root, ts, ext, tried, n);
      TriedStep(existing, root, ts, ext, tried, n);
      tried := tried + {name};
      SubsetCardinality(tried, existing);
      n := n + 1;
      name := Candidate(root, ts, ext, n);
    }
    assert AllTaken(existing, root, ts, ext, n);
    UniqueNameDetermined(existing, filename, ts, name, UniqueName(existing, filename, ts));
  }

  /** Some candidate is free: the candidates are pairwise distinct and only
      finitely many names are taken, so the search of `get_unique_filename`
      ends. */
  lemma {:induction false} FreeCandidateFrom(existing: set<string>, root: string, ts: string, ext: string,
                                             tried: set<string>, n: nat)
    requires AllTaken(existing, root, ts, ext, n)
    requires tried <= existing && |tried| == n && TriedBelow(tried, root, ts, ext, n)
    ensures exists m: nat :: Candidate(root, ts, ext, m) !in existing && AllTaken(existing, root, ts, ext, m)
    decreases |existing| - |tried|
  {
    var name := Candidate(root, ts, ext, n);
    if name in existing {
      CandidateNotTried(root, ts, ext, tried, n);
      TriedStep(existing, root, ts, ext, tried, n);
      SubsetCardinality(tried + {name}, existing);
      FreeCandidateFrom(existing, root, ts, ext, tried + {name}, n + 1);
    } else {
      assert Candidate(root, ts, ext, n) !in existing && AllTaken(existing, root, ts, ext, n);
    }
  }

  /** The name `get_unique_filename` answers, as a function of its inputs. */
  ghost function UniqueName(existing: set<string>, filename: string, ts: string): (name: string)
    ensures UniqueNameFor(existing, filename, ts, name)
  {
    if filename !in existing then filename
    else
      var (root, ext) := SplitExt(filename);
      FreeCandidateFrom(existing, root, ts, ext, {}, 0);
      var m: nat :| Candidate(root, ts, ext, m) !in existing && AllTaken(existing, root, ts, ext, m);
      Candidate(root, ts, ext, m)
  }

  /** `int(x)` on a float: truncation towards zero. */
  function Trunc(x: real): int {
    if x >= 0.0 then x.Floor else -((-x).Floor)
  }

  /** Digits followed by `.0`, the way a spreadsheet writes a whole number
      as a float. */
  predicate DigitsDotZero(text: string) {
    EndsWith(text, ".0") && IsDigits(text[..|text| - 2])
  }

  /** `_format_period_aaaamm` on a stripped text: digits followed by `.0`
      lose the `.0`; otherwise exactly six digit characters anywhere in the
      text are the period, and any other text is kept. */
  function PeriodText(text: string): (r: string)
    ensures DigitsDotZero(text) ==> r == text[..|text| - 2]
    ensures !DigitsDotZero(text) && |Filter(text, IsDigit)| == 6 ==> r == Filter(text, IsDigit)
    ensures !DigitsDotZero(text) && |Filter(text, IsDigit)| != 6 ==> r == text
  {
    if |text| == 0 then text
    else
      var t := if DigitsDotZero(text) then text[..|text| - 2] else text;
      var digits := Filter(t, IsDigit);
      if DigitsDotZero(text) then FilterAll(t, IsDigit); t
      else if |digits| == 6 then digits else t
  }

  /** `_format_period_aaaamm`: None and NaN give the empty text; numbers
      (booleans included) are written with six zero-padded digits; anything
      else goes through its stripped text. */
  function FormatPeriod(v: Value): (r: string)
    ensures v.Null? || v.NaN? ==> r == ""
    ensures v.Int? && v.i >= 0 ==> |r| >= 6 && AllDigits(r) && ParseDigits(r) == v.i
    ensures v.Int? && 0 <= v.i < 1000000 ==> |r| == 6
    ensures v.Float? && Trunc(v.r) >= 0 ==> |r| >= 6 && AllDigits(r) && ParseDigits(r) == Trunc(v.r)
    ensures v.Float? && 0 <= Trunc(v.r) < 1000000 ==> |r| == 6
    ensures v.Bool? ==> r == if v.b then "000001" else "000000"
    ensures NegativeNumber(v) ==>
      |r| >= 6 && r[0] == '-' && AllDigits(r[1..]) && ParseDigits(r[1..]) == -(if v.Int? then v.i else Trunc(v.r))
    ensures v.Str? ==> r == PeriodText(Strip(v.s))
    ensures v.List? || v.Dict? ==> r == PeriodText(Strip(Display(v)))
  {
    match v
    case Null => ""
    case NaN => ""
    case Bool(b) => BoolPeriod(b); FormatZeroPadded(if b then 1 else 0, 6)
    case Int(i) => FormatZeroPadded(i, 6)
    case Float(x) => FormatZeroPadded(Trunc(x), 6)
    case _ => PeriodText(Strip(Display(v)))
  }

  /** `True` and `False` are the integers 1 and 0 to the formatter. */
  lemma BoolPeriod(b: bool)
    ensures FormatZeroPadded(if b then 1 else 0, 6) == if b then "000001" else "000000"
  {
    assert NatToString(1) == "1" && NatToString(0) == "0";
  }

  /** An `int` or a float that truncates to a negative `int`. */
  predicate NegativeNumber(v: Value) {
    (v.Int? && v.i < 0) || (v.Float? && Trunc(v.r) < 0)
  }

  lemma DigitsNoSpace(s: string)
    requires forall i :: 0 <= i < |s| ==> IsDigit(s[i])
    ensures Strip(s) == s
  {
    if |s| > 0 {
      DigitNotSpace(s[0]);
      DigitNotSpace(s[|s| - 1]);
    }
    TrimLeftNoop(s, IsSpace);
    TrimRightNoop(s, IsSpace);
    assert Strip(s) == TrimRight(TrimLeft(s, IsSpace), IsSpace);
  }

  lemma DigitNotSpace(c: char)
    requires IsDigit(c)
    ensures !IsSpace(c)
  {
  }

  lemma NotDotZero(t: string)
    requires |t| >= 2 && IsDigit(t[|t| - 2])
    ensures !EndsWith(t, ".0")
  {
    assert t[|t| - 2..][0] == t[|t| - 2];
  }

  /** A stripped text is a fixed point of `PeriodText` when it has no `.0`
      to drop and not exactly six digit characters. */
  lemma PeriodTextStable(t: string)
    requires |t| > 0 && !IsSpace(t[0]) && !IsSpace(t[|t| - 1])
    requires !DigitsDotZero(t)
    requires |Filter(t, IsDigit)| != 6
    ensures Strip(t) == t && PeriodText(t) == t
  {
    TrimLeftNoop(t, IsSpace);
    TrimRightNoop(t, IsSpace);
  }

  /** Six digit characters are their own period. */
  lemma PeriodSixDigits(d: string)
    requires |d| == 6 && IsDigits(d)
    ensures Strip(d) == d && PeriodText(d) == d
  {
    DigitsNoSpace(d);
    NotDotZero(d);
    FilterAll(d, IsDigit);
  }

  /** A text of digit characters other than six of them is its own period. */
  lemma PeriodOtherDigits(d: string)
    requires |d| != 6 && IsDigits(d)
    ensures Strip(d) == d && PeriodText(d) == d
  {
    DigitsNoSpace(d);
    if |d| >= 2 {
      NotDotZero(d);
    }
    FilterAll(d, IsDigit);
    PeriodTextStable(d);
  }

  lemma PeriodOfDigits(d: string)
    requires IsDigits(d)
    ensures Strip(d) == d && PeriodText(d) == d
  {
    if |d| == 6 {
      PeriodSixDigits(d);
    } else {
      PeriodOtherDigits(d);
    }
  }

  /** A string value reads as the period of its stripped text. */
  lemma FormatPeriodStr(s: string)
    ensures FormatPeriod(Str(s)) == PeriodText(Strip(s))
  {
  }

  /** Digits followed by `.0` lose the `.0`. */
  lemma PeriodDotZero(d: string)
    requires IsDigits(d)
    ensures Strip(d + ".0") == d + ".0" && PeriodText(d + ".0") == d
  {
    var t := d + ".0";
    assert t[0] == d[0] && t[|t| - 1] == '0';
    TrimLeftNoop(t, IsSpace);
    TrimRightNoop(t, IsSpace);
    assert t[..|t| - 2] == d;
    assert t[|t| - 2..] == ".0";
    FilterAll(d, IsDigit);
  }

  /** A text of digits reads as itself, with or without a trailing `.0`
      (the way a spreadsheet writes a whole number as a float). */
  lemma FormatPeriodOfDigits(d: string)
    requires IsDigits(d)
    ensures FormatPeriod(Str(d)) == d
    ensures FormatPeriod(Str(d + ".0")) == d
  {
    FormatPeriodStr(d);
    PeriodOfDigits(d);
    FormatPeriodStr(d + ".0");
    PeriodDotZero(d);
  }

  /** Six digits split by one separator (other than the `.` of a float),
      as in `2024-01` or `01/2024`, read as the six digits. */
  lemma FormatPeriodSeparated(a: string, sep: char, b: string)
    requires IsDigits(a) && IsDigits(b) && |a| + |b| == 6
    requires !IsDigit(sep) && sep != '.'
    ensures FormatPeriod(Str(a + [sep] + b)) == a + b
  {
    var t := a + [sep] + b;
    assert t[0] == a[0] && t[|t| - 1] == b[|b| - 1];
    TrimLeftNoop(t, IsSpace);
    TrimRightNoop(t, IsSpace);
    assert t[|t| - 2] == if |b| == 1 then sep else b[|b| - 2];
    assert !EndsWith(t, ".0") by {
      assert t[|t| - 2..][0] == t[|t| - 2];
    }
    assert Strip(t) == t;
    FilterAll(a, IsDigit);
    FilterAll(b, IsDigit);
    FilterAppend(a, sep, IsDigit);
    assert a + [] == a;
    assert Filter(a + [sep], IsDigit) == a;
    FilterConcat(a + [sep], b, IsDigit);
    assert Filter(t, IsDigit) == a + b;
    assert !DigitsDotZero(t);
    assert PeriodText(t) == a + b;
  }

  /** `PeriodText` applied to its own (stripped) result changes nothing. */
  lemma PeriodTextIdempotent(text: string)
    requires |text| == 0 || (!IsSpace(text[0]) && !IsSpace(text[|text| - 1]))
    ensures PeriodText(Strip(PeriodText(text))) == PeriodText(text)
  {
    if |text| > 0 {
      var dropped := DigitsDotZero(text);
      var t := if dropped then text[..|text| - 2] else text;
      var digits := Filter(t, IsDigit);
      if dropped {
        FilterAll(t, IsDigit);
      }
      assert PeriodText(text) == if |digits| == 6 then digits else t;
      if |digits| == 6 {
        assert forall i :: 0 <= i < |digits| ==> digits[i] in digits;
        PeriodSixDigits(digits);
      } else if dropped {
        FilterAll(t, IsDigit);
        PeriodOtherDigits(t);
      } else {
        PeriodTextStable(t);
      }
    }
  }

  /** Formatting a period twice is formatting it once (negative numbers
      aside, whose sign a second pass drops when they have six digits). */
  lemma FormatPeriodIdempotent(v: Value)
    requires !NegativeNumber(v)
    ensures FormatPeriod(Str(FormatPeriod(v))) == FormatPeriod(v)
  {
    var r := FormatPeriod(v);
    assert FormatPeriod(Str(r)) == PeriodText(Strip(r));
    if v.Bool? || v.Int? || v.Float? {
      var n := if v.Bool? then (if v.b then 1 else 0) else if v.Int? then v.i else Trunc(v.r);
      assert r == FormatZeroPadded(n, 6);
      assert AllDigits(r) && |r| >= 6;
      assert forall i :: 0 <= i < |r| ==> IsDigit(r[i]);
      PeriodOfDigits(r);
    } else if !v.Null? && !v.NaN? {
      PeriodTextIdempotent(Strip(Display(v)));
    }
  }
}
