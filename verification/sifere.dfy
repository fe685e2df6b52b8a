/** The SIFERE window (Convenio Multilateral returns): the list of
    jurisdiction codes a row asks for, the links of an answer, and the
    per-row flow with its early exit on a bad jurisdiction list. */
module Sifere {
  import opened Prelude
  import opened Text
  import opened Digits
  import opened Json
  import opened Helpers
  import opened MinioHelpers
  import opened MinioLinks
  import opened ServiceLinks
  import opened Mixins
  import opened Batch

  // ---------------------------------------------------------------------
  // _coerce_jurisdiccion

  /** The text without a `.0` that follows digits. */
  function DropDotZero(text: string): string {
    if EndsWith(text, ".0") && IsDigits(text[..|text| - 2]) then text[..|text| - 2] else text
  }

  /** `int(text)` after the `.0` is dropped, when what is left is made of
      digits. Only ASCII digits are read. */
  function TextCode(text: string): (r: Option<int>)
    ensures r.Some? ==> r.value >= 0
  {
    var t := DropDotZero(text);
    if |t| > 0 && AllDigits(t) then Some(ParseDigits(t)) else None
  }

  /** `_coerce_jurisdiccion(value)`: the integer a cell or list item stands
      for, if any. */
  function CoerceJurisdiccion(v: Value): (r: Option<int>)
    ensures v.Null? || v.NaN? || v.Bool? ==> r.None?
    ensures v.Int? ==> r == Some(v.i)
    ensures v.Float? ==> (r.Some? <==> v.r == v.r.Floor as real)
    ensures v.Float? && r.Some? ==> r.value as real == v.r
    ensures v.Str? && r.Some? ==> r.value >= 0
  {
    match v
    case Null => None
    case NaN => None
    case Bool(_) => None
    case Int(i) => Some(i)
    case Float(x) => if x == x.Floor as real then Some(x.Floor) else None
    case _ => TextCode(Strip(Display(v)))
  }

  /** A text item is read through its stripped text. */
  lemma CoerceText(s: string)
    ensures CoerceJurisdiccion(Str(s)) == TextCode(Strip(s))
  {
  }

  /** Decimal digits read as their number, with or without a `.0` after
      them. */
  lemma TextCodeDigits(d: string)
    requires |d| > 0 && AllDigits(d)
    ensures TextCode(d) == Some(ParseDigits(d))
    ensures TextCode(d + ".0") == Some(ParseDigits(d))
  {
    assert !EndsWith(d, ".0") by {
      assert IsAsciiDigit(d[|d| - 1]);
      if |d| >= 2 {
        assert d[|d| - 2..][0] == d[|d| - 2];
      }
    }
    var t := d + ".0";
    assert t[..|t| - 2] == d;
    assert IsDigits(d) by {
      assert forall i :: 0 <= i < |d| ==> IsDigit(d[i]);
    }
  }

  /** A decimal number, with blanks around it or a `.0` after it, reads as
      that number. */
  lemma CoerceDigits(d: string, pad: string)
    requires |d| > 0 && AllDigits(d)
    requires forall i :: 0 <= i < |pad| ==> IsSpace(pad[i])
    ensures CoerceJurisdiccion(Str(pad + d + pad)) == Some(ParseDigits(d))
    ensures CoerceJurisdiccion(Str(d + ".0")) == Some(ParseDigits(d))
  {
    assert IsAsciiDigit(d[0]) && IsAsciiDigit(d[|d| - 1]);
    StripPadded(pad, d);
    CoerceText(pad + d + pad);
    DigitEdgedPlain(d + ".0");
    CoerceText(d + ".0");
    TextCodeDigits(d);
  }

  /** What `str(n)` writes for a code reads back as the code. */
  lemma CoerceNatText(n: nat)
    ensures CoerceJurisdiccion(Str(NatToString(n))) == Some(n)
  {
    var d := NatToString(n);
    NatTextEdged(n);
    DigitEdgedPlain(d);
    CoerceText(d);
    TextCodeDigits(d);
    ParseNatToString(n);
  }

  // ---------------------------------------------------------------------
  // _parse_jurisdicciones

  const AllWords: set<string> := {"todas", "todas las", "todas_las", "all"}
  const FirstCode := 901
  const LastCode := 924

  /** A jurisdiction code of the Convenio Multilateral: 901 to 924. */
  type Code = n: int | FirstCode <= n <= LastCode witness FirstCode

  /** `list(range(901, 925))`. */
  function AllCodes(): (r: seq<Code>)
    ensures |r| == LastCode - FirstCode + 1
    ensures forall i :: 0 <= i < |r| ==> r[i] == FirstCode + i
  {
    seq(LastCode - FirstCode + 1, i requires 0 <= i < LastCode - FirstCode + 1 => (FirstCode + i) as Code)
  }

  /** The item is one of the words for every jurisdiction. */
  predicate MeansAll(v: Value) {
    Lower(Strip(Display(v))) in AllWords
  }

  /** The code an item stands for, when it is between 901 and 924. */
  function ItemCode(v: Value): (r: Option<Code>)
    ensures r.Some? <==> CoerceJurisdiccion(v).Some? && FirstCode <= CoerceJurisdiccion(v).value <= LastCode
    ensures r.Some? ==> r.value == CoerceJurisdiccion(v).value
  {
    match CoerceJurisdiccion(v)
    case Some(n) => if FirstCode <= n <= LastCode then Some(n as Code) else None
    case None => None
  }

  /** How an item is written in the error message. */
  function ItemText(v: Value): string {
    Strip(Display(v))
  }

  /** The outcome of the loop over the items: an all-jurisdictions word
      anywhere wins; otherwise the codes of the valid items and the texts of
      the others, each in order. */
  datatype Scan = Everything | Scanned(valid: seq<Code>, invalid: seq<string>)

  /** The loop, with `isAll` for the word test, `code` for the code an item
      stands for and `text` for how an invalid item is reported. */
  function ScanWith(items: seq<Value>, isAll: Value -> bool, code: Value -> Option<Code>, text: Value -> string): Scan
    decreases |items|
  {
    if |items| == 0 then Scanned([], [])
    else if isAll(items[0]) then Everything
    else
      match ScanWith(items[1..], isAll, code, text)
      case Everything => Everything
      case Scanned(valid, invalid) =>
        match code(items[0])
        case Some(n) => Scanned([n] + valid, invalid)
        case None => Scanned(valid, [text(items[0])] + invalid)
  }

  /** The loop of `_parse_jurisdicciones` over its items. */
  function ScanItems(items: seq<Value>): Scan {
    ScanWith(items, MeansAll, ItemCode, ItemText)
  }

  /** The loop gives every code exactly when some item is an
      all-jurisdictions word. */
  lemma {:induction false} ScanEverything(items: seq<Value>, isAll: Value -> bool, code: Value -> Option<Code>, text: Value -> string)
    ensures ScanWith(items, isAll, code, text).Everything? <==> exists i :: 0 <= i < |items| && isAll(items[i])
    decreases |items|
  {
    if |items| > 0 && !isAll(items[0]) {
      ScanEverything(items[1..], isAll, code, text);
      if exists i :: 0 <= i < |items| && isAll(items[i]) {
        var i :| 0 <= i < |items| && isAll(items[i]);
        assert items[1..][i - 1] == items[i];
      }
      if exists i :: 0 <= i < |items[1..]| && isAll(items[1..][i]) {
        var i :| 0 <= i < |items[1..]| && isAll(items[1..][i]);
        assert items[i + 1] == items[1..][i];
      }
    }
  }

  /** Items `code` gives a code for, and items it gives none for. */
  function Coded(code: Value -> Option<Code>): Value -> bool {
    v => code(v).Some?
  }

  function Uncoded(code: Value -> Option<Code>): Value -> bool {
    v => code(v).None?
  }

  /** The codes of coded items, in order. */
  function CodesOf(items: seq<Value>, code: Value -> Option<Code>): (r: seq<Code>)
    ensures |r| == |items|
  {
    seq(|items|, k requires 0 <= k < |items| => code(items[k]).GetOr(FirstCode))
  }

  /** The texts of items, in order. */
  function TextsOf(items: seq<Value>, text: Value -> string): (r: seq<string>)
    ensures |r| == |items|
  {
    seq(|items|, k requires 0 <= k < |items| => text(items[k]))
  }

  /** Without an all-jurisdictions word, the loop keeps the codes of the
      valid items, in order. */
  lemma {:induction false} ScanValid(items: seq<Value>, isAll: Value -> bool, code: Value -> Option<Code>, text: Value -> string)
    requires forall i :: 0 <= i < |items| ==> !isAll(items[i])
    ensures ScanWith(items, isAll, code, text).Scanned?
    ensures ScanWith(items, isAll, code, text).valid == CodesOf(Filter(items, Coded(code)), code)
    decreases |items|
  {
    if |items| > 0 {
      assert forall i :: 0 <= i < |items[1..]| ==> items[1..][i] == items[i + 1];
      ScanValid(items[1..], isAll, code, text);
      var valid := Filter(items[1..], Coded(code));
      if code(items[0]).Some? {
        assert Filter(items, Coded(code)) == [items[0]] + valid;
        assert CodesOf([items[0]] + valid, code) == [code(items[0]).value] + CodesOf(valid, code);
      } else {
        assert Filter(items, Coded(code)) == valid;
      }
    }
  }

  /** Without an all-jurisdictions word, the loop reports the texts of the
      invalid items, in order. */
  lemma {:induction false} ScanInvalid(items: seq<Value>, isAll: Value -> bool, code: Value -> Option<Code>, text: Value -> string)
    requires forall i :: 0 <= i < |items| ==> !isAll(items[i])
    ensures ScanWith(items, isAll, code, text).Scanned?
    ensures ScanWith(items, isAll, code, text).invalid == TextsOf(Filter(items, Uncoded(code)), text)
    decreases |items|
  {
    if |items| > 0 {
      assert forall i :: 0 <= i < |items[1..]| ==> items[1..][i] == items[i + 1];
      ScanInvalid(items[1..], isAll, code, text);
      var invalid := Filter(items[1..], Uncoded(code));
      if code(items[0]).Some? {
        assert Filter(items, Uncoded(code)) == invalid;
      } else {
        assert Filter(items, Uncoded(code)) == [items[0]] + invalid;
        assert TextsOf([items[0]] + invalid, text) == [text(items[0])] + TextsOf(invalid, text);
      }
    }
  }

  /** Items that are all codes, none of them a word, give exactly those
      codes. */
  lemma {:induction false} ScanAllCoded(items: seq<Value>, isAll: Value -> bool, code: Value -> Option<Code>, text: Value -> string, codes: seq<Code>)
    requires |items| == |codes|
    requires forall i :: 0 <= i < |items| ==> !isAll(items[i]) && code(items[i]) == Some(codes[i])
    ensures ScanWith(items, isAll, code, text) == Scanned(codes, [])
    decreases |items|
  {
    if |items| > 0 {
      assert forall i :: 0 <= i < |items[1..]| ==> items[1..][i] == items[i + 1] && codes[1..][i] == codes[i + 1];
      ScanAllCoded(items[1..], isAll, code, text, codes[1..]);
      assert codes == [codes[0]] + codes[1..];
    }
  }

  const InvalidHead := "Jurisdicciones invalidas: "
  const InvalidTail := ". Deben ser enteros entre 901 y 924."

  /** What `_parse_jurisdicciones` returns: the codes and an error message. */
  datatype Parsed = Parsed(codes: seq<Code>, error: Option<string>)

  /** The return value after the loop: every code, or the error listing the
      invalid items, or the valid codes. */
  function Outcome(scan: Scan): (r: Parsed)
    ensures r.error.Some? <==> scan.Scanned? && |scan.invalid| > 0
    ensures r.error.Some? ==> r.codes == [] && StartsWith(r.error.value, InvalidHead)
    ensures scan.Everything? ==> r.codes == AllCodes()
    ensures scan.Scanned? && |scan.invalid| == 0 ==> r.codes == scan.valid
  {
    match scan
    case Everything => Parsed(AllCodes(), None)
    case Scanned(valid, invalid) =>
      if |invalid| > 0 then
        var message := InvalidHead + Join(invalid, ", ") + InvalidTail;
        assert message[..|InvalidHead|] == InvalidHead;
        Parsed([], Some(message))
      else Parsed(valid, None)
  }

  /** `text.replace(";", ",").replace("|", ",")`. */
  function Unify(text: string): (r: string)
    ensures |r| == |text|
    ensures forall i :: 0 <= i < |text| ==> r[i] == if text[i] == ';' || text[i] == '|' then ',' else text[i]
  {
    seq(|text|, i requires 0 <= i < |text| => if text[i] == ';' || text[i] == '|' then ',' else text[i])
  }

  /** `[clean(part) for part in parts if clean(part)]`, as text items. */
  function Kept(parts: seq<string>, clean: string -> string): (r: seq<Value>)
    ensures forall k :: 0 <= k < |r| ==> r[k].Str? && |r[k].s| > 0
    decreases |parts|
  {
    if |parts| == 0 then []
    else (if |clean(parts[0])| > 0 then [Str(clean(parts[0]))] else []) + Kept(parts[1..], clean)
  }

  /** Non-empty parts that cleaning leaves alone are kept as they are. */
  lemma {:induction false} KeptClean(parts: seq<string>, clean: string -> string)
    requires forall k :: 0 <= k < |parts| ==> clean(parts[k]) == parts[k] && |parts[k]| > 0
    ensures Kept(parts, clean) == Strs(parts)
    decreases |parts|
  {
    if |parts| > 0 {
      assert forall k :: 0 <= k < |parts[1..]| ==> parts[1..][k] == parts[k + 1];
      KeptClean(parts[1..], clean);
      assert Strs(parts) == [Str(parts[0])] + Strs(parts[1..]);
    }
  }

  /** `[part.strip() for part in parts if part.strip()]`, as text items. */
  function Pieces(parts: seq<string>): (r: seq<Value>) {
    Kept(parts, Strip)
  }

  /** The items of a jurisdiction text. */
  function TextItems(text: string): seq<Value> {
    Pieces(Split(Unify(text), ','))
  }

  /** `_parse_jurisdicciones(value)`: nothing for a missing or blank value,
      every code for an all-jurisdictions word, otherwise the codes of the
      list's items or of the text's comma-, semicolon- or bar-separated
      pieces, and an error with no codes when some item is not a code
      between 901 and 924. */
  function ParseJurisdicciones(v: Value): (r: Parsed)
    ensures r.error.Some? ==> r.codes == [] && StartsWith(r.error.value, InvalidHead)
    ensures v.Null? ==> r == Parsed([], None)
    ensures !v.List? && !v.Null? && |Strip(Display(v))| == 0 ==> r == Parsed([], None)
    ensures !v.List? && !v.Null? && MeansAll(v) ==> r == Parsed(AllCodes(), None)
    ensures v.List? ==> r == Outcome(ScanItems(v.items))
  {
    if v.Null? then Parsed([], None)
    else if v.List? then Outcome(ScanItems(v.items))
    else
      var text := Strip(Display(v));
      if |text| == 0 then Parsed([], None)
      else if Lower(text) in AllWords then Parsed(AllCodes(), None)
      else Outcome(ScanItems(TextItems(text)))
  }

  /** A list with an all-jurisdictions word anywhere asks for every code. */
  lemma ListWithAllWord(items: seq<Value>, i: nat)
    requires i < |items| && MeansAll(items[i])
    ensures ParseJurisdicciones(List(items)) == Parsed(AllCodes(), None)
  {
    ScanEverything(items, MeansAll, ItemCode, ItemText);
  }

  /** One item that is not a code between 901 and 924 makes the whole list
      an error naming it, unless some item asks for every jurisdiction. */
  lemma InvalidItemRejects(items: seq<Value>, i: nat)
    requires i < |items| && ItemCode(items[i]).None?
    requires forall j :: 0 <= j < |items| ==> !MeansAll(items[j])
    ensures ParseJurisdicciones(List(items)).error.Some?
    ensures ParseJurisdicciones(List(items)).codes == []
  {
    ScanInvalid(items, MeansAll, ItemCode, ItemText);
    assert items[i] in Filter(items, Uncoded(ItemCode));
  }

  /** Text whose first and last characters are ASCII digits. */
  predicate DigitEdged(s: string) {
    |s| > 0 && IsAsciiDigit(s[0]) && IsAsciiDigit(s[|s| - 1])
  }

  /** A word starting with a digit is none of the all-jurisdictions
      words. */
  lemma NotAllWord(w: string)
    requires |w| > 0 && IsAsciiDigit(w[0])
    ensures w !in AllWords
  {
    assert w[0] != 't' && w[0] != 'a';
  }

  /** A text that starts and ends with a digit has no blanks to strip and is
      no all-jurisdictions word. */
  lemma DigitEdgedPlain(s: string)
    requires DigitEdged(s)
    ensures Strip(s) == s && Lower(s) !in AllWords
  {
    TrimLeftNoop(s, IsSpace);
    TrimRightNoop(s, IsSpace);
    assert Lower(s)[0] == LowerChar(s[0]) == s[0];
    NotAllWord(Lower(s));
  }

  /** What `str(n)` writes starts and ends with a digit. */
  lemma NatTextEdged(n: nat)
    ensures DigitEdged(NatToString(n))
  {
    var d := NatToString(n);
    assert IsAsciiDigit(d[0]) && IsAsciiDigit(d[|d| - 1]);
  }

  /** A code as an integer is a valid item and no all-jurisdictions word. */
  lemma CodeIntItem(c: Code)
    ensures ItemCode(Int(c)) == Some(c) && !MeansAll(Int(c))
  {
    NatTextEdged(c);
    DigitEdgedPlain(NatToString(c));
    assert Display(Int(c)) == NatToString(c);
  }

  /** A code as its decimal text is a valid item and no all-jurisdictions
      word. */
  lemma CodeTextItem(c: Code)
    ensures ItemCode(Str(NatToString(c))) == Some(c) && !MeansAll(Str(NatToString(c)))
  {
    NatTextEdged(c);
    DigitEdgedPlain(NatToString(c));
    CoerceNatText(c);
  }

  /** The integers of a list of codes. */
  function IntItems(codes: seq<Code>): (r: seq<Value>)
    ensures |r| == |codes|
    ensures forall k :: 0 <= k < |r| ==> r[k] == Int(codes[k])
  {
    seq(|codes|, k requires 0 <= k < |codes| => Int(codes[k]))
  }

  /** A list of codes reads back as itself. */
  lemma ParseCodeList(codes: seq<Code>)
    ensures ParseJurisdicciones(List(IntItems(codes))) == Parsed(codes, None)
  {
    var items := IntItems(codes);
    forall j | 0 <= j < |items|
      ensures !MeansAll(items[j]) && ItemCode(items[j]) == Some(codes[j])
    {
      CodeIntItem(codes[j]);
    }
    ScanAllCoded(items, MeansAll, ItemCode, ItemText, codes);
  }

  /** The decimal texts of codes. */
  function CodeTexts(codes: seq<Code>): (r: seq<string>)
    ensures |r| == |codes|
    ensures forall k :: 0 <= k < |r| ==> r[k] == NatToString(codes[k])
  {
    seq(|codes|, k requires 0 <= k < |codes| => NatToString(codes[k]))
  }

  /** The three separators a jurisdiction text may use. */
  predicate IsSeparator(c: char) { c == ',' || c == ';' || c == '|' }

  /** Non-empty pieces joined keep the first piece's first character and the
      last piece's last one at the ends. */
  lemma {:induction false} JoinEdges(parts: seq<string>, sep: string)
    requires |parts| > 0 && forall k :: 0 <= k < |parts| ==> |parts[k]| > 0
    ensures |Join(parts, sep)| > 0
    ensures Join(parts, sep)[0] == parts[0][0]
    ensures Join(parts, sep)[|Join(parts, sep)| - 1] == parts[|parts| - 1][|parts[|parts| - 1]| - 1]
    decreases |parts|
  {
    if |parts| > 1 {
      assert forall k :: 0 <= k < |parts[1..]| ==> parts[1..][k] == parts[k + 1];
      JoinEdges(parts[1..], sep);
      var rest := Join(parts[1..], sep);
      assert Join(parts, sep) == parts[0] + sep + rest;
    }
  }

  lemma UnifyAppend(a: string, b: string)
    ensures Unify(a + b) == Unify(a) + Unify(b)
  {
  }

  /** Replacing the separators between digit pieces gives their comma
      join. */
  lemma {:induction false} UnifyJoin(parts: seq<string>, sep: char)
    requires IsSeparator(sep)
    requires forall k :: 0 <= k < |parts| ==> AllDigits(parts[k])
    ensures Unify(Join(parts, [sep])) == Join(parts, [','])
    decreases |parts|
  {
    if |parts| > 1 {
      assert forall k :: 0 <= k < |parts[1..]| ==> parts[1..][k] == parts[k + 1];
      UnifyJoin(parts[1..], sep);
      var rest := Join(parts[1..], [sep]);
      assert Join(parts, [sep]) == parts[0] + [sep] + rest;
      assert Unify(parts[0]) == parts[0];
      UnifyAppend(parts[0] + [sep], rest);
      UnifyAppend(parts[0], [sep]);
    } else if |parts| == 1 {
      assert Unify(parts[0]) == parts[0];
    }
  }

  /** The pieces of code texts are the texts themselves. */
  lemma PiecesOfCodes(codes: seq<Code>)
    ensures Pieces(CodeTexts(codes)) == Strs(CodeTexts(codes))
  {
    var parts := CodeTexts(codes);
    forall k | 0 <= k < |parts|
      ensures Strip(parts[k]) == parts[k] && |parts[k]| > 0
    {
      NatTextEdged(codes[k]);
      DigitEdgedPlain(parts[k]);
    }
    KeptClean(parts, Strip);
  }

  /** Codes written with any of the three separators split back into their
      texts. */
  lemma CodeTextItems(codes: seq<Code>, sep: char)
    requires |codes| > 0 && IsSeparator(sep)
    ensures DigitEdged(Join(CodeTexts(codes), [sep]))
    ensures TextItems(Join(CodeTexts(codes), [sep])) == Strs(CodeTexts(codes))
  {
    var parts := CodeTexts(codes);
    JoinEdges(parts, [sep]);
    UnifyJoin(parts, sep);
    assert forall k :: 0 <= k < |parts| ==> ',' !in parts[k] by {
      forall k | 0 <= k < |parts| ensures ',' !in parts[k] {
        assert AllDigits(parts[k]);
      }
    }
    SplitJoin(parts, ',');
    PiecesOfCodes(codes);
  }

  /** A text that starts and ends with a digit is read through its pieces. */
  lemma ParseDigitEdgedText(text: string)
    requires DigitEdged(text)
    ensures ParseJurisdicciones(Str(text)) == Outcome(ScanItems(TextItems(text)))
  {
    DigitEdgedPlain(text);
    assert Strip(Display(Str(text))) == text;
  }

  /** Code texts scan as their codes. */
  lemma ScanCodeTexts(codes: seq<Code>)
    ensures ScanItems(Strs(CodeTexts(codes))) == Scanned(codes, [])
  {
    var items := Strs(CodeTexts(codes));
    forall j | 0 <= j < |items|
      ensures !MeansAll(items[j]) && ItemCode(items[j]) == Some(codes[j])
    {
      CodeTextItem(codes[j]);
    }
    ScanAllCoded(items, MeansAll, ItemCode, ItemText, codes);
  }

  /** Codes written with any of the three separators read back as the same
      codes, in order. */
  lemma ParseCodeText(codes: seq<Code>, sep: char)
    requires |codes| > 0 && IsSeparator(sep)
    ensures ParseJurisdicciones(Str(Join(CodeTexts(codes), [sep]))) == Parsed(codes, None)
  {
    var text := Join(CodeTexts(codes), [sep]);
    CodeTextItems(codes, sep);
    ParseDigitEdgedText(text);
    ScanCodeTexts(codes);
  }

  // ---------------------------------------------------------------------
  // _extract_links

  const LinkPrefix := "sifere"
  const ListKey := "archivos_minio"

  /** Every entry of a dict item, its key as the hint when the key has a
      dot. */
  function SifereOffers(item: Value): (r: seq<Offer>)
    ensures item.Dict? ==> |r| == |item.entries|
    ensures item.Dict? ==> forall j :: 0 <= j < |r| ==> r[j] == (item.entries[j].1, KeyHint(Some(item.entries[j].0)))
  {
    if item.Dict? then
      seq(|item.entries|, j requires 0 <= j < |item.entries| => (item.entries[j].1, KeyHint(Some(item.entries[j].0))))
    else []
  }

  /** `_extract_links(data)`: the links the items under `archivos_minio`
      yield, each pair once, else whatever the generic walker finds. */
  function ExtractLinks(data: Value): (r: seq<Link>)
    ensures WellFormed(r)
  {
    BuilderGood(LinkPrefix);
    ExtractedWellFormed(data, ListKey, SifereOffers, Builder(LinkPrefix), LinkPrefix);
    Extracted(data, ListKey, SifereOffers, Builder(LinkPrefix), LinkPrefix)
  }

  /** An item yields a link exactly when it is a dict and one of its
      entries builds it, with the entry's key as hint when the key has a
      dot. */
  lemma SifereItemLink(item: Value, index: int, l: Link)
    ensures Some(l) in ItemLinks(item, index, SifereOffers, Builder(LinkPrefix)) <==>
      item.Dict? &&
      exists j :: 0 <= j < |item.entries| && BuildLink(item.entries[j].1, KeyHint(Some(item.entries[j].0)), LinkPrefix, index) == Some(l)
  {
    ItemLinksMember(item, index, SifereOffers, Builder(LinkPrefix), l);
  }

  // ---------------------------------------------------------------------
  // _process_row_sifere

  const ModuleDir := "SIFERE"

  /** The row's jurisdictions. */
  function RowParsed(row: Row): Parsed {
    ParseJurisdicciones(Cell(row, "jurisdicciones"))
  }

  /** The request body: the fields in the order the window writes them. */
  function PayloadEntries(login: string, clave: string, cuit: string, periodo: string, name: Value, codes: seq<Code>)
    : (r: seq<(string, Value)>)
    ensures |r| == 8
  {
    [("cuit_representante", Str(login)),
     ("clave_representante", Str(clave)),
     ("cuit_representado", Str(cuit)),
     ("periodo", Str(periodo)),
     ("representado_nombre", name),
     ("jurisdicciones", List(IntItems(codes))),
     ("carga_minio", Bool(true)),
     ("proxy_request", Bool(false))]
  }

  /** The request carries the password as given and the represented CUIT. */
  lemma PayloadIdentity(login: string, clave: string, cuit: string, periodo: string, name: Value, codes: seq<Code>)
    ensures Get(PayloadEntries(login, clave, cuit, periodo, name, codes), "clave_representante") == Some(Str(clave))
    ensures Get(PayloadEntries(login, clave, cuit, periodo, name, codes), "cuit_representado") == Some(Str(cuit))
  {
    var r := PayloadEntries(login, clave, cuit, periodo, name, codes);
    GetAt(r, 1);
    GetAt(r, 2);
  }

  /** The request carries the name and the jurisdiction codes. */
  lemma PayloadRequest(login: string, clave: string, cuit: string, periodo: string, name: Value, codes: seq<Code>)
    ensures Get(PayloadEntries(login, clave, cuit, periodo, name, codes), "representado_nombre") == Some(name)
    ensures Get(PayloadEntries(login, clave, cuit, periodo, name, codes), "jurisdicciones") == Some(List(IntItems(codes)))
  {
    var r := PayloadEntries(login, clave, cuit, periodo, name, codes);
    GetAt(r, 4);
    GetAt(r, 5);
  }

  /** `_optional_value` of the name column, as the request carries it. */
  function RowName(row: Row): (r: Value)
    ensures r.Null? || r.Str?
  {
    match OptionalValue(RowText(row, "representado_nombre"))
    case Some(n) => Str(n)
    case None => Null
  }

  /** The request body of a row asking for `codes`. */
  function SiferePayload(row: Row, codes: seq<Code>): seq<(string, Value)> {
    PayloadEntries(Strip(RowText(row, "cuit_representante")), RowText(row, "clave_representante"), RowCuit(row),
                   Strip(RowText(row, "periodo")), RowName(row), codes)
  }

  /** The request carries exactly the jurisdictions the row was parsed into. */
  lemma PayloadCarriesCodes(row: Row)
    ensures Get(SiferePayload(row, RowParsed(row).codes), "jurisdicciones").Some?
    ensures ParseJurisdicciones(Get(SiferePayload(row, RowParsed(row).codes), "jurisdicciones").value) == Parsed(RowParsed(row).codes, None)
  {
    PayloadRequest(Strip(RowText(row, "cuit_representante")), RowText(row, "clave_representante"), RowCuit(row),
                   Strip(RowText(row, "periodo")), RowName(row), RowParsed(row).codes);
    ParseCodeList(RowParsed(row).codes);
  }

  /** A row of the results table. */
  datatype SifereRow = SifereRow(cuit: string, httpStatus: Option<int>, success: Value, message: Value,
                                 downloads: nat, downloadErrors: Option<string>, folder: Option<string>)

  /** The answer the attempt loop keeps for a row. */
  function RowAnswer(row: Row, post: (seq<(string, Value)>, nat) -> Response): Response {
    Answer(post, SiferePayload(row, RowParsed(row).codes), Attempts(Cell(row, "retry")))
  }

  /** The request of a row with a good jurisdiction list, and its
      downloads. */
  method QueryRow(row: Row, post: (seq<(string, Value)>, nat) -> Response,
                  windowDir: string, writable: string -> bool, listing: string -> set<string>, clock: Clock,
                  fetch: (string, string) -> FetchResult)
    returns (r: SifereRow)
    ensures var resp := RowAnswer(row, post);
      && r.cuit == RowCuit(row)
      && r.httpStatus == resp.status
      && r.success == Field(resp.data, "success")
      && r.message == Field(resp.data, "message")
      && (|ExtractLinks(resp.data)| > 0 ==>
            r.folder == PrepareDownloadDir(ModuleDir, TargetDir(RowDownload(row), windowDir), RowCuit(row), writable).dir)
      && DownloadCells(ExtractLinks(resp.data), r.folder, r.downloads, r.downloadErrors, listing, clock, fetch)
  {
    var cuit := RowCuit(row);
    var resp := Query(post, SiferePayload(row, RowParsed(row).codes), Attempts(Cell(row, "retry")));
    var downloads, errors, dir := ProcessDownloads(resp.data, Some(ExtractLinks), "archivo", ModuleDir, cuit,
                                                   RowDownload(row), windowDir, writable, listing, clock, fetch);
    r := SifereRow(cuit, resp.status, Field(resp.data, "success"), Field(resp.data, "message"),
                   downloads, ErrorCell(errors), dir);
  }

  /** `_process_row_sifere`: `aborted` is the abort flag when the row starts,
      `post(payload, a)` the answer to attempt `a`, `windowDir` the window's
      download folder. A bad jurisdiction list is reported without a
      request; otherwise the request is retried up to the row's count until
      an HTTP 200 and the answer's files are downloaded. */
  method ProcessRowSifere(row: Row, aborted: bool, post: (seq<(string, Value)>, nat) -> Response,
                          windowDir: string, writable: string -> bool, listing: string -> set<string>, clock: Clock,
                          fetch: (string, string) -> FetchResult)
    returns (r: Option<SifereRow>)
    ensures aborted <==> r.None?
    ensures r.Some? ==> r.value.cuit == RowCuit(row)
    ensures r.Some? && RowParsed(row).error.Some? ==>
      r.value == SifereRow(RowCuit(row), None, Bool(false), Str(RowParsed(row).error.value), 0, None, None)
    ensures r.Some? && RowParsed(row).error.None? ==>
      var resp := RowAnswer(row, post);
      && r.value.httpStatus == resp.status
      && r.value.success == Field(resp.data, "success")
      && r.value.message == Field(resp.data, "message")
      && (|ExtractLinks(resp.data)| > 0 ==>
            r.value.folder == PrepareDownloadDir(ModuleDir, TargetDir(RowDownload(row), windowDir), RowCuit(row), writable).dir)
      && DownloadCells(ExtractLinks(resp.data), r.value.folder, r.value.downloads, r.value.downloadErrors, listing, clock, fetch)
  {
    if aborted {
      return None;
    }
    var parsed := RowParsed(row);
    if parsed.error.Some? {
      return Some(SifereRow(RowCuit(row), None, Bool(false), Str(parsed.error.value), 0, None, None));
    }
    var queried := QueryRow(row, post, windowDir, writable, listing, clock, fetch);
    r := Some(queried);
  }
}
