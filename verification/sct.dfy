/** The SCT (Sistema de Cuentas Tributarias) window: which of the three
    report blocks and three formats a row asks for, the file name each
    download gets, and the per-row flow from flags to downloads. */
module Sct {
  import opened Prelude
  import opened Text
  import opened Json
  import opened Urls
  import opened Helpers
  import opened MinioHelpers
  import opened Batch

  // ---------------------------------------------------------------------
  // _format_log_line

  const MainRule := "================================================================"
  const SubRule := "----------------------------------------------------------------"

  predicate IsNewline(c: char) { c == '\n' }

  /** The text of a log line: the prefix and the text, cut at their
      trailing newlines. */
  function LogBody(text: string, prefix: string): string {
    TrimRight(prefix + text, IsNewline)
  }

  /** The styles `_format_log_line` gives a frame to. */
  const Styles: set<string> := {"header", "section", "bullet", "success", "error", "raw"}

  /** `_format_log_line(text, prefix, style)`: the body in the style's frame;
      a style without a frame gives the body and one newline. */
  function FormatLogLine(text: string, prefix: string, style: Option<string>): (r: string)
    ensures var body := LogBody(text, prefix);
      && (style == Some("header") ==> r == ("\n" + MainRule + "\n") + body + ("\n" + MainRule + "\n"))
      && (style == Some("section") ==> r == ("\n" + SubRule + "\n") + body + "\n")
      && (style == Some("bullet") ==> r == "  - " + body + "\n")
      && (style == Some("success") ==> r == "  [OK] " + body + "\n")
      && (style == Some("error") ==> r == "  [ERROR] " + body + ("\n" + SubRule + "\n"))
      && (style == Some("raw") ==> r == body)
      && (style.None? || style.value !in Styles ==> r == body + "\n")
  {
    var body := LogBody(text, prefix);
    PlainBody(prefix + text);
    if style == Some("header") then ("\n" + MainRule + "\n") + body + ("\n" + MainRule + "\n")
    else if style == Some("section") then ("\n" + SubRule + "\n") + body + "\n"
    else if style == Some("bullet") then "  - " + body + "\n"
    else if style == Some("success") then "  [OK] " + body + "\n"
    else if style == Some("error") then "  [ERROR] " + body + ("\n" + SubRule + "\n")
    else if style == Some("raw") then body
    else body + (if !EndsWith(body, "\n") then "\n" else "")
  }

  /** Every line but a raw one ends with a newline and the text, cut at its
      trailing newlines, appears whole inside it. */
  lemma FormatLogLineShape(text: string, prefix: string, style: Option<string>)
    ensures style != Some("raw") ==> EndsWith(FormatLogLine(text, prefix, style), "\n")
    ensures Contains(FormatLogLine(text, prefix, style), LogBody(text, prefix))
  {
    var body := LogBody(text, prefix);
    var r := FormatLogLine(text, prefix, style);
    if style == Some("header") {
      Framed(r, "\n" + MainRule + "\n", body, "\n" + MainRule + "\n");
    } else if style == Some("section") {
      Framed(r, "\n" + SubRule + "\n", body, "\n");
    } else if style == Some("bullet") {
      Framed(r, "  - ", body, "\n");
    } else if style == Some("success") {
      Framed(r, "  [OK] ", body, "\n");
    } else if style == Some("error") {
      Framed(r, "  [ERROR] ", body, "\n" + SubRule + "\n");
    } else if style == Some("raw") {
      ContainsMiddle("", body, "");
      assert "" + body + "" == body;
    } else {
      assert r == "" + body + "\n";
      Framed(r, "", body, "\n");
    }
  }

  /** A body between two frames, the second ending with a newline. */
  lemma Framed(r: string, before: string, body: string, after: string)
    requires r == before + body + after
    requires |after| > 0 && after[|after| - 1] == '\n'
    ensures EndsWith(r, "\n")
    ensures Contains(r, body)
  {
    ContainsMiddle(before, body, after);
    assert r[|r| - 1..] == [after[|after| - 1]];
  }

  /** Cutting the trailing newlines of a plain line gives the body back, so
      text that carried no newline is logged as written. */
  lemma PlainLineReadsBack(text: string, prefix: string)
    ensures TrimRight(FormatLogLine(text, prefix, None), IsNewline) == LogBody(text, prefix)
    ensures !EndsWith(prefix + text, "\n") ==> FormatLogLine(text, prefix, None) == prefix + text + "\n"
  {
    var body := LogBody(text, prefix);
    PlainBody(prefix + text);
    if |body| > 0 {
      assert body[|body| - 1..] == [body[|body| - 1]];
    }
    TrimRightLast(body, '\n', IsNewline);
    var s := prefix + text;
    if !EndsWith(s, "\n") {
      if |s| > 0 {
        assert s[|s| - 1..] == [s[|s| - 1]];
      }
      TrimRightNoop(s, IsNewline);
    }
  }

  /** A body cut at its trailing newlines does not end with one. */
  lemma PlainBody(s: string)
    ensures !EndsWith(TrimRight(s, IsNewline), "\n")
  {
    var body := TrimRight(s, IsNewline);
    if |body| > 0 {
      assert body[|body| - 1..] == [body[|body| - 1]];
    }
  }

  // ---------------------------------------------------------------------
  // _ensure_extension

  /** The stripped name, or `reporte` when it is blank. */
  function ExtBase(name: string): (clean: string)
    ensures |clean| > 0 && !IsSpace(clean[0]) && !IsSpace(clean[|clean| - 1])
  {
    if |Strip(name)| == 0 then "reporte" else Strip(name)
  }

  /** `_ensure_extension(name, ext)`: the stripped name (`reporte` when
      blank) with `.<ext>` added unless it already ends with it in any case. */
  function EnsureExt(name: string, ext: string): string {
    AddExt(ExtBase(name), ext)
  }

  /** `.<ext>` after a name that does not already end with it. */
  function AddExt(clean: string, ext: string): string {
    if EndsWith(Lower(clean), "." + ext) then clean else clean + "." + ext
  }

  lemma LowerAppend(a: string, b: string)
    ensures Lower(a + b) == Lower(a) + Lower(b)
  {
  }

  /** When the lower case of a text ends with some suffix, it also ends with
      the suffix's lower case. */
  lemma LowerEndsWith(s: string, suffix: string)
    requires EndsWith(Lower(s), suffix)
    ensures EndsWith(Lower(s), Lower(suffix))
  {
    var l := Lower(s);
    var k := |l| - |suffix|;
    forall i | 0 <= i < |suffix|
      ensures Lower(suffix)[i] == l[k + i]
    {
      assert suffix[i] == l[k + i];
      LowerCharIdempotent(s[k + i]);
    }
    assert Lower(suffix) == l[k..];
  }

  lemma LowerCharIdempotent(c: char)
    ensures LowerChar(LowerChar(c)) == LowerChar(c)
  {
  }

  /** A text without a dot ends with no suffix that starts with one. */
  lemma NoDotSuffix(s: string, t: string)
    requires '.' !in s && |t| > 0 && t[0] == '.'
    ensures !EndsWith(s, t)
  {
  }

  /** A blank name becomes `reporte.<ext>`. */
  lemma EnsureExtBlank(name: string, ext: string)
    requires |Strip(name)| == 0
    ensures EnsureExt(name, ext) == "reporte." + ext
  {
    assert Lower("reporte") == "reporte" by { LowerNoUpper("reporte"); }
    NoDotSuffix("reporte", "." + ext);
  }

  /** The result ends with `.<ext>`, ignoring case. */
  lemma EnsureExtSuffix(name: string, ext: string)
    ensures EndsWith(Lower(EnsureExt(name, ext)), "." + Lower(ext))
  {
    AddExtSuffix(ExtBase(name), ext);
  }

  lemma AddExtSuffix(clean: string, ext: string)
    ensures EndsWith(Lower(AddExt(clean, ext)), "." + Lower(ext))
  {
    var suffix := "." + ext;
    LowerAppend(".", ext);
    assert Lower(suffix) == "." + Lower(ext);
    if EndsWith(Lower(clean), suffix) {
      LowerEndsWith(clean, suffix);
    } else {
      assert AddExt(clean, ext) == clean + suffix;
      AppendSuffixLower(clean, suffix);
    }
  }

  lemma AppendSuffixLower(clean: string, suffix: string)
    ensures EndsWith(Lower(clean + suffix), Lower(suffix))
  {
    LowerAppend(clean, suffix);
    assert Lower(clean + suffix)[|clean|..] == Lower(suffix);
  }

  /** What `_ensure_extension` promises: `reporte.<ext>` for a blank name,
      the cleaned name in front, and `.<ext>` at the end in any case. */
  lemma EnsureExtSpec(name: string, ext: string)
    ensures |Strip(name)| == 0 ==> EnsureExt(name, ext) == "reporte." + ext
    ensures StartsWith(EnsureExt(name, ext), ExtBase(name))
    ensures EndsWith(Lower(EnsureExt(name, ext)), "." + Lower(ext))
  {
    if |Strip(name)| == 0 {
      EnsureExtBlank(name, ext);
    }
    var clean := ExtBase(name);
    var r := EnsureExt(name, ext);
    assert r[..|clean|] == clean;
    EnsureExtSuffix(name, ext);
  }

  /** Applying the extension twice is the same as once. */
  lemma EnsureExtIdempotent(name: string, ext: string)
    requires |ext| > 0 && !IsSpace(ext[|ext| - 1]) && Lower(ext) == ext
    ensures EnsureExt(EnsureExt(name, ext), ext) == EnsureExt(name, ext)
  {
    var r := EnsureExt(name, ext);
    var clean := ExtBase(name);
    EnsureExtSpec(name, ext);
    assert r[0] == clean[0];
    assert !IsSpace(r[|r| - 1]) by {
      if r != clean {
        assert r[|r| - 1] == ext[|ext| - 1];
      }
    }
    TrimLeftNoop(r, IsSpace);
    TrimRightNoop(r, IsSpace);
    assert Strip(r) == r && ExtBase(r) == r;
  }

  // ---------------------------------------------------------------------
  // build_output_flags

  datatype Block = Deudas | Vencimientos | DdjjPendientes {
    function Prefix(): string {
      match this
      case Deudas => "deudas"
      case Vencimientos => "vencimientos"
      case DdjjPendientes => "ddjj_pendientes"
    }
  }

  datatype Format = Excel | Csv | Pdf {
    function Name(): string {
      match this
      case Excel => "excel"
      case Csv => "csv"
      case Pdf => "pdf"
    }

    /** The file extension of a format (`ext_map`). */
    function Ext(): string {
      match this
      case Excel => "xls"
      case Csv => "csv"
      case Pdf => "pdf"
    }
  }

  /** Blocks and formats in the order the window visits them. */
  const Blocks: seq<Block> := [Deudas, Vencimientos, DdjjPendientes]
  const Formats: seq<Format> := [Excel, Csv, Pdf]

  /** `<block>_<fmt>_minio`. */
  function FlagKey(b: Block, f: Format): string {
    b.Prefix() + "_" + f.Name() + "_minio"
  }

  /** The nine flag names. */
  function AllFlagKeys(): set<string> {
    set b: Block, f: Format | b in Blocks && f in Formats :: FlagKey(b, f)
  }

  datatype Choice = Choice(deuda: bool, vencimientos: bool, ddjj: bool, excel: bool, csv: bool, pdf: bool) {
    predicate BlockOn(b: Block) {
      match b
      case Deudas => deuda
      case Vencimientos => vencimientos
      case DdjjPendientes => ddjj
    }

    predicate FormatOn(f: Format) {
      match f
      case Excel => excel
      case Csv => csv
      case Pdf => pdf
    }
  }

  /** The shape of a flag name: its length and the first letter of the
      format after the block prefix. */
  lemma FlagKeyShape(b: Block, f: Format)
    ensures |FlagKey(b, f)| == |b.Prefix()| + |f.Name()| + 7
    ensures FlagKey(b, f)[|b.Prefix()| + 1] == f.Name()[0]
  {
  }

  /** The nine names are pairwise different. */
  lemma FlagKeysDistinct()
    ensures forall b1, f1, b2, f2 :: FlagKey(b1, f1) == FlagKey(b2, f2) ==> b1 == b2 && f1 == f2
  {
    forall b1, f1, b2, f2 | FlagKey(b1, f1) == FlagKey(b2, f2)
      ensures b1 == b2 && f1 == f2
    {
      FlagKeyShape(b1, f1);
      FlagKeyShape(b2, f2);
    }
  }

  /** The nine flag names, all off. */
  function AllOff(): (m: map<string, bool>)
    ensures m.Keys == AllFlagKeys()
    ensures forall b, f :: FlagKey(b, f) in m && !m[FlagKey(b, f)]
  {
    map k | k in AllFlagKeys() :: false
  }

  /** `apply(prefix, enabled)`: when the block is chosen, switch on its
      chosen formats and note that something was selected. */
  function Apply(outputs: map<string, bool>, selected: bool, b: Block, c: Choice): (r: (map<string, bool>, bool))
    requires forall f :: FlagKey(b, f) in outputs
    ensures r.0.Keys == outputs.Keys
    ensures forall b2, f2 :: FlagKey(b2, f2) in outputs ==>
      r.0[FlagKey(b2, f2)] == (outputs[FlagKey(b2, f2)] || (b2 == b && c.BlockOn(b) && c.FormatOn(f2)))
    ensures r.1 == (selected || (c.BlockOn(b) && (c.excel || c.csv || c.pdf)))
  {
    FlagKeysDistinct();
    if !c.BlockOn(b) then (outputs, selected)
    else
      var o1 := if c.excel then outputs[FlagKey(b, Excel) := true] else outputs;
      var o2 := if c.csv then o1[FlagKey(b, Csv) := true] else o1;
      var o3 := if c.pdf then o2[FlagKey(b, Pdf) := true] else o2;
      (o3, selected || c.excel || c.csv || c.pdf)
  }

  /** Every flag is present, and on exactly when its block has been applied
      (is in `done`) and both the block and the format are chosen. */
  predicate FlagsAre(m: map<string, bool>, c: Choice, done: set<Block>) {
    forall b, f :: FlagKey(b, f) in m && m[FlagKey(b, f)] == (b in done && c.BlockOn(b) && c.FormatOn(f))
  }

  /** Every flag of a block is present in a map holding all nine names. */
  lemma FlagsPresent(m: map<string, bool>, b: Block)
    requires m.Keys == AllFlagKeys()
    ensures forall f :: FlagKey(b, f) in m
  {
    forall f: Format ensures FlagKey(b, f) in m {
      assert b in Blocks by {
        match b {
          case Deudas =>
          case Vencimientos =>
          case DdjjPendientes =>
        }
      }
      assert f in Formats by {
        match f {
          case Excel =>
          case Csv =>
          case Pdf =>
        }
      }
    }
  }

  lemma AllOffFlags(c: Choice)
    ensures FlagsAre(AllOff(), c, {})
  {
  }

  /** Applying a block switches on that block's chosen formats only. */
  lemma ApplyStep(m: map<string, bool>, selected: bool, b: Block, c: Choice, done: set<Block>)
    requires FlagsAre(m, c, done)
    ensures FlagsAre(Apply(m, selected, b, c).0, c, done + {b})
  {
  }

  lemma SelectedAny(c: Choice)
    ensures ((c.deuda || c.vencimientos || c.ddjj) && (c.excel || c.csv || c.pdf))
      <==> (exists b :: c.BlockOn(b)) && (exists f :: c.FormatOn(f))
  {
    assert (exists b :: c.BlockOn(b)) == (c.BlockOn(Deudas) || c.BlockOn(Vencimientos) || c.BlockOn(DdjjPendientes));
    assert (exists f :: c.FormatOn(f)) == (c.FormatOn(Excel) || c.FormatOn(Csv) || c.FormatOn(Pdf));
  }

  lemma FlagsAreAll(m: map<string, bool>, c: Choice, done: set<Block>)
    requires FlagsAre(m, c, done) && Deudas in done && Vencimientos in done && DdjjPendientes in done
    ensures forall b, f :: FlagKey(b, f) in m && m[FlagKey(b, f)] == (c.BlockOn(b) && c.FormatOn(f))
  {
    forall b: Block
      ensures b in done
    {
      match b
      case Deudas =>
      case Vencimientos =>
      case DdjjPendientes =>
    }
  }

  /** `build_output_flags`: the nine flags, each on exactly when its block
      and its format are both chosen, and whether any is on. */
  function BuildOutputFlags(c: Choice): (r: (map<string, bool>, bool))
    ensures r.0.Keys == AllFlagKeys()
    ensures forall b, f :: FlagKey(b, f) in r.0 && r.0[FlagKey(b, f)] == (c.BlockOn(b) && c.FormatOn(f))
    ensures r.1 <==> (exists b :: c.BlockOn(b)) && (exists f :: c.FormatOn(f))
  {
    ApplyAllFlags(c);
    ApplyAllSelected(c);
    ApplyAll(c)
  }

  /** `apply` run over the three blocks in order, from all flags off. */
  function ApplyAll(c: Choice): (r: (map<string, bool>, bool))
    ensures r.0.Keys == AllFlagKeys()
  {
    AllOffFlags(c);
    var s1 := Apply(AllOff(), false, Deudas, c);
    FlagsPresent(s1.0, Vencimientos);
    var s2 := Apply(s1.0, s1.1, Vencimientos, c);
    FlagsPresent(s2.0, DdjjPendientes);
    Apply(s2.0, s2.1, DdjjPendientes, c)
  }

  lemma ApplyAllFlags(c: Choice)
    ensures forall b, f :: FlagKey(b, f) in ApplyAll(c).0 && ApplyAll(c).0[FlagKey(b, f)] == (c.BlockOn(b) && c.FormatOn(f))
  {
    AllOffFlags(c);
    var s1 := Apply(AllOff(), false, Deudas, c);
    ApplyStep(AllOff(), false, Deudas, c, {});
    FlagsPresent(s1.0, Vencimientos);
    var s2 := Apply(s1.0, s1.1, Vencimientos, c);
    ApplyStep(s1.0, s1.1, Vencimientos, c, {Deudas});
    FlagsPresent(s2.0, DdjjPendientes);
    var s3 := Apply(s2.0, s2.1, DdjjPendientes, c);
    ApplyStep(s2.0, s2.1, DdjjPendientes, c, {Deudas, Vencimientos});
    assert s3 == ApplyAll(c);
    FlagsAreAll(s3.0, c, {Deudas, Vencimientos, DdjjPendientes});
  }

  lemma ApplyAllSelected(c: Choice)
    ensures ApplyAll(c).1 <==> (exists b :: c.BlockOn(b)) && (exists f :: c.FormatOn(f))
  {
    SelectedAny(c);
  }

  // ---------------------------------------------------------------------
  // _row_format_flags

  /** `_row_format_flags`' `pick(key, current)`. */
  function Pick(row: Row, key: string, current: bool, preferRow: bool): (r: bool)
    ensures key !in row ==> r == current
    ensures key in row ==> r == ParseBoolCell(row[key], !preferRow && current)
  {
    if key in row then
      var v := row[key];
      if v.Null? || Strip(Display(v)) == "" then
        BlankCell(v, !preferRow && current);
        if !preferRow then current else false
      else ParseBoolCell(v, if !preferRow then current else false)
    else current
  }

  /** A blank text cell reads as the default. */
  lemma BlankCell(v: Value, default: bool)
    requires v.Null? || Strip(Display(v)) == ""
    ensures ParseBoolCell(v, default) == default
  {
    if !v.Null? {
      assert CellWord(v) == "";
    }
  }

  /** The three format flags of a row: the defaults when there is no row,
      else each column read over its default; `prefer_row` makes a blank or
      unreadable cell switch the format off. */
  function RowFormatFlags(row: Option<Row>, preferRow: bool, dExcel: bool, dCsv: bool, dPdf: bool): (r: (bool, bool, bool))
    ensures row.None? ==> r == (dExcel, dCsv, dPdf)
    ensures row.Some? ==> r == (Pick(row.value, "excel", dExcel, preferRow),
                                Pick(row.value, "csv", dCsv, preferRow),
                                Pick(row.value, "pdf", dPdf, preferRow))
  {
    if row.None? then (dExcel, dCsv, dPdf)
    else (Pick(row.value, "excel", dExcel, preferRow),
          Pick(row.value, "csv", dCsv, preferRow),
          Pick(row.value, "pdf", dPdf, preferRow))
  }

  /** With `prefer_row`, a present column decides alone: the defaults only
      fill in for missing columns. */
  lemma PreferRowIgnoresDefault(row: Row, key: string, current: bool)
    requires key in row
    ensures Pick(row, key, current, true) == Pick(row, key, !current, true)
  {
  }

  /** A column holding `str(b)` for a boolean `b` gives `b`, whatever the
      default and preference. */
  lemma PickOfWrittenBool(row: Row, key: string, b: bool, current: bool, preferRow: bool)
    requires key in row && row[key] == Str(Display(Bool(b)))
    ensures Pick(row, key, current, preferRow) == b
  {
    ParseBoolCellOfDisplay(b, !preferRow && current);
  }

  // ---------------------------------------------------------------------
  // _download_variant

  /** The two keys a variant's link may be under, in the order tried. */
  function UrlKeys(b: Block, f: Format): (ks: seq<string>)
    ensures |ks| == 2
  {
    [b.Prefix() + "_" + f.Name() + "_minio_url", b.Prefix() + "_" + f.Name() + "_url_minio"]
  }

  function MissingLinkMessage(b: Block, f: Format): string {
    "Link inexistente o vac\U{ED}o (" + UrlKeys(b, f)[0] + " / " + UrlKeys(b, f)[1] + ")"
  }

  /** The stripped text under `key`, when it is non-blank text. */
  function UrlAt(data: seq<(string, Value)>, key: string): (r: Option<string>)
    ensures r.Some? ==> |r.value| > 0 && Strip(r.value) == r.value
    ensures r.Some? ==>
      Get(data, key).Some? && Get(data, key).value.Str? && r.value == Strip(Get(data, key).value.s)
    ensures r.None? <==> !(Get(data, key).Some? && Get(data, key).value.Str? && |Strip(Get(data, key).value.s)| > 0)
  {
    match Get(data, key)
    case Some(Str(s)) =>
      TrimIdempotent(s, IsSpace);
      if |Strip(s)| > 0 then Some(Strip(s)) else None
    case _ => None
  }

  /** The variant's link: the first of its two keys holding non-blank text. */
  function VariantUrl(data: seq<(string, Value)>, b: Block, f: Format): (r: Option<string>)
    ensures UrlAt(data, UrlKeys(b, f)[0]).Some? ==> r == UrlAt(data, UrlKeys(b, f)[0])
    ensures UrlAt(data, UrlKeys(b, f)[0]).None? ==> r == UrlAt(data, UrlKeys(b, f)[1])
    ensures r.Some? ==> |r.value| > 0 && Strip(r.value) == r.value
  {
    var first := UrlAt(data, UrlKeys(b, f)[0]);
    if first.Some? then first else UrlAt(data, UrlKeys(b, f)[1])
  }

  /** The file name a variant is saved under before collisions are resolved:
      the row's name for the block, else the URL's decoded file name, else
      `<block>_<format>`, always with the format's extension. */
  function VariantFileName(url: string, baseName: string, b: Block, f: Format): string {
    if |Strip(baseName)| == 0 then
      var fromUrl := Unquote(Basename(UrlPath(url)));
      EnsureExt(if |fromUrl| == 0 then b.Prefix() + "_" + f.Name() else fromUrl, f.Ext())
    else EnsureExt(baseName, f.Ext())
  }

  /** The name always carries the format's extension, and a named block
      keeps its name in front. */
  lemma VariantFileNameSpec(url: string, baseName: string, b: Block, f: Format)
    ensures EndsWith(Lower(VariantFileName(url, baseName, b, f)), "." + f.Ext())
    ensures |Strip(baseName)| > 0 ==> StartsWith(VariantFileName(url, baseName, b, f), Strip(baseName))
  {
    ExtLower(f);
    if |Strip(baseName)| > 0 {
      EnsureExtSpec(baseName, f.Ext());
    } else {
      var fromUrl := Unquote(Basename(UrlPath(url)));
      EnsureExtSuffix(if |fromUrl| == 0 then b.Prefix() + "_" + f.Name() else fromUrl, f.Ext());
    }
  }

  lemma ExtLower(f: Format)
    ensures Lower(f.Ext()) == f.Ext()
  {
    LowerNoUpper(f.Ext());
  }

  /** How one variant ended: not requested, saved at a path, or an error. */
  datatype Variant = NotRequested | Downloaded(path: string) | VariantError(message: string)

  /** `listing` after a file named `name` appears in folder `dir`. */
  function AddFile(listing: string -> set<string>, dir: string, name: string): (l: string -> set<string>)
    ensures l(dir) == listing(dir) + {name}
    ensures forall d :: d != dir ==> l(d) == listing(d)
  {
    d => if d == dir then listing(d) + {name} else listing(d)
  }

  /** The output flag of block `b` in format `f` is on. */
  predicate Requested(outputs: map<string, bool>, b: Block, f: Format) {
    FlagKey(b, f) in outputs && outputs[FlagKey(b, f)]
  }

  /** `v` and `after` are what the transfer of `url` gives: the file goes to
      the name `get_unique_filename` picks in folder `dir`, the variant is
      saved exactly when the fetch succeeds, and the name is taken afterwards
      when the fetch succeeded or left a file behind. */
  ghost predicate Transferred(url: string, filename: string, dir: string, listing: string -> set<string>,
                              ts: string, fetch: (string, string) -> FetchResult,
                              v: Variant, after: string -> set<string>) {
    exists name :: UniqueNameFor(listing(dir), filename, ts, name) &&
      var target := PathJoin(dir, name);
      var res := fetch(url, target);
      && (v.Downloaded? <==> res.success)
      && (v.Downloaded? ==> v.path == target)
      && (v.VariantError? ==> v.message == if |res.error| > 0 then res.error else "Error al descargar en " + target)
      && after == if res.success || res.created then AddFile(listing, dir, name) else listing
  }

  /** The outcome of that transfer and the listing after it, as a function
      of its inputs. */
  ghost function SaveResult(url: string, filename: string, dir: string, listing: string -> set<string>,
                            ts: string, fetch: (string, string) -> FetchResult): (Variant, string -> set<string>)
  {
    SaveTo(url, UniqueName(listing(dir), filename, ts), dir, listing, fetch)
  }

  /** The outcome of fetching `url` to `<dir>/<name>` and the listing after it. */
  function SaveTo(url: string, name: string, dir: string, listing: string -> set<string>,
                  fetch: (string, string) -> FetchResult): (Variant, string -> set<string>)
  {
    var target := PathJoin(dir, name);
    var res := fetch(url, target);
    (if res.success then Downloaded(target)
     else VariantError(if |res.error| > 0 then res.error else "Error al descargar en " + target),
     if res.success || res.created then AddFile(listing, dir, name) else listing)
  }

  /** The transfer step of `_download_variant` once the link and the folder
      are known: a collision-free name in the folder, then the fetch. */
  method SaveVariant(url: string, filename: string, dir: string,
                     listing: string -> set<string>, ts: string, fetch: (string, string) -> FetchResult)
    returns (v: Variant, after: string -> set<string>)
    ensures !v.NotRequested?
    ensures Transferred(url, filename, dir, listing, ts, fetch, v, after)
    ensures (v, after) == SaveResult(url, filename, dir, listing, ts, fetch)
    ensures v.VariantError? ==> |v.message| > 0
  {
    var unique := GetUniqueFilename(listing(dir), filename, ts);
    var target := PathJoin(dir, unique);
    var res := fetch(url, target);
    if res.success {
      v := Downloaded(target);
    } else {
      v := VariantError(if |res.error| > 0 then res.error else "Error al descargar en " + target);
    }
    after := if res.success || res.created then AddFile(listing, dir, unique) else listing;
  }

  /** What `_download_variant` gives, as a function of its inputs: the
      outcome and the listing after it. */
  ghost function VariantResult(data: seq<(string, Value)>, outputs: map<string, bool>, b: Block, f: Format,
                               destDir: string, baseName: string, cuitRepr: string,
                               writable: string -> bool, listing: string -> set<string>, ts: string,
                               fetch: (string, string) -> FetchResult): (Variant, string -> set<string>)
  {
    if !Requested(outputs, b, f) then (NotRequested, listing)
    else if VariantUrl(data, b, f).None? then (VariantError(MissingLinkMessage(b, f)), listing)
    else
      var url := VariantUrl(data, b, f).value;
      var choice := PrepareDownloadDir("SCT", destDir, cuitRepr, writable);
      if choice.dir.None? then (VariantError(Join(choice.messages, "; ")), listing)
      else SaveResult(url, VariantFileName(url, baseName, b, f), choice.dir.value, listing, ts, fetch)
  }

  /** `_download_variant`: `listing(d)` is the set of names in folder `d`,
      `writable` says which folders can be written and `fetch(url, path)`
      performs the transfer. Returns the outcome and the listing after it. */
  method DownloadVariant(data: seq<(string, Value)>, outputs: map<string, bool>, b: Block, f: Format,
                         destDir: string, baseName: string, cuitRepr: string,
                         writable: string -> bool, listing: string -> set<string>, ts: string,
                         fetch: (string, string) -> FetchResult)
    returns (v: Variant, after: string -> set<string>)
    ensures (v, after) == VariantResult(data, outputs, b, f, destDir, baseName, cuitRepr, writable, listing, ts, fetch)
    ensures !Requested(outputs, b, f) <==> v == NotRequested
    ensures Requested(outputs, b, f) && VariantUrl(data, b, f).None? ==>
      v == VariantError(MissingLinkMessage(b, f))
    ensures var choice := PrepareDownloadDir("SCT", destDir, cuitRepr, writable);
      Requested(outputs, b, f) && VariantUrl(data, b, f).Some? && choice.dir.None? ==>
      v == VariantError(Join(choice.messages, "; "))
    ensures var url := VariantUrl(data, b, f);
      var dir := PrepareDownloadDir("SCT", destDir, cuitRepr, writable).dir;
      if Requested(outputs, b, f) && url.Some? && dir.Some? then
        Transferred(url.value, VariantFileName(url.value, baseName, b, f), dir.value, listing, ts, fetch, v, after)
      else after == listing
    ensures v.VariantError? ==> |v.message| > 0
  {
    VariantResultCases(data, outputs, b, f, destDir, baseName, cuitRepr, writable, listing, ts, fetch);
    after := listing;
    if !Requested(outputs, b, f) {
      return NotRequested, after;
    }
    var url := VariantUrl(data, b, f);
    if url.None? {
      return VariantError(MissingLinkMessage(b, f)), after;
    }
    var choice := PrepareDownloadDir("SCT", destDir, cuitRepr, writable);
    if choice.dir.None? {
      JoinNonEmpty(choice.messages, "; ");
      return VariantError(Join(choice.messages, "; ")), after;
    }
    v, after := SaveVariant(url.value, VariantFileName(url.value, baseName, b, f), choice.dir.value, listing, ts, fetch);
  }

  /** The cases of `_download_variant`'s result before any transfer. */
  lemma VariantResultCases(data: seq<(string, Value)>, outputs: map<string, bool>, b: Block, f: Format,
                           destDir: string, baseName: string, cuitRepr: string,
                           writable: string -> bool, listing: string -> set<string>, ts: string,
                           fetch: (string, string) -> FetchResult)
    ensures var v := VariantResult(data, outputs, b, f, destDir, baseName, cuitRepr, writable, listing, ts, fetch).0;
      && (!Requested(outputs, b, f) <==> v == NotRequested)
      && (Requested(outputs, b, f) && VariantUrl(data, b, f).None? ==> v == VariantError(MissingLinkMessage(b, f)))
      && (var choice := PrepareDownloadDir("SCT", destDir, cuitRepr, writable);
          Requested(outputs, b, f) && VariantUrl(data, b, f).Some? && choice.dir.None? ==>
          v == VariantError(Join(choice.messages, "; ")))
  {
  }

  /** A join of at least one non-empty part is non-empty. */
  lemma JoinNonEmpty(parts: seq<string>, sep: string)
    requires |parts| > 0 && |parts[0]| > 0
    ensures |Join(parts, sep)| > 0
  {
  }

  // ---------------------------------------------------------------------
  // _process_downloads_per_block

  /** One entry of `block_config`: whether the block is on, its folder and
      the file name the row gives it. */
  datatype BlockConfig = BlockConfig(block: Block, enabled: bool, path: string, name: string)

  predicate Enabled(c: BlockConfig) { c.enabled }

  /** `<block>-<format>: `, the head of an error line. */
  function ErrorHead(b: Block, f: Format): string {
    b.Prefix() + "-" + f.Name() + ": "
  }

  /** An error line of a format of block `b` that the flags ask for. */
  predicate IsRequestedErrorOf(e: string, outputs: map<string, bool>, b: Block) {
    exists f: Format :: Requested(outputs, b, f) && StartsWith(e, ErrorHead(b, f))
  }

  /** An error line of a requested format of an enabled block of `config`. */
  predicate FromEnabledBlock(e: string, outputs: map<string, bool>, config: seq<BlockConfig>) {
    exists c :: c in config && c.enabled && IsRequestedErrorOf(e, outputs, c.block)
  }

  /** How many of the first `n` formats of block `b` the flags ask for. */
  function FormatsRequested(outputs: map<string, bool>, b: Block, n: nat): (k: nat)
    requires n <= |Formats|
    ensures k <= n
  {
    if n == 0 then 0
    else FormatsRequested(outputs, b, n - 1) + (if Requested(outputs, b, Formats[n - 1]) then 1 else 0)
  }

  /** How many variants the enabled blocks of `config` ask for; a disabled
      block asks for none. */
  function VariantsRequested(outputs: map<string, bool>, config: seq<BlockConfig>): nat
    decreases |config|
  {
    if |config| == 0 then 0
    else
      var c := config[|config| - 1];
      VariantsRequested(outputs, config[..|config| - 1]) + (if c.enabled then FormatsRequested(outputs, c.block, |Formats|) else 0)
  }

  /** No enabled block, or no flag on, means nothing is asked for; and an
      enabled block asks for at most its three formats. */
  lemma {:induction false} VariantsRequestedBounds(outputs: map<string, bool>, config: seq<BlockConfig>)
    ensures VariantsRequested(outputs, config) <= |Formats| * Count(config, Enabled)
    ensures NothingRequested(outputs) ==> VariantsRequested(outputs, config) == 0
    decreases |config|
  {
    if |config| > 0 {
      var pre := config[..|config| - 1];
      var c := config[|config| - 1];
      VariantsRequestedBounds(outputs, pre);
      assert config == pre + [c];
      CountAppend(pre, c, Enabled);
      if NothingRequested(outputs) {
        NoFormatRequested(outputs, c.block, |Formats|);
      }
    }
  }

  lemma {:induction false} NoFormatRequested(outputs: map<string, bool>, b: Block, n: nat)
    requires n <= |Formats| && NothingRequested(outputs)
    ensures FormatsRequested(outputs, b, n) == 0
  {
    if n > 0 {
      NoFormatRequested(outputs, b, n - 1);
    }
  }

  /** The error lines so far stay attributed when an enabled block's lines
      are added. */
  lemma ErrorsGrow(before: seq<string>, added: seq<string>, outputs: map<string, bool>,
                   pre: seq<BlockConfig>, cfg: BlockConfig)
    requires forall e :: e in before ==> FromEnabledBlock(e, outputs, pre)
    requires cfg.enabled && forall e :: e in added ==> IsRequestedErrorOf(e, outputs, cfg.block)
    ensures forall e :: e in before + added ==> FromEnabledBlock(e, outputs, pre + [cfg])
  {
    forall e | e in before + added
      ensures FromEnabledBlock(e, outputs, pre + [cfg])
    {
      if e in before {
        var c :| c in pre && c.enabled && IsRequestedErrorOf(e, outputs, c.block);
        assert c in pre + [cfg];
      } else {
        assert cfg in pre + [cfg];
      }
    }
  }

  /** No output flag is on. */
  predicate NothingRequested(outputs: map<string, bool>) {
    forall k :: k in outputs ==> !outputs[k]
  }

  /** Downloads and error lines so far, and the folder listings after them. */
  datatype Tally = Tally(downloads: nat, errors: seq<string>, files: string -> set<string>)

  /** What one format of one enabled block adds. */
  ghost function VariantTally(data: seq<(string, Value)>, outputs: map<string, bool>, cfg: BlockConfig, f: Format,
                              cuitRepr: string, writable: string -> bool, listing: string -> set<string>, ts: string,
                              fetch: (string, string) -> FetchResult): Tally
  {
    var res := VariantResult(data, outputs, cfg.block, f, cfg.path, cfg.name, cuitRepr, writable, listing, ts, fetch);
    OutcomeTally(cfg.block, f, res.0, res.1)
  }

  /** What a variant's outcome adds: a download, an error line under
      `<block>-<format>`, or nothing. */
  function OutcomeTally(b: Block, f: Format, v: Variant, after: string -> set<string>): Tally {
    match v
    case Downloaded(_) => Tally(1, [], after)
    case VariantError(message) => Tally(0, [ErrorLine(b, f, message)], after)
    case NotRequested => Tally(0, [], after)
  }

  /** The place of format `j` of the block at position `pos` of the
      configuration among the variants of a row: the clock reading its
      renaming takes is `clock(VariantIndex(pos, j))`. */
  function VariantIndex(pos: nat, j: nat): nat {
    |Formats| * pos + j
  }

  /** What the first `n` formats of the enabled block at position `pos`
      add. */
  ghost function BlockTally(data: seq<(string, Value)>, outputs: map<string, bool>, cfg: BlockConfig,
                            cuitRepr: string, writable: string -> bool, listing: string -> set<string>, clock: Clock,
                            pos: nat, fetch: (string, string) -> FetchResult, n: nat): Tally
    requires n <= |Formats|
  {
    if n == 0 then Tally(0, [], listing)
    else
      var t := BlockTally(data, outputs, cfg, cuitRepr, writable, listing, clock, pos, fetch, n - 1);
      var s := VariantTally(data, outputs, cfg, Formats[n - 1], cuitRepr, writable, t.files, clock(VariantIndex(pos, n - 1)), fetch);
      Tally(t.downloads + s.downloads, t.errors + s.errors, s.files)
  }

  /** What `_process_downloads_per_block` gives over the blocks of `config`,
      a disabled block adding nothing. */
  ghost function PerBlockTally(data: seq<(string, Value)>, outputs: map<string, bool>, config: seq<BlockConfig>,
                               cuitRepr: string, writable: string -> bool, listing: string -> set<string>, clock: Clock,
                               fetch: (string, string) -> FetchResult): Tally
    decreases |config|
  {
    if |config| == 0 then Tally(0, [], listing)
    else
      var t := PerBlockTally(data, outputs, config[..|config| - 1], cuitRepr, writable, listing, clock, fetch);
      var c := config[|config| - 1];
      if !c.enabled then t
      else
        var s := BlockTally(data, outputs, c, cuitRepr, writable, t.files, clock, |config| - 1, fetch, |Formats|);
        Tally(t.downloads + s.downloads, t.errors + s.errors, s.files)
  }

  /** One enabled block of `_process_downloads_per_block`: the block in each
      of the three formats, each requested one giving one download or one
      error line. */
  method ProcessBlock(data: seq<(string, Value)>, outputs: map<string, bool>, cfg: BlockConfig, cuitRepr: string,
                      writable: string -> bool, listing: string -> set<string>, clock: Clock, pos: nat,
                      fetch: (string, string) -> FetchResult)
    returns (downloads: nat, errors: seq<string>, files: string -> set<string>)
    ensures downloads + |errors| == FormatsRequested(outputs, cfg.block, |Formats|)
    ensures forall e :: e in errors ==> IsRequestedErrorOf(e, outputs, cfg.block)
    ensures Tally(downloads, errors, files) == BlockTally(data, outputs, cfg, cuitRepr, writable, listing, clock, pos, fetch, |Formats|)
  {
    downloads, errors, files := 0, [], listing;
    var j := 0;
    while j < |Formats|
      invariant j <= |Formats|
      invariant downloads + |errors| == FormatsRequested(outputs, cfg.block, j)
      invariant forall e :: e in errors ==> IsRequestedErrorOf(e, outputs, cfg.block)
      invariant Tally(downloads, errors, files) == BlockTally(data, outputs, cfg, cuitRepr, writable, listing, clock, pos, fetch, j)
    {
      downloads, errors, files := ProcessFormat(data, outputs, cfg, cuitRepr, writable, listing, clock, pos, fetch,
                                                j, downloads, errors, files);
      j := j + 1;
    }
  }

  /** The `j`-th format of the block after the formats before it. */
  method ProcessFormat(data: seq<(string, Value)>, outputs: map<string, bool>, cfg: BlockConfig, cuitRepr: string,
                       writable: string -> bool, listing: string -> set<string>, clock: Clock, pos: nat,
                       fetch: (string, string) -> FetchResult,
                       j: nat, downloads: nat, errors: seq<string>, files: string -> set<string>)
    returns (downloadsAfter: nat, errorsAfter: seq<string>, filesAfter: string -> set<string>)
    requires j < |Formats|
    requires downloads + |errors| == FormatsRequested(outputs, cfg.block, j)
    requires forall e :: e in errors ==> IsRequestedErrorOf(e, outputs, cfg.block)
    requires Tally(downloads, errors, files) == BlockTally(data, outputs, cfg, cuitRepr, writable, listing, clock, pos, fetch, j)
    ensures downloadsAfter + |errorsAfter| == FormatsRequested(outputs, cfg.block, j + 1)
    ensures forall e :: e in errorsAfter ==> IsRequestedErrorOf(e, outputs, cfg.block)
    ensures Tally(downloadsAfter, errorsAfter, filesAfter)
         == BlockTally(data, outputs, cfg, cuitRepr, writable, listing, clock, pos, fetch, j + 1)
  {
    var d, e;
    d, e, filesAfter := ProcessVariant(data, outputs, cfg, Formats[j], cuitRepr, writable, files, clock(VariantIndex(pos, j)), fetch);
    BlockTallyStep(data, outputs, cfg, cuitRepr, writable, listing, clock, pos, fetch, j);
    downloadsAfter, errorsAfter := downloads + d, errors + e;
  }

  /** The tally of one more format adds that format's variant. */
  lemma BlockTallyStep(data: seq<(string, Value)>, outputs: map<string, bool>, cfg: BlockConfig, cuitRepr: string,
                       writable: string -> bool, listing: string -> set<string>, clock: Clock, pos: nat,
                       fetch: (string, string) -> FetchResult, j: nat)
    requires j < |Formats|
    ensures var t := BlockTally(data, outputs, cfg, cuitRepr, writable, listing, clock, pos, fetch, j);
      var s := VariantTally(data, outputs, cfg, Formats[j], cuitRepr, writable, t.files, clock(VariantIndex(pos, j)), fetch);
      BlockTally(data, outputs, cfg, cuitRepr, writable, listing, clock, pos, fetch, j + 1)
        == Tally(t.downloads + s.downloads, t.errors + s.errors, s.files)
  {
  }

  /** One format of one enabled block: a download, an error line, or
      nothing when the flags do not ask for it. */
  method ProcessVariant(data: seq<(string, Value)>, outputs: map<string, bool>, cfg: BlockConfig, f: Format,
                        cuitRepr: string, writable: string -> bool, listing: string -> set<string>, ts: string,
                        fetch: (string, string) -> FetchResult)
    returns (downloads: nat, errors: seq<string>, files: string -> set<string>)
    ensures downloads + |errors| == if Requested(outputs, cfg.block, f) then 1 else 0
    ensures forall e :: e in errors ==> IsRequestedErrorOf(e, outputs, cfg.block)
    ensures Tally(downloads, errors, files) == VariantTally(data, outputs, cfg, f, cuitRepr, writable, listing, ts, fetch)
  {
    var v;
    v, files := DownloadVariant(data, outputs, cfg.block, f, cfg.path, cfg.name, cuitRepr, writable, listing, ts, fetch);
    assert VariantTally(data, outputs, cfg, f, cuitRepr, writable, listing, ts, fetch) == OutcomeTally(cfg.block, f, v, files);
    downloads, errors := 0, [];
    match v {
      case Downloaded(_) =>
        downloads := 1;
      case VariantError(message) =>
        var line := ErrorLine(cfg.block, f, message);
        assert IsRequestedErrorOf(line, outputs, cfg.block);
        errors := [line];
      case NotRequested =>
    }
  }

  /** `<block>-<format>: <message>`. */
  function ErrorLine(b: Block, f: Format, message: string): (r: string)
    ensures StartsWith(r, ErrorHead(b, f))
  {
    var r := ErrorHead(b, f) + message;
    assert r[..|ErrorHead(b, f)|] == ErrorHead(b, f);
    r
  }

  /** `_process_downloads_per_block`: every enabled block is tried in each
      format in turn; each variant the flags ask for is either saved and
      counted or reported under `<block>-<format>`, and nothing else is. */
  method ProcessDownloadsPerBlock(data: seq<(string, Value)>, outputs: map<string, bool>,
                                  config: seq<BlockConfig>, cuitRepr: string,
                                  writable: string -> bool, listing: string -> set<string>, clock: Clock,
                                  fetch: (string, string) -> FetchResult)
    returns (downloads: nat, errors: seq<string>)
    ensures downloads + |errors| == VariantsRequested(outputs, config)
    ensures forall e :: e in errors ==> FromEnabledBlock(e, outputs, config)
    ensures downloads == PerBlockTally(data, outputs, config, cuitRepr, writable, listing, clock, fetch).downloads
    ensures errors == PerBlockTally(data, outputs, config, cuitRepr, writable, listing, clock, fetch).errors
  {
    downloads, errors := 0, [];
    var files := listing;
    var i := 0;
    while i < |config|
      invariant i <= |config|
      invariant downloads + |errors| == VariantsRequested(outputs, config[..i])
      invariant forall e :: e in errors ==> FromEnabledBlock(e, outputs, config[..i])
      invariant Tally(downloads, errors, files) == PerBlockTally(data, outputs, config[..i], cuitRepr, writable, listing, clock, fetch)
    {
      downloads, errors, files := ProcessConfigEntry(data, outputs, config, i, cuitRepr, writable, listing, clock, fetch,
                                                     downloads, errors, files);
      i := i + 1;
    }
    assert config[..i] == config;
  }

  /** One turn of `_process_downloads_per_block`: entry `i` of `config`
      keeps every promise the run makes about the entries before it. */
  method ProcessConfigEntry(data: seq<(string, Value)>, outputs: map<string, bool>, config: seq<BlockConfig>, i: nat,
                            cuitRepr: string, writable: string -> bool, listing: string -> set<string>, clock: Clock,
                            fetch: (string, string) -> FetchResult,
                            downloads: nat, errors: seq<string>, files: string -> set<string>)
    returns (downloads': nat, errors': seq<string>, files': string -> set<string>)
    requires i < |config|
    requires downloads + |errors| == VariantsRequested(outputs, config[..i])
    requires forall e :: e in errors ==> FromEnabledBlock(e, outputs, config[..i])
    requires Tally(downloads, errors, files) == PerBlockTally(data, outputs, config[..i], cuitRepr, writable, listing, clock, fetch)
    ensures downloads' + |errors'| == VariantsRequested(outputs, config[..i + 1])
    ensures forall e :: e in errors' ==> FromEnabledBlock(e, outputs, config[..i + 1])
    ensures Tally(downloads', errors', files') == PerBlockTally(data, outputs, config[..i + 1], cuitRepr, writable, listing, clock, fetch)
  {
    var cfg := config[i];
    assert config[..i + 1] == config[..i] + [cfg];
    assert config[..i + 1][..i] == config[..i];
    downloads', errors', files' := downloads, errors, files;
    if cfg.enabled {
      var d, e;
      d, e, files' := ProcessBlock(data, outputs, cfg, cuitRepr, writable, files, clock, i, fetch);
      ErrorsGrow(errors, e, outputs, config[..i], cfg);
      downloads', errors' := downloads + d, errors + e;
    } else {
      forall e | e in errors ensures FromEnabledBlock(e, outputs, config[..i + 1]) {
        var c :| c in config[..i] && c.enabled && IsRequestedErrorOf(e, outputs, c.block);
        assert c in config[..i + 1];
      }
    }
  }

  // ---------------------------------------------------------------------
  // _process_row_sct

  /** The window's defaults for a row: the three blocks, the three formats
      and the proxy flag. */
  datatype SctDefaults = SctDefaults(deuda: bool, vencimientos: bool, presentacion: bool,
                                     excel: bool, csv: bool, pdf: bool, proxy: bool)

  /** A block column read over its default, the default when absent. */
  function IncludeFlag(row: Row, column: string, default: bool): (r: bool)
    ensures column !in row ==> r == default
    ensures column in row && Unrecognised(row[column]) ==> r == default
  {
    ParseBoolCellDefault(Cell(row, column));
    if column in row then ParseBoolCell(row[column], default) else default
  }

  /** The blocks and formats a row asks for. */
  function RowChoice(row: Row, d: SctDefaults): Choice {
    var (excel, csv, pdf) := RowFormatFlags(Some(row), true, d.excel, d.csv, d.pdf);
    Choice(IncludeFlag(row, "deuda", d.deuda), IncludeFlag(row, "vencimientos", d.vencimientos),
           IncludeFlag(row, "presentacion_ddjj", d.presentacion), excel, csv, pdf)
  }

  /** `str(row.get(a) or row.get(b) or "")`. */
  function EitherText(row: Row, a: string, b: string): (r: string)
    ensures Truthy(Cell(row, a)) ==> r == Display(Cell(row, a))
    ensures !Truthy(Cell(row, a)) && Truthy(Cell(row, b)) ==> r == Display(Cell(row, b))
    ensures !Truthy(Cell(row, a)) && !Truthy(Cell(row, b)) ==> r == ""
  {
    Display(Or(Or(Cell(row, a), Cell(row, b)), Str("")))
  }

  /** `block_config`: each block's switch, folder and file name. */
  function RowBlockConfig(row: Row, c: Choice): (r: seq<BlockConfig>)
    ensures |r| == 3
    ensures forall i :: 0 <= i < 3 ==> r[i].block == Blocks[i] && r[i].enabled == c.BlockOn(Blocks[i])
  {
    [ BlockConfig(Deudas, c.deuda, EitherText(row, "ubicacion_deuda", "ubicacion_deudas"),
                  EitherText(row, "nombre_deuda", "nombre_deudas")),
      BlockConfig(Vencimientos, c.vencimientos, EitherText(row, "ubicacion_vencimientos", "ubicacion_vencimientos"),
                  EitherText(row, "nombre_vencimientos", "nombre_vencimientos")),
      BlockConfig(DdjjPendientes, c.ddjj, EitherText(row, "ubicacion_ddjj", "ubicacion_presentacion_ddjj"),
                  EitherText(row, "nombre_ddjj", "nombre_presentacion_ddjj")) ]
  }

  /** The order the nine flags appear in the request (that of the literal
      dict in `build_output_flags`). */
  const FlagOrder: seq<(Block, Format)> := [
    (Vencimientos, Excel), (Vencimientos, Csv), (Vencimientos, Pdf),
    (Deudas, Excel), (Deudas, Csv), (Deudas, Pdf),
    (DdjjPendientes, Excel), (DdjjPendientes, Csv), (DdjjPendientes, Pdf)]

  lemma FlagOrderComplete(b: Block, f: Format)
    ensures exists p :: 0 <= p < |FlagOrder| && FlagOrder[p] == (b, f)
  {
    var p := (match b case Vencimientos => 0 case Deudas => 3 case DdjjPendientes => 6)
           + (match f case Excel => 0 case Csv => 1 case Pdf => 2);
    assert FlagOrder[p] == (b, f);
  }

  lemma FlagOrderDistinct()
    ensures forall i, j :: 0 <= i < j < |FlagOrder| ==> FlagOrder[i] != FlagOrder[j]
  {
  }

  /** `payload.update(outputs)`'s entries. */
  function FlagEntries(outputs: map<string, bool>): (r: seq<(string, Value)>)
    requires forall b, f :: FlagKey(b, f) in outputs
    ensures forall b, f :: Get(r, FlagKey(b, f)) == Some(Bool(outputs[FlagKey(b, f)]))
    ensures |r| == |FlagOrder|
    ensures forall i :: 0 <= i < |r| ==> r[i].0 == FlagKey(FlagOrder[i].0, FlagOrder[i].1)
  {
    var r := seq(|FlagOrder|, i requires 0 <= i < |FlagOrder| =>
      (FlagKey(FlagOrder[i].0, FlagOrder[i].1), Bool(outputs[FlagKey(FlagOrder[i].0, FlagOrder[i].1)])));
    FlagEntriesGet(outputs, r);
    r
  }

  lemma FlagEntriesGet(outputs: map<string, bool>, r: seq<(string, Value)>)
    requires forall b, f :: FlagKey(b, f) in outputs
    requires |r| == |FlagOrder|
    requires forall i :: 0 <= i < |FlagOrder| ==>
      r[i] == (FlagKey(FlagOrder[i].0, FlagOrder[i].1), Bool(outputs[FlagKey(FlagOrder[i].0, FlagOrder[i].1)]))
    ensures forall b, f :: Get(r, FlagKey(b, f)) == Some(Bool(outputs[FlagKey(b, f)]))
  {
    FlagKeysDistinct();
    FlagOrderDistinct();
    forall b, f ensures Get(r, FlagKey(b, f)) == Some(Bool(outputs[FlagKey(b, f)])) {
      FlagOrderComplete(b, f);
      var p :| 0 <= p < |FlagOrder| && FlagOrder[p] == (b, f);
      GetAt(r, p);
    }
  }

  /** The request's fixed part: login, password, represented taxpayer and,
      when the column exists, the proxy flag. */
  function BasePayload(row: Row, d: SctDefaults): seq<(string, Value)> {
    BaseEntries(Strip(RowText(row, "cuit_login")), RowText(row, "clave"), RowCuit(row),
                if "proxy_request" in row then Some(ParseBoolCell(row["proxy_request"], d.proxy)) else None)
  }

  function BaseEntries(login: string, clave: string, cuit: string, proxy: Option<bool>): seq<(string, Value)> {
    [("cuit_login", Str(login)), ("clave", Str(clave)), ("cuit_representado", Str(cuit))]
    + (if proxy.Some? then [("proxy_request", Bool(proxy.value))] else [])
  }

  /** The request body of a row. */
  function SctPayload(row: Row, d: SctDefaults, outputs: map<string, bool>): (r: seq<(string, Value)>)
    requires forall b, f :: FlagKey(b, f) in outputs
    ensures Get(r, "clave") == Some(Str(RowText(row, "clave")))
    ensures Get(r, "cuit_representado") == Some(Str(RowCuit(row)))
    ensures Get(r, "proxy_request").Some? <==> "proxy_request" in row
    ensures forall b, f :: Get(r, FlagKey(b, f)) == Some(Bool(outputs[FlagKey(b, f)]))
  {
    var base := BasePayload(row, d);
    var flags := FlagEntries(outputs);
    BasePayloadGet(row, d);
    GetAppend(base, flags, "clave");
    GetAppend(base, flags, "cuit_representado");
    GetAppend(base, flags, "proxy_request");
    ProxyNotFlag(flags);
    forall b, f ensures Get(base + flags, FlagKey(b, f)) == Some(Bool(outputs[FlagKey(b, f)])) {
      GetAppend(base, flags, FlagKey(b, f));
      BaseKeysNotFlags(row, d, b, f);
    }
    base + flags
  }

  lemma BasePayloadGet(row: Row, d: SctDefaults)
    ensures Get(BasePayload(row, d), "clave") == Some(Str(RowText(row, "clave")))
    ensures Get(BasePayload(row, d), "cuit_representado") == Some(Str(RowCuit(row)))
    ensures Get(BasePayload(row, d), "proxy_request").Some? <==> "proxy_request" in row
  {
    BaseEntriesGet(Strip(RowText(row, "cuit_login")), RowText(row, "clave"), RowCuit(row),
                   if "proxy_request" in row then Some(ParseBoolCell(row["proxy_request"], d.proxy)) else None);
  }

  lemma BaseEntriesGet(login: string, clave: string, cuit: string, proxy: Option<bool>)
    ensures Get(BaseEntries(login, clave, cuit, proxy), "clave") == Some(Str(clave))
    ensures Get(BaseEntries(login, clave, cuit, proxy), "cuit_representado") == Some(Str(cuit))
    ensures Get(BaseEntries(login, clave, cuit, proxy), "proxy_request").Some? <==> proxy.Some?
  {
    var base := BaseEntries(login, clave, cuit, proxy);
    GetAt(base, 1);
    GetAt(base, 2);
    if proxy.Some? {
      GetAt(base, 3);
    }
  }

  /** `proxy_request` is not a flag name. */
  lemma ProxyNotFlag(flags: seq<(string, Value)>)
    requires |flags| == |FlagOrder|
    requires forall i :: 0 <= i < |flags| ==> flags[i].0 == FlagKey(FlagOrder[i].0, FlagOrder[i].1)
    ensures Get(flags, "proxy_request").None?
  {
    forall i | 0 <= i < |flags| ensures flags[i].0 != "proxy_request" {
      FlagKeyNotProxy(FlagOrder[i].0, FlagOrder[i].1);
    }
  }

  /** A flag name ends in "o", the proxy column in "t". */
  lemma FlagKeyNotProxy(b: Block, f: Format)
    ensures FlagKey(b, f) != "proxy_request"
  {
    var k := FlagKey(b, f);
    assert k[|k| - 1] == 'o';
  }

  lemma BaseKeysNotFlags(row: Row, d: SctDefaults, b: Block, f: Format)
    ensures Get(BasePayload(row, d), FlagKey(b, f)).None?
  {
    BaseEntriesNotFlags(Strip(RowText(row, "cuit_login")), RowText(row, "clave"), RowCuit(row),
                        if "proxy_request" in row then Some(ParseBoolCell(row["proxy_request"], d.proxy)) else None, b, f);
  }

  lemma BaseEntriesNotFlags(login: string, clave: string, cuit: string, proxy: Option<bool>, b: Block, f: Format)
    ensures Get(BaseEntries(login, clave, cuit, proxy), FlagKey(b, f)).None?
  {
    FlagKeyShape(b, f);
  }

  const NoOutputMessage := "Sin formato de salida seleccionado para esta fila"

  /** A row's entry in the results table. */
  datatype SctRow =
    | NoOutput(cuit: string, message: string)
    | Queried(cuit: string, httpStatus: Option<int>, status: Value, errorMessage: Value,
              downloads: nat, downloadErrors: Option<string>)

  /** The row's flags, as the window builds them. */
  function RowOutputs(row: Row, d: SctDefaults): (r: (map<string, bool>, bool))
    ensures forall b, f :: FlagKey(b, f) in r.0
  {
    BuildOutputFlags(RowChoice(row, d))
  }

  /** Whether a row asks for at least one file. */
  predicate AsksForOutput(row: Row, d: SctDefaults) {
    RowOutputs(row, d).1
  }

  /** The request body of a row and the answer the attempt loop keeps. */
  function RowPayload(row: Row, d: SctDefaults): seq<(string, Value)> {
    SctPayload(row, d, RowOutputs(row, d).0)
  }

  function RowAnswer(row: Row, d: SctDefaults, post: (seq<(string, Value)>, nat) -> Response): Response {
    Answer(post, RowPayload(row, d), Attempts(Cell(row, "retry")))
  }

  /** The block-by-block downloads of a dict answer to a row. */
  ghost function RowTally(row: Row, d: SctDefaults, entries: seq<(string, Value)>, writable: string -> bool,
                          listing: string -> set<string>, clock: Clock, fetch: (string, string) -> FetchResult): Tally
  {
    PerBlockTally(entries, RowOutputs(row, d).0, RowBlockConfig(row, RowChoice(row, d)), RowCuit(row),
                  writable, listing, clock, fetch)
  }

  /** How many files a row's flags and blocks ask for. */
  function RowRequested(row: Row, d: SctDefaults): nat {
    VariantsRequested(RowOutputs(row, d).0, RowBlockConfig(row, RowChoice(row, d)))
  }

  /** The request of a row that asks for something, and its downloads. */
  method QueryRow(row: Row, d: SctDefaults, post: (seq<(string, Value)>, nat) -> Response,
                  writable: string -> bool, listing: string -> set<string>, clock: Clock,
                  fetch: (string, string) -> FetchResult)
    returns (r: SctRow)
    ensures var resp := RowAnswer(row, d, post);
      && r.Queried?
      && r.cuit == RowCuit(row)
      && r.httpStatus == resp.status
      && r.status == Field(resp.data, "status")
      && r.errorMessage == Field(resp.data, "error_message")
      && (!resp.data.Dict? ==> r.downloads == 0 && r.downloadErrors.None?)
      && (resp.data.Dict? ==>
            && r.downloads == RowTally(row, d, resp.data.entries, writable, listing, clock, fetch).downloads
            && r.downloadErrors == ErrorCell(RowTally(row, d, resp.data.entries, writable, listing, clock, fetch).errors))
      && (resp.data.Dict? ==> r.downloads <= RowRequested(row, d) && (r.downloadErrors.None? <==> r.downloads == RowRequested(row, d)))
  {
    var outputs := RowOutputs(row, d).0;
    var cuit := RowCuit(row);
    var config := RowBlockConfig(row, RowChoice(row, d));
    var resp := Query(post, RowPayload(row, d), Attempts(Cell(row, "retry")));
    var downloads: nat, errors: seq<string> := 0, [];
    if resp.data.Dict? {
      downloads, errors := ProcessDownloadsPerBlock(resp.data.entries, outputs, config, cuit, writable, listing, clock, fetch);
    }
    r := Queried(cuit, resp.status, Field(resp.data, "status"), Field(resp.data, "error_message"),
                 downloads, ErrorCell(errors));
  }

  /** `_process_row_sct`: `aborted` is the abort flag when the row starts,
      `post(payload, a)` the answer to attempt `a`. A row asking for nothing
      is reported without a request; otherwise the request is retried up to
      the row's count until an HTTP 200, and the files of a dict answer are
      downloaded block by block. */
  method ProcessRowSct(row: Row, d: SctDefaults, aborted: bool,
                       post: (seq<(string, Value)>, nat) -> Response,
                       writable: string -> bool, listing: string -> set<string>, clock: Clock,
                       fetch: (string, string) -> FetchResult)
    returns (r: Option<SctRow>)
    ensures aborted <==> r.None?
    ensures r.Some? ==> (r.value.NoOutput? <==> !AsksForOutput(row, d))
    ensures r.Some? && r.value.NoOutput? ==> r.value == NoOutput(RowCuit(row), NoOutputMessage)
    ensures r.Some? && r.value.Queried? ==>
      var resp := RowAnswer(row, d, post);
      && r.value.cuit == RowCuit(row)
      && r.value.httpStatus == resp.status
      && r.value.status == Field(resp.data, "status")
      && r.value.errorMessage == Field(resp.data, "error_message")
      && (!resp.data.Dict? ==> r.value.downloads == 0 && r.value.downloadErrors.None?)
      && (resp.data.Dict? ==>
            && r.value.downloads == RowTally(row, d, resp.data.entries, writable, listing, clock, fetch).downloads
            && r.value.downloadErrors == ErrorCell(RowTally(row, d, resp.data.entries, writable, listing, clock, fetch).errors))
      && (resp.data.Dict? ==>
            r.value.downloads <= RowRequested(row, d) && (r.value.downloadErrors.None? <==> r.value.downloads == RowRequested(row, d)))
  {
    if aborted {
      return None;
    }
    if !AsksForOutput(row, d) {
      return Some(NoOutput(RowCuit(row), NoOutputMessage));
    }
    var queried := QueryRow(row, d, post, writable, listing, clock, fetch);
    r := Some(queried);
  }
}
