/** The behaviour the service windows share through their mixins: the
    `procesar` row filter over a loaded spreadsheet and the download step
    that turns a response into saved files. */
module Mixins {
  import opened Prelude
  import opened Text
  import opened Json
  import opened Helpers
  import opened MinioHelpers
  import opened MinioLinks

  /** A loaded spreadsheet: its column names and its rows, in order. */
  datatype Frame = Frame(columns: set<string>, rows: seq<Row>)

  const ProcesarColumn := "procesar"

  /** The words that mark a row to be processed. */
  const AffirmativeWords: set<string> := {"si", "s\U{ED}", "yes", "y", "1"}

  /** The row test that looks at the `procesar` cell. */
  function ProcesarTest(keep: Value -> bool): Row -> bool {
    (row: Row) => keep(Cell(row, ProcesarColumn))
  }

  /** A frame's rows filtered on the `procesar` cell, when that column
      exists; a missing frame stays missing. */
  function FilterRows(df: Option<Frame>, keep: Value -> bool): (r: Option<Frame>)
    ensures r.None? <==> df.None?
    ensures df.Some? ==> r.value.columns == df.value.columns
    ensures df.Some? && ProcesarColumn !in df.value.columns ==> r == df
    ensures df.Some? ==> IsSubsequence(r.value.rows, df.value.rows)
    ensures df.Some? && ProcesarColumn in df.value.columns ==>
      (forall row :: row in r.value.rows <==> row in df.value.rows && keep(Cell(row, ProcesarColumn)))
      && |r.value.rows| == Count(df.value.rows, ProcesarTest(keep))
  {
    if df.None? then None
    else if ProcesarColumn !in df.value.columns then
      SubsequenceRefl(df.value.rows);
      df
    else
      var p := ProcesarTest(keep);
      FilterIsSubsequence(df.value.rows, p);
      FilterLength(df.value.rows, p);
      Some(Frame(df.value.columns, Filter(df.value.rows, p)))
  }

  /** The mixin's test: the cell as text (`astype(str)`), stripped and
      lower-cased, is an affirmative word. */
  predicate Affirmative(v: Value) {
    Lower(Strip(Display(v))) in AffirmativeWords
  }

  /** `ExcelHandlerMixin._filter_procesar`. */
  function FilterProcesar(df: Option<Frame>): (r: Option<Frame>)
    ensures r.None? <==> df.None?
    ensures df.Some? && ProcesarColumn !in df.value.columns ==> r == df
    ensures df.Some? ==> IsSubsequence(r.value.rows, df.value.rows)
    ensures df.Some? ==> r.value.columns == df.value.columns
    ensures df.Some? && ProcesarColumn in df.value.columns ==>
      (forall row :: row in r.value.rows <==> row in df.value.rows && Affirmative(Cell(row, ProcesarColumn)))
      && |r.value.rows| == Count(df.value.rows, ProcesarTest(Affirmative))
  {
    FilterRows(df, Affirmative)
  }

  /** The test the windows that filter on their own use: the cell is text
      whose lower case, unstripped, is one of `words`; any other cell is
      dropped (pandas' `.str.lower()` gives NaN for it). */
  function LowerTest(words: set<string>): Value -> bool {
    (v: Value) => v.Str? && Lower(v.s) in words
  }

  /** Blanks around the word and capital letters do not matter to the
      mixin's test. */
  lemma AffirmativeSpelling(word: string, pad: string)
    requires word in AffirmativeWords
    requires forall i :: 0 <= i < |pad| ==> IsSpace(pad[i])
    ensures Affirmative(Str(pad + word + pad))
  {
    AffirmativeLower(word);
    StripPadded(pad, word);
  }

  lemma AffirmativeLower(word: string)
    requires word in AffirmativeWords
    ensures |word| > 0 && !IsSpace(word[0]) && !IsSpace(word[|word| - 1])
    ensures Lower(word) == word
  {
    assert word == "si" || word == "s\U{ED}" || word == "yes" || word == "y" || word == "1";
    LowerNoUpper(word);
  }

  lemma StripPadded(pad: string, word: string)
    requires forall i :: 0 <= i < |pad| ==> IsSpace(pad[i])
    requires |word| > 0 && !IsSpace(word[0]) && !IsSpace(word[|word| - 1])
    ensures Strip(pad + word + pad) == word
  {
    var t := pad + word + pad;
    var l := TrimLeft(t, IsSpace);
    assert |l| == |word| + |pad| by {
      assert forall i :: 0 <= i < |pad| ==> t[i] == pad[i];
      assert t[|pad|] == word[0];
    }
    assert l == word + pad;
    var m := TrimRight(l, IsSpace);
    assert |m| == |word| by {
      assert forall i :: |word| <= i < |l| ==> l[i] == pad[i - |word|];
      assert l[|word| - 1] == word[|word| - 1];
    }
    assert m == word;
  }

  // ---------------------------------------------------------------------
  // DownloadHandlerMixin._process_downloads

  /** The links of a response: the window's own extractor when it has one,
      else the generic walker under the service key. */
  function LinksFor(data: Value, extractor: Option<Value -> seq<Link>>, serviceKey: string): (r: seq<Link>)
    ensures extractor.None? ==> WellFormed(r)
  {
    if extractor.Some? then extractor.value(data) else CollectMinioLinks(data, serviceKey)
  }

  /** `override_dir or <window path>`. */
  function TargetDir(overrideDir: string, windowDir: string): (r: string)
    ensures |overrideDir| > 0 ==> r == overrideDir
    ensures |overrideDir| == 0 ==> r == windowDir
  {
    if |overrideDir| > 0 then overrideDir else windowDir
  }

  /** The download cells of a result row for the links of an answer: all
      empty without links; the no-folder message when no folder could be
      prepared; otherwise the saved count and the error lines of the run into
      that folder. */
  ghost predicate DownloadCells(links: seq<Link>, folder: Option<string>, downloads: nat, errorCell: Option<string>,
                                listing: string -> set<string>, clock: Clock, fetch: (string, string) -> FetchResult) {
    && (|links| == 0 ==> downloads == 0 && errorCell.None? && folder.None?)
    && (|links| > 0 && folder.None? ==> downloads == 0 && errorCell == Some(NoDirMessage))
    && (|links| > 0 && folder.Some? ==>
          && downloads == RunSaved(links, folder.value, listing(folder.value), clock, fetch)
          && errorCell == ErrorCell(RunErrors(links, folder.value, listing(folder.value), clock, fetch)))
  }

  /** `_process_downloads`: no links means nothing to do and no folder;
      otherwise the folder is resolved (the override first) and every link is
      downloaded into it, with the count and error lines of that run.
      `listing(d)` is the set of names in folder `d`. */
  method ProcessDownloads(data: Value, extractor: Option<Value -> seq<Link>>, serviceKey: string,
                          moduleName: string, cuitRepr: string, overrideDir: string, windowDir: string,
                          writable: string -> bool, listing: string -> set<string>, clock: Clock,
                          fetch: (string, string) -> FetchResult)
    returns (downloads: nat, errors: seq<string>, dir: Option<string>)
    ensures var links := LinksFor(data, extractor, serviceKey);
      && (|links| == 0 ==> downloads == 0 && errors == [] && dir == None)
      && (|links| > 0 ==> dir == PrepareDownloadDir(moduleName, TargetDir(overrideDir, windowDir), cuitRepr, writable).dir)
      && (|links| > 0 && dir.None? ==> downloads == 0 && errors == [NoDirMessage])
      && (|links| > 0 && dir.Some? ==> downloads + |errors| == |links|)
      && (|links| > 0 && dir.Some? ==> downloads == RunSaved(links, dir.value, listing(dir.value), clock, fetch))
      && (|links| > 0 && dir.Some? ==> errors == RunErrors(links, dir.value, listing(dir.value), clock, fetch))
    ensures DownloadCells(LinksFor(data, extractor, serviceKey), dir, downloads, ErrorCell(errors), listing, clock, fetch)
    ensures |overrideDir| > 0 && IsWritableDir(Strip(overrideDir), writable) && |LinksFor(data, extractor, serviceKey)| > 0
      ==> dir == Some(Strip(overrideDir))
  {
    var links := LinksFor(data, extractor, serviceKey);
    if |links| == 0 {
      return 0, [], None;
    }
    var choice := PrepareDownloadDir(moduleName, TargetDir(overrideDir, windowDir), cuitRepr, writable);
    dir := choice.dir;
    var destDir := if dir.Some? then dir.value else "";
    var report;
    downloads, errors, report := DownloadLinks(links, destDir, listing(destDir), clock, fetch);
  }
}
