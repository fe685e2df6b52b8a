/** The social-security contributions window (`aportes_en_linea`): its own
    `procesar` filter, the historical-file link of an answer, the download
    step and what one spreadsheet row turns into. */
module AportesEnLinea {
  import opened Prelude
  import opened Text
  import opened Json
  import opened Batch
  import opened Helpers
  import opened MinioHelpers
  import opened MinioLinks
  import opened ServiceLinks
  import opened Mixins

  const ModuleDir := "Aportes_en_Linea"
  const LinkPrefix := "aportes"
  const HistoricoKey := "archivo_historico_minio_url"
  const HistoricoHint := "aportes_historico"

  // ---------------------------------------------------------------------
  // _filter_procesar

  /** The words the window lists. The second is the UTF-8 encoding of
      "sí" read back as Latin-1: `s`, `Ã`, soft hyphen. */
  const ListedWords: set<string> := {"si", "s\U{C3}\U{AD}", "yes", "y", "1"}

  /** `_filter_procesar` as the window writes it: the text cell, lower-cased
      and not stripped, is one of the listed words. */
  function FilterProcesar(df: Option<Frame>): (r: Option<Frame>)
    ensures r.None? <==> df.None?
    ensures df.Some? ==> r.value.columns == df.value.columns
    ensures df.Some? && ProcesarColumn !in df.value.columns ==> r == df
    ensures df.Some? ==> IsSubsequence(r.value.rows, df.value.rows)
    ensures df.Some? && ProcesarColumn in df.value.columns ==>
      (forall row :: row in r.value.rows <==>
         row in df.value.rows && Cell(row, ProcesarColumn).Str? && Lower(Cell(row, ProcesarColumn).s) in ListedWords)
      && |r.value.rows| == Count(df.value.rows, ProcesarTest(LowerTest(ListedWords)))
  {
    FilterRows(df, LowerTest(ListedWords))
  }

  /** Lower-casing never produces a capital `Ã`. */
  lemma LowerCharNotCapital(c: char)
    ensures LowerChar(c) != '\U{C3}'
  {
  }

  /** The garbled word can never match a lower-cased cell, so the window
      in fact accepts exactly si, yes, y and 1; a written "sí" is dropped. */
  lemma ListedGarbledUnreachable(s: string)
    ensures Lower(s) != "s\U{C3}\U{AD}"
    ensures Lower(s) in ListedWords <==> Lower(s) in {"si", "yes", "y", "1"}
  {
    if |s| == 3 {
      LowerCharNotCapital(s[1]);
      assert Lower(s)[1] != "s\U{C3}\U{AD}"[1];
    }
  }

  /** A cell reading "sí" is not processed by this window. */
  lemma AccentedSiRejected()
    ensures !LowerTest(ListedWords)(Str("s\U{ED}"))
  {
    var w := Lower("s\U{ED}");
    assert |w| == 2 && w[1] == '\U{ED}';
    assert w != "si" && w != "yes" && w != "y" && w != "1";
    ListedGarbledUnreachable("s\U{ED}");
  }

  /** The filter with the word the window evidently means, "sí": the same
      test as the declarations window and the mixin's word list. */
  function FilterProcesarIntended(df: Option<Frame>): (r: Option<Frame>)
    ensures r.None? <==> df.None?
    ensures df.Some? && ProcesarColumn !in df.value.columns ==> r == df
    ensures df.Some? && ProcesarColumn in df.value.columns ==>
      (forall row :: row in r.value.rows <==>
         row in df.value.rows && Cell(row, ProcesarColumn).Str? && Lower(Cell(row, ProcesarColumn).s) in AffirmativeWords)
      && |r.value.rows| == Count(df.value.rows, ProcesarTest(LowerTest(AffirmativeWords)))
  {
    FilterRows(df, LowerTest(AffirmativeWords))
  }

  /** The intended filter keeps a row marked "sí" (or "SÍ"), which the
      written one drops. */
  lemma IntendedAcceptsAccentedSi()
    ensures LowerTest(AffirmativeWords)(Str("s\U{ED}"))
    ensures LowerTest(AffirmativeWords)(Str("S\U{CD}"))
    ensures !LowerTest(ListedWords)(Str("S\U{CD}"))
  {
    assert Lower("s\U{ED}") == "s\U{ED}" by {
      assert LowerChar('s') == 's' && LowerChar('\U{ED}') == '\U{ED}';
    }
    assert Lower("S\U{CD}") == "s\U{ED}" by {
      assert LowerChar('S') == 's' && LowerChar('\U{CD}') == '\U{ED}';
    }
    AccentedSiRejected();
  }

  // ---------------------------------------------------------------------
  // _extract_links

  /** The historical file the answer names, if its URL is an http one. */
  function HistoricoLinks(data: Value): (r: seq<Link>)
    ensures WellFormed(r) && |r| <= 1
    ensures |r| == 1 <==> BuildLink(Field(data, HistoricoKey), Some(HistoricoHint), LinkPrefix, 1).Some?
    ensures |r| == 1 ==> r[0] == BuildLink(Field(data, HistoricoKey), Some(HistoricoHint), LinkPrefix, 1).value
  {
    SingleLink(Field(data, HistoricoKey), Some(HistoricoHint), LinkPrefix)
  }

  /** `_extract_links(data)`: the historical file, named `aportes_historico`
      when its URL names none; else whatever the generic walker finds under
      the `aportes` prefix. */
  function ExtractLinks(data: Value): (r: seq<Link>)
    ensures WellFormed(r)
    ensures |HistoricoLinks(data)| == 1 ==> r == HistoricoLinks(data)
    ensures |HistoricoLinks(data)| == 0 ==> r == CollectMinioLinks(data, LinkPrefix)
  {
    WithFallback(HistoricoLinks(data), data, LinkPrefix)
  }

  /** An answer whose historical URL is `https://<host>/<dir>/<name>?<query>`
      gives exactly that one file, under its own name. */
  lemma ExtractLinksOfHistorico(data: Value, host: string, dir: string, name: string, query: string)
    requires PlainHost(host) && PlainSegment(dir) && PlainName(name) && PlainQuery(query)
    requires Field(data, HistoricoKey) == Str(HttpsUrl(host, dir, name, query))
    ensures ExtractLinks(data) == [Link(HttpsUrl(host, dir, name, query), name)]
  {
    BuildLinkFileName(host, dir, name, query, Some(HistoricoHint), LinkPrefix, 1);
  }

  /** An answer that is not a dict has no historical file. */
  lemma ExtractLinksOfNonDict(data: Value)
    requires !data.Dict?
    ensures ExtractLinks(data) == CollectMinioLinks(data, LinkPrefix)
  {
    assert Field(data, HistoricoKey) == Null;
  }

  // ---------------------------------------------------------------------
  // _download_from_data

  /** `_download_from_data(data, desired, cuit_repr)`: no links means
      nothing to do and no folder resolved; otherwise the folder is resolved
      and every link downloaded into it, with the count and error lines of
      that run. */
  method DownloadFromData(data: Value, desired: string, cuitRepr: string,
                          writable: string -> bool, listing: string -> set<string>, clock: Clock,
                          fetch: (string, string) -> FetchResult)
    returns (downloads: nat, errors: seq<string>, dir: Option<string>)
    ensures |ExtractLinks(data)| == 0 ==> downloads == 0 && errors == [] && dir == None
    ensures |ExtractLinks(data)| > 0 ==> dir == PrepareDownloadDir(ModuleDir, desired, cuitRepr, writable).dir
    ensures |ExtractLinks(data)| > 0 && dir.None? ==> downloads == 0 && errors == [NoDirMessage]
    ensures |ExtractLinks(data)| > 0 && dir.Some? ==> downloads + |errors| == |ExtractLinks(data)|
    ensures DownloadCells(ExtractLinks(data), dir, downloads, ErrorCell(errors), listing, clock, fetch)
  {
    var links := ExtractLinks(data);
    if |links| == 0 {
      return 0, [], None;
    }
    dir := PrepareDownloadDir(ModuleDir, desired, cuitRepr, writable).dir;
    var destDir := if dir.Some? then dir.value else "";
    assert dir.Some? ==> |destDir| > 0;
    var report;
    downloads, errors, report := DownloadLinks(links, destDir, listing(destDir), clock, fetch);
  }

  // ---------------------------------------------------------------------
  // procesar_excel, one row

  /** The request body: the fields in the order the window writes them. */
  function PayloadEntries(login: string, clave: string, represented: Value): (r: seq<(string, Value)>)
    ensures |r| == 6
    ensures Keys(r) == ["cuit_login", "clave", "cuit_representado", "archivo_historico_b64", "archivo_historico_minio", "proxy_request"]
  {
    [("cuit_login", Str(login)),
     ("clave", Str(clave)),
     ("cuit_representado", represented),
     ("archivo_historico_b64", Bool(false)),
     ("archivo_historico_minio", Bool(true)),
     ("proxy_request", Bool(false))]
  }

  /** The request asks for the historical file in storage, not inline, and
      never for a proxy; the represented CUIT is sent as given. */
  lemma PayloadFlags(login: string, clave: string, represented: Value)
    ensures Get(PayloadEntries(login, clave, represented), "cuit_representado") == Some(represented)
    ensures Get(PayloadEntries(login, clave, represented), "archivo_historico_b64") == Some(Bool(false))
    ensures Get(PayloadEntries(login, clave, represented), "archivo_historico_minio") == Some(Bool(true))
    ensures Get(PayloadEntries(login, clave, represented), "proxy_request") == Some(Bool(false))
  {
    var r := PayloadEntries(login, clave, represented);
    GetAt(r, 2);
    GetAt(r, 3);
    GetAt(r, 4);
    GetAt(r, 5);
  }

  /** The row's stripped login CUIT. */
  function RowLogin(row: Row): string {
    Strip(RowText(row, "cuit_login"))
  }

  /** `_optional_value(str(row.get("cuit_representado", "")))`. */
  function RowRepresented(row: Row): Option<string> {
    OptionalValue(RowText(row, "cuit_representado"))
  }

  /** The request body of a row. */
  function AportesPayload(row: Row): seq<(string, Value)> {
    PayloadEntries(RowLogin(row), RowText(row, "clave"), OptionalJson(RowRepresented(row)))
  }

  /** `cuit_repr or cuit_login`: the folder CUIT, which may be empty. */
  function CuitFolder(row: Row): (r: string)
    ensures RowRepresented(row).Some? ==> r == RowRepresented(row).value && |r| > 0
    ensures RowRepresented(row).None? ==> r == RowLogin(row)
  {
    RowRepresented(row).GetOr(RowLogin(row))
  }

  /** A row of the results table. */
  datatype AportesRow = AportesRow(cuit: string, httpStatus: Option<int>, status: Value, errorMessage: Value,
                                   downloads: nat, downloadErrors: Option<string>, folder: Option<string>)

  /** One row of `procesar_excel`: `post(payload)` is the single answer, no
      retry and no abort. The answer's files go under the row's folder (or
      the window's) and the row's CUIT; the answer's `status` and
      `error_message` are reported when it is a dict. */
  method ProcessRowAportes(row: Row, post: seq<(string, Value)> -> Response, windowDir: string,
                           writable: string -> bool, listing: string -> set<string>, clock: Clock,
                           fetch: (string, string) -> FetchResult)
    returns (r: AportesRow)
    ensures var resp := post(AportesPayload(row));
      var links := ExtractLinks(resp.data);
      && r.cuit == CuitFolder(row)
      && r.httpStatus == resp.status
      && r.status == Field(resp.data, "status")
      && r.errorMessage == Field(resp.data, "error_message")
      && (!resp.data.Dict? ==> r.status == Null && r.errorMessage == Null)
      && (|links| > 0 ==>
            r.folder == PrepareDownloadDir(ModuleDir, TargetDir(RowDownload(row), windowDir), CuitFolder(row), writable).dir)
      && DownloadCells(links, r.folder, r.downloads, r.downloadErrors, listing, clock, fetch)
  {
    var resp := post(AportesPayload(row));
    var folder := CuitFolder(row);
    var downloads, errors, dir := DownloadFromData(resp.data, TargetDir(RowDownload(row), windowDir), folder,
                                                   writable, listing, clock, fetch);
    r := AportesRow(folder, resp.status, Field(resp.data, "status"), Field(resp.data, "error_message"),
                    downloads, ErrorCell(errors), dir);
  }
}
