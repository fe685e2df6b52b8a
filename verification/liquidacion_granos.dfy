/** The grain-settlement window (`liquidacion_granos`): where it finds the
    answer's vouchers and what one spreadsheet row turns into. */
module LiquidacionGranos {
  import opened Prelude
  import opened Text
  import opened Json
  import opened Helpers
  import opened Batch
  import opened MinioHelpers
  import opened MinioLinks
  import opened ServiceLinks
  import opened Mixins

  const ModuleDir := "Liquidacion_Granos"
  const LinkPrefix := "liquidacion_granos"
  const ListKey := "comprobantes"

  // ---------------------------------------------------------------------
  // _optional_value

  /** `_optional_value(value)`: the stripped text of `value or ""`, or None
      when it is blank. */
  function OptionalCell(v: Value): (r: Option<string>)
    ensures !Truthy(v) ==> r.None?
    ensures v.Str? ==> r == OptionalValue(v.s)
    ensures r.Some? ==> |r.value| > 0 && r.value == Strip(Display(v))
  {
    OptionalValue(Display(Or(v, Str(""))))
  }

  // ---------------------------------------------------------------------
  // _extract_links

  /** `item.get("archivo") or item.get("tipo") or item.get("consulta")`. */
  function NameValue(item: Value): (r: Value)
    ensures Truthy(Field(item, "archivo")) ==> r == Field(item, "archivo")
    ensures !Truthy(Field(item, "archivo")) && Truthy(Field(item, "tipo")) ==> r == Field(item, "tipo")
    ensures !Truthy(Field(item, "archivo")) && !Truthy(Field(item, "tipo")) ==> r == Field(item, "consulta")
  {
    Or(Or(Field(item, "archivo"), Field(item, "tipo")), Field(item, "consulta"))
  }

  /** The one value an item offers: its `url_minio`, named by its first
      non-empty name field. */
  function GranosOffers(item: Value): (r: seq<Offer>)
    ensures r == [(Field(item, "url_minio"), TextHint(NameValue(item)))]
  {
    [(Field(item, "url_minio"), TextHint(NameValue(item)))]
  }

  /** A voucher on which `build_link` raises: a dict whose URL names no file
      while its name hint is truthy but not text. */
  predicate VoucherRaises(item: Value) {
    item.Dict? && HintRaises(Field(item, "url_minio"), NameValue(item))
  }

  /** `_extract_links` raises on the answer: some voucher under
      `comprobantes` makes `build_link` raise, whatever came before it. */
  predicate ExtractRaises(data: Value) {
    var list := Field(data, ListKey);
    list.List? && exists i :: 0 <= i < |list.items| && VoucherRaises(list.items[i])
  }

  /** The links `_extract_links` returns when it does not raise. */
  function FoundLinks(data: Value): (r: seq<Link>)
    ensures WellFormed(r)
  {
    BuilderGood(LinkPrefix);
    ExtractedWellFormed(data, ListKey, GranosOffers, Builder(LinkPrefix), LinkPrefix);
    Extracted(data, ListKey, GranosOffers, Builder(LinkPrefix), LinkPrefix)
  }

  /** `_extract_links(data)`: None when some voucher makes `build_link`
      raise; otherwise the vouchers under `comprobantes`, each
      `(url, filename)` pair once, else whatever the generic walker finds. */
  function ExtractLinks(data: Value): (r: Option<seq<Link>>)
    ensures r.None? <==> ExtractRaises(data)
    ensures r.Some? ==> WellFormed(r.value)
    ensures r.Some? && |ListedLinks(data, ListKey, GranosOffers, Builder(LinkPrefix))| > 0 ==>
      r.value == ListedLinks(data, ListKey, GranosOffers, Builder(LinkPrefix))
    ensures r.Some? && |ListedLinks(data, ListKey, GranosOffers, Builder(LinkPrefix))| == 0 ==>
      r.value == CollectMinioLinks(data, LinkPrefix)
  {
    if ExtractRaises(data) then None else Some(FoundLinks(data))
  }

  /** A voucher at position `index` yields `l`: it is a dict whose
      `url_minio` builds `l` without raising, the first non-empty of
      `archivo`, `tipo` and `consulta` naming the file when the URL names
      none. */
  predicate VoucherLink(item: Value, index: int, l: Link) {
    item.Dict? && !VoucherRaises(item) && BuildLink(Field(item, "url_minio"), TextHint(NameValue(item)), LinkPrefix, index) == Some(l)
  }

  /** An item yields a link exactly as `VoucherLink` says, unless building
      it raises, and then it yields none. */
  lemma GranosItemLink(item: Value, index: int, l: Link)
    ensures VoucherLink(item, index, l) <==>
      !VoucherRaises(item) && Some(l) in ItemLinks(item, index, GranosOffers, Builder(LinkPrefix))
    ensures VoucherRaises(item) ==> !VoucherLink(item, index, l)
  {
    if item.Dict? {
      assert ItemLinks(item, index, GranosOffers, Builder(LinkPrefix)) == [Builder(LinkPrefix)(GranosOffers(item)[0], index)];
    }
  }

  /** A link found in an answer some voucher yields links for comes from a
      voucher. */
  lemma ExtractLinkSound(data: Value, l: Link) returns (i: nat)
    requires |ListedLinks(data, ListKey, GranosOffers, Builder(LinkPrefix))| > 0
    requires ExtractLinks(data).Some? && l in ExtractLinks(data).value
    ensures Field(data, ListKey).List?
    ensures i < |Field(data, ListKey).items| && VoucherLink(Field(data, ListKey).items[i], i + 1, l)
  {
    i := ListedLinkSound(data, ListKey, GranosOffers, Builder(LinkPrefix), l);
    var items := Field(data, ListKey).items;
    OffersAt(GranosOffers, Builder(LinkPrefix), items[i], i + 1);
    GranosItemLink(items[i], i + 1, l);
  }

  /** Every voucher's link is among the answer's links, unless some
      voucher makes the extractor raise. */
  lemma ExtractLinkComplete(data: Value, l: Link, i: nat)
    requires Field(data, ListKey).List?
    requires i < |Field(data, ListKey).items| && VoucherLink(Field(data, ListKey).items[i], i + 1, l)
    ensures ExtractLinks(data).None? || l in ExtractLinks(data).value
  {
    GranosItemLink(Field(data, ListKey).items[i], i + 1, l);
    ListedLinkComplete(data, ListKey, GranosOffers, Builder(LinkPrefix), l, i);
  }

  /** One voucher whose URL names no file, with a non-zero number as its
      `archivo`, makes the whole extractor raise, whatever the others
      offer. */
  lemma NumberNameRaises(data: Value, i: nat, n: int)
    requires Field(data, ListKey).List? && i < |Field(data, ListKey).items|
    requires var item := Field(data, ListKey).items[i];
      item.Dict? && ReadsHint(Field(item, "url_minio")) && Field(item, "archivo") == Int(n) && n != 0
    ensures ExtractLinks(data).None?
  {
    var item := Field(data, ListKey).items[i];
    assert NameValue(item) == Int(n);
    assert VoucherRaises(Field(data, ListKey).items[i]);
  }

  // ---------------------------------------------------------------------
  // _process_row_granos

  /** The row's stripped login CUIT. */
  function RowLogin(row: Row): string {
    Strip(RowText(row, "cuit_representante"))
  }

  /** The represented CUIT: the first non-empty of its two columns, as an
      optional value. */
  function RowRepresented(row: Row): Option<string> {
    OptionalCell(Or(Cell(row, "cuit_representado"), Cell(row, "representado_cuit")))
  }

  /** `row.get(column, "")`. */
  function CellOrEmpty(row: Row, column: string): Value {
    if column in row then row[column] else Str("")
  }

  /** `format_date_str(row.get(column, "")) or default`, where `formatDate`
      is the shared date formatter. */
  function RowDate(row: Row, column: string, default: string, formatDate: Value -> string): (r: string)
    ensures |formatDate(CellOrEmpty(row, column))| > 0 ==> r == formatDate(CellOrEmpty(row, column))
    ensures |formatDate(CellOrEmpty(row, column))| == 0 ==> r == default
  {
    var d := formatDate(CellOrEmpty(row, column));
    if |d| > 0 then d else default
  }

  /** The fields every request carries, in the order the window writes
      them. */
  function BaseEntries(desde: string, hasta: string, login: string, clave: string, name: string, represented: Value)
    : (r: seq<(string, Value)>)
    ensures |r| == 7
    ensures Keys(r) == ["desde", "hasta", "cuit_representante", "clave", "denominacion", "cuit_representado", "minio_upload"]
  {
    [("desde", Str(desde)),
     ("hasta", Str(hasta)),
     ("cuit_representante", Str(login)),
     ("clave", Str(clave)),
     ("denominacion", Str(name)),
     ("cuit_representado", represented),
     ("minio_upload", Bool(true))]
  }

  /** The base fields, then `proxy_request` when there is a reading for
      it. */
  function WithProxy(base: seq<(string, Value)>, proxy: Option<bool>): seq<(string, Value)> {
    base + (if proxy.Some? then [("proxy_request", Bool(proxy.value))] else [])
  }

  /** The proxy field is there exactly when there is a reading, and the
      password is the one given. */
  lemma WithProxyFields(desde: string, hasta: string, login: string, clave: string, name: string, represented: Value,
                        proxy: Option<bool>)
    ensures var p := WithProxy(BaseEntries(desde, hasta, login, clave, name, represented), proxy);
      && Get(p, "proxy_request") == (if proxy.Some? then Some(Bool(proxy.value)) else None)
      && Get(p, SecretKey) == Some(Str(clave))
  {
    var base := BaseEntries(desde, hasta, login, clave, name, represented);
    var extra: seq<(string, Value)> := if proxy.Some? then [("proxy_request", Bool(proxy.value))] else [];
    GetAppend(base, extra, "proxy_request");
    GetAppend(base, extra, SecretKey);
    assert Get(base, "proxy_request").None? by {
      assert forall j :: 0 <= j < |base| ==> base[j].0 == Keys(base)[j];
    }
    GetAt(base, 3);
    if proxy.Some? {
      GetAt(extra, 0);
    }
  }

  /** `parse_bool_cell(row.get("proxy_request"), default)` when the row has
      that column, and no reading otherwise. */
  function RowProxy(row: Row, defaultProxy: bool): (r: Option<bool>)
    ensures r.Some? <==> "proxy_request" in row
    ensures r.Some? ==> r.value == ParseBoolCell(row["proxy_request"], defaultProxy)
  {
    if "proxy_request" in row then Some(ParseBoolCell(row["proxy_request"], defaultProxy)) else None
  }

  /** The request body of a row. */
  function GranosPayload(row: Row, defaultDesde: string, defaultHasta: string, defaultProxy: bool,
                         formatDate: Value -> string): seq<(string, Value)>
  {
    WithProxy(BaseEntries(RowDate(row, "desde", defaultDesde, formatDate), RowDate(row, "hasta", defaultHasta, formatDate),
                          RowLogin(row), RowText(row, "clave"), Strip(RowText(row, "denominacion")), OptionalJson(RowRepresented(row))),
              RowProxy(row, defaultProxy))
  }

  /** The request asks about a proxy exactly when the row has the column,
      and then with the cell's reading; the password always travels and is
      masked in the logged copy. */
  lemma PayloadProxy(row: Row, defaultDesde: string, defaultHasta: string, defaultProxy: bool, formatDate: Value -> string)
    ensures var p := GranosPayload(row, defaultDesde, defaultHasta, defaultProxy, formatDate);
      && (Get(p, "proxy_request").Some? <==> "proxy_request" in row)
      && ("proxy_request" in row ==> Get(p, "proxy_request") == Some(Bool(ParseBoolCell(row["proxy_request"], defaultProxy))))
      && Get(p, SecretKey) == Some(Str(RowText(row, "clave")))
      && Get(Redact(p), SecretKey) == Some(Str(Mask))
  {
    WithProxyFields(RowDate(row, "desde", defaultDesde, formatDate), RowDate(row, "hasta", defaultHasta, formatDate),
                    RowLogin(row), RowText(row, "clave"), Strip(RowText(row, "denominacion")), OptionalJson(RowRepresented(row)),
                    RowProxy(row, defaultProxy));
  }

  /** A row of the results table. */
  datatype GranosRow = GranosRow(cuit: string, httpStatus: Option<int>, success: Value, message: Value,
                                 downloads: nat, downloadErrors: Option<string>, folder: Option<string>)

  /** The answer the attempt loop keeps for a row. */
  function RowAnswer(row: Row, defaultDesde: string, defaultHasta: string, defaultProxy: bool,
                     formatDate: Value -> string, post: (seq<(string, Value)>, nat) -> Response): Response
  {
    Answer(post, GranosPayload(row, defaultDesde, defaultHasta, defaultProxy, formatDate), Attempts(Cell(row, "retry")))
  }

  /** `_process_row_granos`: `aborted` is the abort flag when the row
      starts, `post(payload, a)` the answer to attempt `a`. The request is
      retried up to the row's count until an HTTP 200 and the answer's files
      are saved under the row's folder (or the window's) and CUIT. When
      `build_link` raises on the answer the row ends without a result: the
      batch's `except Exception: pass` drops it just as it drops None. */
  method ProcessRowGranos(row: Row, aborted: bool, defaultDesde: string, defaultHasta: string, defaultProxy: bool,
                          formatDate: Value -> string, post: (seq<(string, Value)>, nat) -> Response,
                          windowDir: string, writable: string -> bool, listing: string -> set<string>, clock: Clock,
                          fetch: (string, string) -> FetchResult)
    returns (r: Option<GranosRow>)
    ensures r.None? <==> aborted || ExtractRaises(RowAnswer(row, defaultDesde, defaultHasta, defaultProxy, formatDate, post).data)
    ensures r.Some? ==>
      var resp := RowAnswer(row, defaultDesde, defaultHasta, defaultProxy, formatDate, post);
      var links := ExtractLinks(resp.data).value;
      && r.value.cuit == FolderCuit(RowRepresented(row), RowLogin(row))
      && r.value.httpStatus == resp.status
      && r.value.success == Field(resp.data, "success")
      && r.value.message == Field(resp.data, "message")
      && (|links| > 0 ==>
            r.value.folder == PrepareDownloadDir(ModuleDir, TargetDir(RowDownload(row), windowDir), FolderCuit(RowRepresented(row), RowLogin(row)), writable).dir)
      && DownloadCells(links, r.value.folder, r.value.downloads, r.value.downloadErrors, listing, clock, fetch)
  {
    if aborted {
      return None;
    }
    var resp := Query(post, GranosPayload(row, defaultDesde, defaultHasta, defaultProxy, formatDate), Attempts(Cell(row, "retry")));
    if ExtractLinks(resp.data).None? {
      return None;
    }
    assert LinksFor(resp.data, Some(FoundLinks), LinkPrefix) == ExtractLinks(resp.data).value;
    var folder := FolderCuit(RowRepresented(row), RowLogin(row));
    var downloads, errors, dir := ProcessDownloads(resp.data, Some(FoundLinks), LinkPrefix, ModuleDir, folder,
                                                   RowDownload(row), windowDir, writable, listing, clock, fetch);
    r := Some(GranosRow(folder, resp.status, Field(resp.data, "success"), Field(resp.data, "message"),
                        downloads, ErrorCell(errors), dir));
  }
}
