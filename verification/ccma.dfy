/** The CCMA window (`mrbot_app/windows/ccma.py`): one account-statement
    query per spreadsheet row, with optional movements and an optional PDF.
    The row reads its flags, posts with retries, names its folder after the
    best CUIT it knows, downloads the PDF, keeps the answer as JSON and turns
    it into a result row and movement rows. */
module Ccma {
  import opened Prelude
  import opened Text
  import opened Json
  import opened Urls
  import opened Helpers
  import opened MinioHelpers
  import opened MinioLinks
  import opened ServiceLinks
  import opened Mixins
  import opened Batch

  const ModuleDir := "CCMA"
  const LinkPrefix := "ccma"
  const UnknownLabel := "desconocido"

  // ---------------------------------------------------------------------
  // _sanitize_filename_part

  /** `_sanitize_filename_part(value)`: the shared identifier sanitiser with
      `desconocido` as the fallback. */
  function SanitizeFilenamePart(value: string): (r: string)
    ensures HasIdentContent(value) ==> IsCleanIdentifier(r)
    ensures !HasIdentContent(value) ==> r == UnknownLabel
  {
    SanitizeIdentifier(value, UnknownLabel)
  }

  /** A sanitised part is its own sanitised form. */
  lemma SanitizeFilenamePartIdempotent(value: string)
    ensures SanitizeFilenamePart(SanitizeFilenamePart(value)) == SanitizeFilenamePart(value)
  {
    assert forall i :: 0 <= i < |UnknownLabel| ==> IsAsciiLetter(UnknownLabel[i]);
    SanitizeIdempotent(value, UnknownLabel);
  }

  // ---------------------------------------------------------------------
  // _parse_optional_bool

  /** The tail of `_parse_optional_bool` on a stripped text: blank is unset,
      the true and false words (in any case) give their meaning, anything
      else is unset. */
  function OptionalWord(text: string): (r: Option<bool>)
    ensures r == Some(true) <==> Lower(text) in TrueWords
    ensures r == Some(false) <==> Lower(text) in FalseWords
  {
    if |text| == 0 then None
    else if Lower(text) in TrueWords then Some(true)
    else if Lower(text) in FalseWords then Some(false)
    else None
  }

  /** `_parse_optional_bool`: a three-way reading of a cell. None and NaN are
      unset; booleans pass through; numbers give their truthiness; text is
      stripped and lower-cased, the true and false words give their meaning
      and anything else (blank included) is unset. */
  function ParseOptionalBool(v: Value): (r: Option<bool>)
    ensures v.Null? || v.NaN? ==> r.None?
    ensures v.Bool? ==> r == Some(v.b)
    ensures v.Int? ==> r == Some(v.i != 0)
    ensures v.Float? ==> r == Some(v.r != 0.0)
    ensures v.Str? || v.List? || v.Dict? ==> (r == Some(true) <==> CellWord(v) in TrueWords)
    ensures v.Str? || v.List? || v.Dict? ==> (r == Some(false) <==> CellWord(v) in FalseWords)
  {
    match v
    case Null => None
    case NaN => None
    case Bool(b) => Some(b)
    case Int(i) => Some(i != 0)
    case Float(x) => Some(x != 0.0)
    case _ => OptionalWord(Strip(Display(v)))
  }

  /** Apart from NaN, `parse_bool_cell` is this reading with the default
      filling the unset case. */
  lemma ParseBoolCellFills(v: Value, default: bool)
    requires !v.NaN?
    ensures ParseBoolCell(v, default) == ParseOptionalBool(v).GetOr(default)
  {
  }

  /** A cell is unset exactly when it is NaN or `parse_bool_cell` would
      answer with its default. */
  lemma ParseOptionalBoolUnset(v: Value)
    ensures ParseOptionalBool(v).None? <==> v.NaN? || Unrecognised(v)
  {
    ParseBoolCellDefault(v);
  }

  /** What `str()` writes for a boolean reads back as that boolean. */
  lemma ParseOptionalBoolOfDisplay(b: bool)
    ensures ParseOptionalBool(Str(Display(Bool(b)))) == Some(b)
  {
    CellWordOfBool(b);
  }

  // ---------------------------------------------------------------------
  // _resolve_cuit_label

  /** `str(data["response_ccma"].get("cuit", "")).strip()` when the answer
      wraps a dict under `response_ccma`; empty otherwise. */
  function AnsweredCuit(data: Value): string {
    var wrapped := Field(data, "response_ccma");
    if wrapped.Dict? then Strip(Display(Get(wrapped.entries, "cuit").GetOr(Str("")))) else ""
  }

  /** `_resolve_cuit_label`: the represented CUIT when there is one, else the
      CUIT the answer reports, else the representative's. */
  function ResolveCuitLabel(cuitRepr: string, cuitRep: string, data: Value): (r: string)
    ensures |cuitRepr| > 0 ==> r == cuitRepr
    ensures |cuitRepr| == 0 && |AnsweredCuit(data)| > 0 ==> r == AnsweredCuit(data)
    ensures |cuitRepr| == 0 && |AnsweredCuit(data)| == 0 ==> r == cuitRep
    ensures |r| == 0 <==> |cuitRepr| == 0 && |AnsweredCuit(data)| == 0 && |cuitRep| == 0
  {
    if |cuitRepr| > 0 then cuitRepr
    else
      var answered := AnsweredCuit(data);
      if |answered| > 0 then answered else cuitRep
  }

  /** The CUIT the answer reports names the folder when the row has no
      represented CUIT. */
  lemma AnsweredCuitLabel(cuitRep: string, cuit: string)
    requires |cuit| > 0 && !IsSpace(cuit[0]) && !IsSpace(cuit[|cuit| - 1])
    ensures ResolveCuitLabel("", cuitRep, Dict([("response_ccma", Dict([("cuit", Str(cuit))]))])) == cuit
  {
    TrimLeftNoop(cuit, IsSpace);
    TrimRightNoop(cuit, IsSpace);
  }

  /** A `cuit` present but null is written out as `None`, which then names
      the folder instead of the representative's CUIT. */
  lemma NullCuitLabel(cuitRep: string)
    ensures ResolveCuitLabel("", cuitRep, Dict([("response_ccma", Dict([("cuit", Null)]))])) == "None"
  {
    var s := "None";
    assert !IsSpace(s[0]) && !IsSpace(s[|s| - 1]);
    TrimLeftNoop(s, IsSpace);
    TrimRightNoop(s, IsSpace);
  }

  // ---------------------------------------------------------------------
  // _save_ccma_response_json

  const NoFolderMessage := "No hay carpeta de descarga disponible."

  /** The name the answer is saved under: `<sanitised label>_<stamp>.json`,
      `stamp` being the save time written `%Y-%m-%d %H-%M-%S`. */
  function JsonName(cuitLabel: string, stamp: string): (r: string)
    ensures EndsWith(r, ".json")
    ensures StartsWith(r, SanitizeFilenamePart(cuitLabel) + "_")
  {
    var r := SanitizeFilenamePart(cuitLabel) + "_" + stamp + ".json";
    assert r[|r| - 5..] == ".json";
    assert r[..|SanitizeFilenamePart(cuitLabel) + "_"|] == SanitizeFilenamePart(cuitLabel) + "_";
    r
  }

  /** `_save_ccma_response_json`: `write(path)` stores the answer and gives
      the error text when it fails; `stamp` is the save time. No folder means
      an error and no file. */
  method SaveResponseJson(destDir: Option<string>, cuitLabel: string, stamp: string, write: string -> Option<string>)
    returns (path: Option<string>, error: Option<string>)
    ensures destDir.None? || destDir.value == "" ==> path.None? && error == Some(NoFolderMessage)
    ensures path.Some? <==> destDir.Some? && destDir.value != "" && write(PathJoin(destDir.value, JsonName(cuitLabel, stamp))).None?
    ensures path.Some? ==> path.value == PathJoin(destDir.value, JsonName(cuitLabel, stamp)) && error.None?
    ensures path.None? ==> error.Some?
  {
    if destDir.None? || destDir.value == "" {
      return None, Some(NoFolderMessage);
    }
    var target := PathJoin(destDir.value, JsonName(cuitLabel, stamp));
    var failure := write(target);
    if failure.Some? {
      return None, failure;
    }
    return Some(target), None;
  }

  // ---------------------------------------------------------------------
  // _extract_links

  /** `data.get("response_ccma", data)` for a dict answer (a null wrapper
      stays null); Python's None for anything else. */
  function ResponseObject(data: Value): Value {
    if data.Dict? then Get(data.entries, "response_ccma").GetOr(data) else Null
  }

  /** `_extract_links`: at most one link, from `pdf_url_minio` of the
      response object, with no hint, prefix `ccma` and index 1. */
  function ExtractLinks(data: Value): (r: seq<Link>)
    ensures WellFormed(r) && |r| <= 1
  {
    var obj := ResponseObject(data);
    if obj.Dict? then SingleLink(Field(obj, "pdf_url_minio"), None, LinkPrefix) else []
  }

  /** There is a link exactly when the response object is a dict whose
      `pdf_url_minio` is a text starting with `http`, and it is the link
      `build_link` makes of it. */
  lemma ExtractLinksSpec(data: Value)
    ensures |ExtractLinks(data)| == 1 <==>
      ResponseObject(data).Dict? && Field(ResponseObject(data), "pdf_url_minio").Str? &&
      IsHttp(Strip(Field(ResponseObject(data), "pdf_url_minio").s))
    ensures |ExtractLinks(data)| == 1 ==>
      ExtractLinks(data)[0] == BuildLink(Field(ResponseObject(data), "pdf_url_minio"), None, LinkPrefix, 1).value
  {
  }

  /** A PDF URL inside `response_ccma` is the one link. */
  lemma WrappedPdfLink(url: string)
    requires IsHttp(Strip(url))
    ensures |ExtractLinks(Dict([("response_ccma", Dict([("pdf_url_minio", Str(url))]))]))| == 1
    ensures ExtractLinks(Dict([("response_ccma", Dict([("pdf_url_minio", Str(url))]))]))[0].url == Strip(url)
  {
    var inner := Dict([("pdf_url_minio", Str(url))]);
    var data := Dict([("response_ccma", inner)]);
    GetAt(data.entries, 0);
    assert ResponseObject(data) == inner;
    GetAt(inner.entries, 0);
    assert Field(inner, "pdf_url_minio") == Str(url);
  }

  /** Without a wrapper the answer itself is the response object. */
  lemma BarePdfLink(url: string)
    requires IsHttp(Strip(url))
    ensures |ExtractLinks(Dict([("pdf_url_minio", Str(url))]))| == 1
    ensures ExtractLinks(Dict([("pdf_url_minio", Str(url))]))[0].url == Strip(url)
  {
    var data := Dict([("pdf_url_minio", Str(url))]);
    assert Get(data.entries, "response_ccma").None?;
    assert ResponseObject(data) == data;
    GetAt(data.entries, 0);
    assert Field(data, "pdf_url_minio") == Str(url);
  }

  /** A null wrapper hides a PDF URL at the top level. */
  lemma NullWrapperNoLink(url: string)
    ensures ExtractLinks(Dict([("response_ccma", Null), ("pdf_url_minio", Str(url))])) == []
  {
    var data := Dict([("response_ccma", Null), ("pdf_url_minio", Str(url))]);
    GetAt(data.entries, 0);
    assert ResponseObject(data) == Null;
  }

  // ---------------------------------------------------------------------
  // The request body

  /** The request body: the fields in the order the window writes them, with
      `pdf: True` added only when the PDF is wanted. */
  function CcmaPayload(cuitRep: string, clave: string, cuitRepr: string, proxy: bool, movimientos: bool, pdf: bool)
    : (r: seq<(string, Value)>)
    ensures |r| == if pdf then 6 else 5
    ensures Keys(r) == ["cuit_representante", "clave_representante", "cuit_representado", "proxy_request", "movimientos"]
      + (if pdf then ["pdf"] else [])
  {
    [("cuit_representante", Str(cuitRep)),
     ("clave_representante", Str(clave)),
     ("cuit_representado", Str(cuitRepr)),
     ("proxy_request", Bool(proxy)),
     ("movimientos", Bool(movimientos))]
    + (if pdf then [("pdf", Bool(true))] else [])
  }

  /** The request asks for the PDF only when wanted, and always says whether
      movements and the proxy are wanted. */
  lemma PayloadFlags(cuitRep: string, clave: string, cuitRepr: string, proxy: bool, movimientos: bool, pdf: bool)
    ensures Get(CcmaPayload(cuitRep, clave, cuitRepr, proxy, movimientos, pdf), "pdf") ==
      if pdf then Some(Bool(true)) else None
    ensures Get(CcmaPayload(cuitRep, clave, cuitRepr, proxy, movimientos, pdf), "movimientos") == Some(Bool(movimientos))
    ensures Get(CcmaPayload(cuitRep, clave, cuitRepr, proxy, movimientos, pdf), "proxy_request") == Some(Bool(proxy))
  {
    var r := CcmaPayload(cuitRep, clave, cuitRepr, proxy, movimientos, pdf);
    GetAt(r, 3);
    GetAt(r, 4);
    if pdf {
      GetAt(r, 5);
    }
  }

  /** The request carries the credentials and the represented CUIT as the
      row gives them. */
  lemma PayloadIdentity(cuitRep: string, clave: string, cuitRepr: string, proxy: bool, movimientos: bool, pdf: bool)
    ensures Get(CcmaPayload(cuitRep, clave, cuitRepr, proxy, movimientos, pdf), "cuit_representante") == Some(Str(cuitRep))
    ensures Get(CcmaPayload(cuitRep, clave, cuitRepr, proxy, movimientos, pdf), "clave_representante") == Some(Str(clave))
    ensures Get(CcmaPayload(cuitRep, clave, cuitRepr, proxy, movimientos, pdf), "cuit_representado") == Some(Str(cuitRepr))
  {
    var r := CcmaPayload(cuitRep, clave, cuitRepr, proxy, movimientos, pdf);
    GetAt(r, 0);
    GetAt(r, 1);
    GetAt(r, 2);
  }

  // ---------------------------------------------------------------------
  // Merging a movement into its head: `{**head, **mov}`

  /** `d[key] = v`: the value is replaced in place when the key is there,
      else the entry is appended. */
  function Put(d: seq<(string, Value)>, key: string, v: Value): seq<(string, Value)> {
    var i := KeyIndex(d, key);
    if i < |d| then d[i := (key, v)] else d + [(key, v)]
  }

  lemma PutGet(d: seq<(string, Value)>, key: string, v: Value, k: string)
    ensures Get(Put(d, key, v), k) == if k == key then Some(v) else Get(d, k)
  {
    var i := KeyIndex(d, key);
    if i < |d| {
      var e := d[i := (key, v)];
      assert Keys(e) == Keys(d);
      KeyIndexSameKeys(e, d, k);
    } else {
      GetAppend(d, [(key, v)], k);
    }
  }

  /** `{**base, **extra}`: the entries of `extra` put into `base` in order. */
  function Merge(base: seq<(string, Value)>, extra: seq<(string, Value)>): seq<(string, Value)>
    decreases |extra|
  {
    if |extra| == 0 then base
    else
      var n := |extra| - 1;
      Put(Merge(base, extra[..n]), extra[n].0, extra[n].1)
  }

  /** A merged dict answers from `extra` first, then from `base`. */
  lemma {:induction false} MergeGet(base: seq<(string, Value)>, extra: seq<(string, Value)>, k: string)
    requires NoDup(Keys(extra))
    ensures Get(Merge(base, extra), k) == if Get(extra, k).Some? then Get(extra, k) else Get(base, k)
    decreases |extra|
  {
    if |extra| > 0 {
      var n := |extra| - 1;
      var init := extra[..n];
      assert extra == init + [extra[n]];
      assert Keys(init) == Keys(extra)[..n];
      MergeGet(base, init, k);
      PutGet(Merge(base, init), extra[n].0, extra[n].1, k);
      GetAppend(init, [extra[n]], k);
      if k == extra[n].0 {
        assert forall j :: 0 <= j < n ==> init[j].0 != k by {
          forall j | 0 <= j < n ensures init[j].0 != k {
            assert Keys(extra)[j] != Keys(extra)[n];
          }
        }
      }
    }
  }

  // ---------------------------------------------------------------------
  // The result rows

  /** What a row's answer becomes: the statement of a dict response object,
      a non-dict response object kept as it came, or the failure. */
  datatype Outcome =
    | Answered(cuit: Value, periodo: Value, pdfUrl: Value, responseJson: Value)
    | Unstructured(responseJson: Value)
    | Errored(error: Response)

  /** The three branches of the result row: an HTTP 200 with a dict answer
      gives a statement (from the response object when it is a dict), and
      anything else records the whole response as the error. */
  function RowOutcome(resp: Response): (o: Outcome)
    ensures o.Errored? <==> !(Ok(resp) && resp.data.Dict?)
    ensures o.Errored? ==> o.error == resp
    ensures o.Answered? <==> Ok(resp) && ResponseObject(resp.data).Dict?
    ensures o.Answered? ==> o == Answered(Field(ResponseObject(resp.data), "cuit"), Field(ResponseObject(resp.data), "periodo"),
                                         Field(ResponseObject(resp.data), "pdf_url_minio"),
                                         Dict([("response_ccma", ResponseObject(resp.data))]))
    ensures o.Unstructured? ==> o.responseJson == resp.data
  {
    if Ok(resp) && resp.data.Dict? then
      var obj := ResponseObject(resp.data);
      if obj.Dict? then
        Answered(Field(obj, "cuit"), Field(obj, "periodo"), Field(obj, "pdf_url_minio"), Dict([("response_ccma", obj)]))
      else Unstructured(resp.data)
    else Errored(resp)
  }

  /** The fields every movement row starts with; the represented CUIT falls
      back to the one the answer reports. */
  function MovementHead(cuitRep: string, cuitRepr: string, obj: Value): seq<(string, Value)> {
    [("cuit_representante", Str(cuitRep)),
     ("cuit_representado", if |cuitRepr| > 0 then Str(cuitRepr) else Field(obj, "cuit"))]
  }

  predicate IsDict(v: Value) { v.Dict? }

  /** The entries of a dict; nothing for any other value. */
  function Entries(v: Value): seq<(string, Value)> {
    if v.Dict? then v.entries else []
  }

  /** The movement rows: only when movements were asked for and the answer
      lists them; each dict movement merged into the head, other entries
      skipped. */
  function Movements(cuitRep: string, cuitRepr: string, obj: Value, requested: bool): (r: seq<seq<(string, Value)>>)
    ensures !requested || !Field(obj, "movimientos").List? ==> r == []
    ensures requested && Field(obj, "movimientos").List? ==>
      |r| == Count(Field(obj, "movimientos").items, IsDict)
  {
    var list := Field(obj, "movimientos");
    if requested && list.List? then
      var dicts := Filter(list.items, IsDict);
      FilterLength(list.items, IsDict);
      seq(|dicts|, i requires 0 <= i < |dicts| => Merge(MovementHead(cuitRep, cuitRepr, obj), Entries(dicts[i])))
    else []
  }

  /** Each movement row is the `i`-th dict movement over the head: its own
      fields win, the head fills the rest. */
  lemma MovementFields(cuitRep: string, cuitRepr: string, obj: Value, i: nat, k: string)
    requires Field(obj, "movimientos").List?
    requires i < |Filter(Field(obj, "movimientos").items, IsDict)|
    requires NoDup(Keys(Entries(Filter(Field(obj, "movimientos").items, IsDict)[i])))
    ensures var mov := Filter(Field(obj, "movimientos").items, IsDict)[i];
      && mov.Dict?
      && Get(Movements(cuitRep, cuitRepr, obj, true)[i], k) ==
           if Get(mov.entries, k).Some? then Get(mov.entries, k) else Get(MovementHead(cuitRep, cuitRepr, obj), k)
  {
    var items := Field(obj, "movimientos").items;
    var dicts := Filter(items, IsDict);
    FilterLength(items, IsDict);
    assert dicts[i] in dicts;
    MergeGet(MovementHead(cuitRep, cuitRepr, obj), Entries(dicts[i]), k);
  }

  /** A row of the results table (the six amounts are left out). */
  datatype CcmaRow = CcmaRow(cuitRep: string, cuitRepr: string, movimientos: bool, pdf: bool, outcome: Outcome)

  // ---------------------------------------------------------------------
  // _process_row_ccma

  /** The representative's CUIT as the row gives it, stripped. */
  function RowLogin(row: Row): string {
    Strip(RowText(row, "cuit_representante"))
  }

  /** The movements flag of a row. */
  function RowMovements(row: Row, movDefault: bool): bool {
    ParseBoolCell(Cell(row, "movimientos"), movDefault)
  }

  /** The PDF flag of a row: the cell's reading, the default when unset. */
  function RowPdf(row: Row, pdfDefault: bool): bool {
    ParseOptionalBool(Cell(row, "pdf")).GetOr(pdfDefault)
  }

  /** The request body of a row. */
  function RowPayload(row: Row, movFlag: bool, pdfFlag: bool, proxy: bool): seq<(string, Value)> {
    CcmaPayload(RowLogin(row), RowText(row, "clave_representante"), RowCuit(row), proxy,
                movFlag, pdfFlag)
  }

  /** The answer the attempt loop keeps for a row. */
  function RowAnswer(row: Row, movFlag: bool, pdfFlag: bool, proxy: bool,
                     post: (seq<(string, Value)>, nat) -> Response): Response {
    Answer(post, RowPayload(row, movFlag, pdfFlag, proxy), Attempts(Cell(row, "retry")))
  }

  /** The folder label of a row once its answer is known. */
  function RowLabel(row: Row, resp: Response): string {
    ResolveCuitLabel(RowCuit(row), RowLogin(row), resp.data)
  }

  /** The movement rows of an answer: none unless it gave a statement. */
  function AnswerMovements(row: Row, movFlag: bool, resp: Response): seq<seq<(string, Value)>> {
    if RowOutcome(resp).Answered? then Movements(RowLogin(row), RowCuit(row), ResponseObject(resp.data), movFlag) else []
  }

  /** The downloads of an answer and the saved answer: the PDF goes into the
      resolved folder, named after `cuitLabel`, and the answer is saved next
      to it. The clock is read for two purposes: `clock(k)` gives the
      `%Y%m%d-%H_%M_%S` suffix the `k`-th download gets on a collision, and
      `stamp` is the
      `%Y-%m-%d %H-%M-%S` time in the saved answer's name. */
  method StoreAnswer(data: Value, row: Row, cuitLabel: string,
                     windowDir: string, writable: string -> bool, listing: string -> set<string>, clock: Clock,
                     stamp: string, fetch: (string, string) -> FetchResult, write: string -> Option<string>)
    returns (folder: Option<string>, jsonPath: Option<string>)
    ensures folder == if |ExtractLinks(data)| > 0
      then PrepareDownloadDir(ModuleDir, TargetDir(RowDownload(row), windowDir), cuitLabel, writable).dir
      else None
    ensures jsonPath.Some? <==> folder.Some? && write(PathJoin(folder.value, JsonName(cuitLabel, stamp))).None?
    ensures jsonPath.Some? ==> jsonPath.value == PathJoin(folder.value, JsonName(cuitLabel, stamp))
  {
    assert LinksFor(data, Some(ExtractLinks), "archivo") == ExtractLinks(data);
    var downloads, errors;
    downloads, errors, folder := ProcessDownloads(data, Some(ExtractLinks), "archivo", ModuleDir, cuitLabel,
                                                  RowDownload(row), windowDir, writable, listing, clock, fetch);
    var saveError;
    assert folder.Some? ==> folder.value != "";
    jsonPath, saveError := SaveResponseJson(folder, cuitLabel, stamp, write);
  }

  /** The request of a row, its downloads and the saved answer. */
  method QueryRow(row: Row, movFlag: bool, pdfFlag: bool, proxy: bool,
                  post: (seq<(string, Value)>, nat) -> Response,
                  windowDir: string, writable: string -> bool, listing: string -> set<string>, clock: Clock,
                  stamp: string, fetch: (string, string) -> FetchResult, write: string -> Option<string>)
    returns (resp: Response, folder: Option<string>, jsonPath: Option<string>)
    ensures resp == RowAnswer(row, movFlag, pdfFlag, proxy, post)
    ensures folder == if |ExtractLinks(resp.data)| > 0
      then PrepareDownloadDir(ModuleDir, TargetDir(RowDownload(row), windowDir), RowLabel(row, resp), writable).dir
      else None
    ensures jsonPath.Some? <==> folder.Some? && write(PathJoin(folder.value, JsonName(RowLabel(row, resp), stamp))).None?
    ensures jsonPath.Some? ==> jsonPath.value == PathJoin(folder.value, JsonName(RowLabel(row, resp), stamp))
  {
    resp := Query(post, RowPayload(row, movFlag, pdfFlag, proxy), Attempts(Cell(row, "retry")));
    folder, jsonPath := StoreAnswer(resp.data, row, RowLabel(row, resp), windowDir, writable, listing, clock, stamp, fetch, write);
  }

  /** `_process_row_ccma`: `aborted` is the abort flag when the row starts.
      Returns the result row, the movement rows and whether movements were
      asked for; an aborted row makes no request and returns nothing. */
  method ProcessRowCcma(row: Row, aborted: bool, movDefault: bool, pdfDefault: bool, proxy: bool,
                        post: (seq<(string, Value)>, nat) -> Response,
                        windowDir: string, writable: string -> bool, listing: string -> set<string>, clock: Clock,
                        stamp: string, fetch: (string, string) -> FetchResult, write: string -> Option<string>)
    returns (result: Option<CcmaRow>, movs: seq<seq<(string, Value)>>, requested: bool)
    ensures aborted ==> result.None? && movs == [] && !requested
    ensures !aborted ==> result.Some? && requested == RowMovements(row, movDefault)
    ensures result.Some? ==> result.value.pdf == RowPdf(row, pdfDefault)
    ensures result.Some? && ParseOptionalBool(Cell(row, "pdf")).None? ==> result.value.pdf == pdfDefault
    ensures result.Some? ==> result.value.outcome == RowOutcome(RowAnswer(row, RowMovements(row, movDefault), RowPdf(row, pdfDefault), proxy, post))
    ensures result.Some? ==> movs == AnswerMovements(row, RowMovements(row, movDefault), RowAnswer(row, RowMovements(row, movDefault), RowPdf(row, pdfDefault), proxy, post))
  {
    if aborted {
      return None, [], false;
    }
    var movFlag := RowMovements(row, movDefault);
    var pdfFlag := RowPdf(row, pdfDefault);
    var resp, folder, jsonPath := QueryRow(row, movFlag, pdfFlag, proxy, post, windowDir, writable, listing, clock, stamp, fetch, write);
    result := Some(CcmaRow(RowLogin(row), RowCuit(row), movFlag, pdfFlag, RowOutcome(resp)));
    movs := AnswerMovements(row, movFlag, resp);
    requested := movFlag;
  }
}
