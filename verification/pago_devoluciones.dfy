/** The refund-payments window (`pago_devoluciones`): its boolean cell
    reader, the error text it pulls out of an answer, where it finds the
    answer's file and what one spreadsheet row turns into. */
module PagoDevoluciones {
  import opened Prelude
  import opened Digits
  import opened Text
  import opened Json
  import opened Helpers
  import opened Batch
  import opened MinioHelpers
  import opened MinioLinks
  import opened ServiceLinks
  import opened Mixins

  const ModuleDir := "Pago_Devoluciones"
  const LinkPrefix := "pago_devoluciones"

  // ---------------------------------------------------------------------
  // _bool_cell

  /** `_bool_cell(value, default)`: a boolean passes through; anything else
      is read as the stripped, lower-cased text of `value or ""`, so every
      falsy cell reads as the empty text and gives the default. */
  function BoolCell(v: Value, default: bool): (r: bool)
    ensures v.Bool? ==> r == v.b
    ensures !v.Bool? && !Truthy(v) ==> r == default
    ensures !v.Bool? && Truthy(v) && CellWord(v) in TrueWords ==> r
    ensures !v.Bool? && Truthy(v) && CellWord(v) in FalseWords ==> !r
    ensures !v.Bool? && Truthy(v) && CellWord(v) !in TrueWords + FalseWords ==> r == default
  {
    if v.Bool? then v.b else ReadWord(CellWord(Or(v, Str(""))), default)
  }

  /** On text, booleans and empty cells the window's reader and the shared
      `parse_bool_cell` agree. */
  lemma BoolCellAgreesOnText(v: Value, default: bool)
    requires v.Str? || v.Bool? || v.Null?
    ensures BoolCell(v, default) == ParseBoolCell(v, default)
  {
    if v.Str? && |v.s| == 0 {
      assert CellWord(v) == "";
    }
  }

  /** On numbers they differ: zero gives the default instead of false, and
      every integer but one gives the default instead of true. */
  lemma BoolCellOfInt(i: int, default: bool)
    ensures i == 0 ==> BoolCell(Int(i), default) == default
    ensures i == 1 ==> BoolCell(Int(i), default)
    ensures i != 0 && i != 1 ==> BoolCell(Int(i), default) == default
  {
    IntWord(i);
  }

  /** `str(i)` is its own cell word, and it is a true word only for one and
      a false word only for zero. */
  lemma IntWord(i: int)
    ensures CellWord(Int(i)) == IntToString(i)
    ensures IntToString(i) in TrueWords <==> i == 1
    ensures IntToString(i) in FalseWords <==> i == 0
  {
    IntCellWord(i);
    IntBoolWord(i);
  }

  lemma IntCellWord(i: int)
    ensures CellWord(Int(i)) == IntToString(i)
  {
    var s := IntToString(i);
    IntTextShape(i);
    TrimLeftNoop(s, IsSpace);
    TrimRightNoop(s, IsSpace);
    LowerNoUpper(s);
  }

  lemma IntBoolWord(i: int)
    ensures IntToString(i) in TrueWords <==> i == 1
    ensures IntToString(i) in FalseWords <==> i == 0
  {
    var s := IntToString(i);
    IntTextShape(i);
    NumericWord(s);
    assert NatToString(1) == "1";
    assert NatToString(0) == "0";
    if i >= 0 && s == "1" {
      NatToStringInjective(i, 1);
    }
    if i >= 0 && s == "0" {
      NatToStringInjective(i, 0);
    }
  }

  /** `str(i)` is digits after an optional minus sign. */
  lemma IntTextShape(i: int)
    ensures forall k :: 0 <= k < |IntToString(i)| ==> IsAsciiDigit(IntToString(i)[k]) || IntToString(i)[k] == '-'
    ensures IsAsciiDigit(IntToString(i)[|IntToString(i)| - 1])
  {
    var digits := if i < 0 then NatToString(-i) else NatToString(i);
    assert IntToString(i) == if i < 0 then "-" + digits else digits;
  }

  /** The only boolean words that start like a number are one and zero. */
  lemma NumericWord(s: string)
    requires |s| > 0 && (IsAsciiDigit(s[0]) || s[0] == '-')
    ensures s in TrueWords ==> s == "1"
    ensures s in FalseWords ==> s == "0"
  {
  }

  // ---------------------------------------------------------------------
  // _extract_api_error

  /** The stripped texts of a list's items, blank ones left out. */
  function ErrorParts(items: seq<Value>): (r: seq<string>)
    ensures |r| <= |items|
    ensures forall k :: 0 <= k < |r| ==> Stripped(r[k])
    decreases |items|
  {
    if |items| == 0 then []
    else
      var head := ErrorPart(items[0]);
      var rest := ErrorParts(items[1..]);
      head + rest
  }

  /** The stripped text of one item, or nothing when it is blank. */
  function ErrorPart(item: Value): (r: seq<string>)
    ensures |r| <= 1
    ensures |r| == 1 ==> Stripped(r[0])
  {
    var t := Strip(Display(item));
    if |t| > 0 then [t] else []
  }

  /** Texts with no blank at either end come through unchanged and in
      order. */
  lemma {:induction false} ErrorPartsOfTexts(texts: seq<string>)
    requires forall k :: 0 <= k < |texts| ==> Stripped(texts[k])
    ensures ErrorParts(Strs(texts)) == texts
    decreases |texts|
  {
    if |texts| > 0 {
      TrimLeftNoop(texts[0], IsSpace);
      TrimRightNoop(texts[0], IsSpace);
      assert Strs(texts)[1..] == Strs(texts[1..]);
      ErrorPartsOfTexts(texts[1..]);
    }
  }

  /** `_extract_api_error(data)`: nothing unless the answer is a dict with
      an `error` that is not None; a list gives its non-blank items joined by
      `"; "`, a dict its JSON text (`dumps`), anything else its stripped
      text; a blank result is no error. */
  function ExtractApiError(data: Value, dumps: Value -> string): (r: Option<string>)
    ensures Field(data, "error").Null? ==> r.None?
    ensures !data.Dict? ==> r.None?
    ensures Field(data, "error").Dict? ==> r == Some(dumps(Field(data, "error")))
    ensures Field(data, "error").List? ==>
      (r.None? <==> ErrorParts(Field(data, "error").items) == [])
    ensures Field(data, "error").List? && r.Some? ==>
      r.value == Join(ErrorParts(Field(data, "error").items), "; ")
    ensures !Field(data, "error").Null? && !Field(data, "error").List? && !Field(data, "error").Dict? ==>
      r == OptionalValue(Display(Field(data, "error")))
    ensures r.Some? && !Field(data, "error").Dict? ==> |r.value| > 0
  {
    var raw := Field(data, "error");
    match raw
    case Null => None
    case List(items) =>
      var parts := ErrorParts(items);
      if |parts| > 0 then
        assert |Join(parts, "; ")| > 0;
        Some(Join(parts, "; "))
      else None
    case Dict(_) => Some(dumps(raw))
    case _ => OptionalValue(Display(raw))
  }

  /** A list of clean messages is reported as those messages joined. */
  lemma ApiErrorOfMessages(messages: seq<string>, dumps: Value -> string)
    requires |messages| > 0
    requires forall k :: 0 <= k < |messages| ==> |messages[k]| > 0 && !IsSpace(messages[k][0]) && !IsSpace(messages[k][|messages[k]| - 1])
    ensures ExtractApiError(Dict([("error", List(Strs(messages)))]), dumps) == Some(Join(messages, "; "))
  {
    ErrorPartsOfTexts(messages);
    assert Field(Dict([("error", List(Strs(messages)))]), "error") == List(Strs(messages)) by {
      GetAt([("error", List(Strs(messages)))], 0);
    }
  }

  // ---------------------------------------------------------------------
  // _extract_links

  /** `build_link` raises on the `archivo` object of an answer: its URL
      names no file and its `nombre` is truthy but not text. */
  predicate ArchivoRaises(data: Value) {
    var archivo := Field(data, "archivo");
    archivo.Dict? && HintRaises(Field(archivo, "url_minio"), Field(archivo, "nombre"))
  }

  /** The link the `archivo` object of an answer offers, if any, or None
      when building it raises. */
  function ArchivoLinks(data: Value): (r: Option<seq<Link>>)
    ensures r.None? <==> ArchivoRaises(data)
    ensures r.Some? ==> WellFormed(r.value) && |r.value| <= 1
    ensures !Field(data, "archivo").Dict? ==> r == Some([])
    ensures r.Some? && Field(data, "archivo").Dict? ==>
      var archivo := Field(data, "archivo");
      var l := BuildLink(Field(archivo, "url_minio"), TextHint(Field(archivo, "nombre")), LinkPrefix, 1);
      && (|r.value| == 1 <==> l.Some?)
      && (|r.value| == 1 ==> r.value[0] == l.value)
  {
    var archivo := Field(data, "archivo");
    if !archivo.Dict? then Some([])
    else if HintRaises(Field(archivo, "url_minio"), Field(archivo, "nombre")) then None
    else Some(SingleLink(Field(archivo, "url_minio"), TextHint(Field(archivo, "nombre")), LinkPrefix))
  }

  /** The links `_extract_links` returns when it does not raise. */
  function FoundLinks(data: Value): (r: seq<Link>)
    ensures WellFormed(r)
  {
    var own := ArchivoLinks(data);
    WithFallback(if own.Some? then own.value else [], data, LinkPrefix)
  }

  /** `_extract_links(data)`: None when `build_link` raises on the
      `archivo` object; otherwise the file of that object, named by its
      `nombre` when its URL names none, else whatever the generic walker
      finds under the `pago_devoluciones` prefix. */
  function ExtractLinks(data: Value): (r: Option<seq<Link>>)
    ensures r.None? <==> ArchivoRaises(data)
    ensures r.Some? ==> WellFormed(r.value)
    ensures r.Some? && |ArchivoLinks(data).value| == 1 ==> r.value == ArchivoLinks(data).value
    ensures r.Some? && |ArchivoLinks(data).value| == 0 ==> r.value == CollectMinioLinks(data, LinkPrefix)
  {
    if ArchivoLinks(data).None? then None else Some(FoundLinks(data))
  }

  /** The answer `{"archivo": {"url_minio": url, "nombre": nombre}}`. */
  function ArchivoAnswer(url: string, nombre: Value): Value {
    Dict([("archivo", Dict([("url_minio", Str(url)), ("nombre", nombre)]))])
  }

  /** For a URL that names no file, the `nombre` decides: a non-zero number
      makes the extractor raise, and text names the one file. */
  lemma NombreDecides(url: string, n: int, name: string)
    requires ReadsHint(Str(url)) && n != 0
    ensures ExtractLinks(ArchivoAnswer(url, Int(n))).None?
    ensures ExtractLinks(ArchivoAnswer(url, Str(name)))
         == Some([Link(Strip(url), EnsureExtension(HintName(Some(name), LinkPrefix, 1), Strip(url)))])
  {
    ArchivoFields(url, Int(n));
    ArchivoFields(url, Str(name));
  }

  lemma ArchivoFields(url: string, nombre: Value)
    ensures Field(ArchivoAnswer(url, nombre), "archivo") == Dict([("url_minio", Str(url)), ("nombre", nombre)])
    ensures Field(Field(ArchivoAnswer(url, nombre), "archivo"), "url_minio") == Str(url)
    ensures Field(Field(ArchivoAnswer(url, nombre), "archivo"), "nombre") == nombre
  {
    GetAt([("archivo", Dict([("url_minio", Str(url)), ("nombre", nombre)]))], 0);
    GetAt([("url_minio", Str(url)), ("nombre", nombre)], 0);
    GetAt([("url_minio", Str(url)), ("nombre", nombre)], 1);
  }

  // ---------------------------------------------------------------------
  // _process_row_pago_devoluciones

  /** The row's stripped login CUIT. */
  function RowLogin(row: Row): string {
    Strip(RowText(row, "cuit_representante"))
  }

  /** `_optional_value(str(row.get("cuit_representado", "")))`. */
  function RowRepresented(row: Row): Option<string> {
    OptionalValue(RowText(row, "cuit_representado"))
  }

  /** The request body: the fields in the order the window writes them. */
  function PayloadEntries(login: string, clave: string, represented: Value, proxy: bool, carga: bool)
    : (r: seq<(string, Value)>)
    ensures |r| == 5
    ensures Keys(r) == ["cuit_representante", "clave_representante", "cuit_representado", "proxy_request", "carga_minio"]
  {
    [("cuit_representante", Str(login)),
     ("clave_representante", Str(clave)),
     ("cuit_representado", represented),
     ("proxy_request", Bool(proxy)),
     ("carga_minio", Bool(carga))]
  }

  /** Each field of the request body is found under its own key. */
  lemma PayloadFields(login: string, clave: string, represented: Value, proxy: bool, carga: bool)
    ensures Get(PayloadEntries(login, clave, represented, proxy, carga), "cuit_representante") == Some(Str(login))
    ensures Get(PayloadEntries(login, clave, represented, proxy, carga), "clave_representante") == Some(Str(clave))
    ensures Get(PayloadEntries(login, clave, represented, proxy, carga), "cuit_representado") == Some(represented)
    ensures Get(PayloadEntries(login, clave, represented, proxy, carga), "proxy_request") == Some(Bool(proxy))
    ensures Get(PayloadEntries(login, clave, represented, proxy, carga), "carga_minio") == Some(Bool(carga))
  {
    var r := PayloadEntries(login, clave, represented, proxy, carga);
    GetAt(r, 0);
    GetAt(r, 1);
    GetAt(r, 2);
    GetAt(r, 3);
    GetAt(r, 4);
  }

  /** The request body of a row; `defaultProxy` and `defaultCarga` are the
      window's check boxes. */
  function PagoPayload(row: Row, defaultProxy: bool, defaultCarga: bool): seq<(string, Value)> {
    PayloadEntries(RowLogin(row), RowText(row, "clave_representante"), OptionalJson(RowRepresented(row)),
                   BoolCell(Cell(row, "proxy_request"), defaultProxy), BoolCell(Cell(row, "carga_minio"), defaultCarga))
  }

  /** A row without the flag columns asks with the window's check boxes,
      and sends the represented CUIT as None when it is blank. */
  lemma PayloadDefaults(row: Row, defaultProxy: bool, defaultCarga: bool)
    requires "proxy_request" !in row && "carga_minio" !in row
    ensures Get(PagoPayload(row, defaultProxy, defaultCarga), "proxy_request") == Some(Bool(defaultProxy))
    ensures Get(PagoPayload(row, defaultProxy, defaultCarga), "carga_minio") == Some(Bool(defaultCarga))
    ensures RowRepresented(row).None? ==> Get(PagoPayload(row, defaultProxy, defaultCarga), "cuit_representado") == Some(Null)
  {
    PayloadFields(RowLogin(row), RowText(row, "clave_representante"), OptionalJson(RowRepresented(row)), defaultProxy, defaultCarga);
  }

  /** A row of the results table. */
  datatype PagoRow = PagoRow(cuit: string, httpStatus: Option<int>, success: Value, message: Value,
                             error: Option<string>, downloads: nat, downloadErrors: Option<string>,
                             folder: Option<string>)

  /** The answer the attempt loop keeps for a row. */
  function RowAnswer(row: Row, defaultProxy: bool, defaultCarga: bool, post: (seq<(string, Value)>, nat) -> Response)
    : Response
  {
    Answer(post, PagoPayload(row, defaultProxy, defaultCarga), Attempts(Cell(row, "retry")))
  }

  /** `_process_row_pago_devoluciones`: `aborted` is the abort flag when the
      row starts, `post(payload, a)` the answer to attempt `a`, `dumps` the
      JSON text of a dict. The request is retried up to the row's count until
      an HTTP 200; the answer's error text is reported and its files are
      saved under the row's folder (or the window's) and CUIT. When
      `build_link` raises on the answer the row ends without a result: the
      batch's `except Exception: pass` drops it just as it drops None. */
  method ProcessRowPago(row: Row, aborted: bool, defaultProxy: bool, defaultCarga: bool,
                        post: (seq<(string, Value)>, nat) -> Response, dumps: Value -> string,
                        windowDir: string, writable: string -> bool, listing: string -> set<string>, clock: Clock,
                        fetch: (string, string) -> FetchResult)
    returns (r: Option<PagoRow>)
    ensures r.None? <==> aborted || ArchivoRaises(RowAnswer(row, defaultProxy, defaultCarga, post).data)
    ensures r.Some? ==>
      var resp := RowAnswer(row, defaultProxy, defaultCarga, post);
      var links := ExtractLinks(resp.data).value;
      && r.value.cuit == FolderCuit(RowRepresented(row), RowLogin(row))
      && r.value.httpStatus == resp.status
      && r.value.success == Field(resp.data, "success")
      && r.value.message == Field(resp.data, "message")
      && r.value.error == ExtractApiError(resp.data, dumps)
      && (|links| > 0 ==>
            r.value.folder == PrepareDownloadDir(ModuleDir, TargetDir(RowDownload(row), windowDir), FolderCuit(RowRepresented(row), RowLogin(row)), writable).dir)
      && DownloadCells(links, r.value.folder, r.value.downloads, r.value.downloadErrors, listing, clock, fetch)
  {
    if aborted {
      return None;
    }
    var resp := Query(post, PagoPayload(row, defaultProxy, defaultCarga), Attempts(Cell(row, "retry")));
    if ExtractLinks(resp.data).None? {
      return None;
    }
    assert LinksFor(resp.data, Some(FoundLinks), LinkPrefix) == ExtractLinks(resp.data).value;
    var folder := FolderCuit(RowRepresented(row), RowLogin(row));
    var downloads, errors, dir := ProcessDownloads(resp.data, Some(FoundLinks), LinkPrefix, ModuleDir, folder,
                                                   RowDownload(row), windowDir, writable, listing, clock, fetch);
    r := Some(PagoRow(folder, resp.status, Field(resp.data, "success"), Field(resp.data, "message"),
                      ExtractApiError(resp.data, dumps), downloads,
                      ErrorCell(errors), dir));
  }
}
