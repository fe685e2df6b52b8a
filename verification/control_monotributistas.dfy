/** The invoice part of the monotributo control batch
    (`control_monotributistas`): its yes/no cell reader, the PDF scan of a
    receipts answer, and how one row's invoice download is decided and where
    its archives go. The folder fallback is the invoice batch's own
    (`MisComprobantes.CrearDirectorioSeguro`) and the PDF test is the
    receipts window's (`Rcel.PdfUrl`). */
module ControlMonotributistas {
  import opened Prelude
  import opened Text
  import opened Json
  import opened Urls
  import opened Helpers
  import MisComprobantes
  import Rcel

  // ---------------------------------------------------------------------
  // _normalizar_si_no

  /** The lower-cased, stripped texts read as yes. */
  const SiWords: set<string> := {"si", "s", "yes", "y", "true", "1"}

  /** `_normalizar_si_no(valor)`: `si` for a text that is a yes word once
      lower-cased and stripped, and for a true boolean or non-zero integer;
      `no` for everything else, floats and None included. */
  function NormalizarSiNo(v: Value): (r: string)
    ensures r == "si" || r == "no"
    ensures r == "si" <==> (v.Str? && Strip(Lower(v.s)) in SiWords) || (v.Bool? && v.b) || (v.Int? && v.i != 0)
  {
    match v
    case Str(s) => if Strip(Lower(s)) in SiWords then "si" else "no"
    case Bool(b) => if b then "si" else "no"
    case Int(i) => if i != 0 then "si" else "no"
    case _ => "no"
  }

  /** The reader agrees with `parse_bool_cell` (default false) on booleans
      and integers. */
  lemma NormalizarSiNoAgreesOnNumbers(v: Value)
    requires v.Bool? || v.Int?
    ensures NormalizarSiNo(v) == "si" <==> ParseBoolCell(v, false)
  {
  }

  /** ... but not elsewhere: `s` is a yes here only. */
  lemma NormalizarSiNoAcceptsS()
    ensures NormalizarSiNo(Str("s")) == "si" && !ParseBoolCell(Str("s"), false)
  {
    assert Lower("s") == "s";
    StripPlainText("s");
    assert CellWord(Str("s")) == "s";
  }

  /** `sí` is a yes for `parse_bool_cell` only. */
  lemma NormalizarSiNoRejectsAccentedSi()
    ensures NormalizarSiNo(Str("s\U{ED}")) == "no" && ParseBoolCell(Str("s\U{ED}"), false)
  {
    assert Lower("s\U{ED}") == "s\U{ED}";
    StripPlainText("s\U{ED}");
    assert CellWord(Str("s\U{ED}")) == "s\U{ED}";
  }

  /** A non-zero float is a yes for `parse_bool_cell` only. */
  lemma NormalizarSiNoRejectsFloat(r: real)
    requires r != 0.0
    ensures NormalizarSiNo(Float(r)) == "no" && ParseBoolCell(Float(r), false)
  {
  }

  lemma StripPlainText(s: string)
    requires |s| > 0 && !IsSpace(s[0]) && !IsSpace(s[|s| - 1])
    ensures Strip(s) == s
  {
    TrimLeftNoop(s, IsSpace);
    TrimRightNoop(s, IsSpace);
  }

  // ---------------------------------------------------------------------
  // _is_pdf_url and _collect_pdf_items

  /** `_is_pdf_url(url)`: only text can be a PDF URL, and then exactly as
      the receipts window decides. */
  predicate IsPdfUrl(v: Value) {
    v.Str? && Rcel.PdfUrl(v.s)
  }

  /** `str(url).strip()`. */
  function UrlText(v: Value): string {
    Strip(Display(v))
  }

  /** The item has a value under the key, and it passes the test
      (`_is_pdf_url(item.get(key))`: a missing key reads as None, which is
      no URL). */
  predicate Hit(item: Value, key: string, isUrl: Value -> bool) {
    Field(item, key) != Null && isUrl(Field(item, key))
  }

  /** The keys an item's URL is looked for under, in order. */
  const UrlKeys: seq<string> := ["URL_MINIO", "url_minio", "url_pdf", "link_pdf", "url", "link"]

  /** The answer's lists that hold receipts, in the order they are read. */
  const ListKeys: seq<string> := ["facturas_emitidas", "facturas_recibidas", "comprobantes", "facturas"]

  // The scan is written for any list keys, URL keys and URL test;
  // `_collect_pdf_items` is the scan with `ListKeys`, `UrlKeys` and
  // `IsPdfUrl`.

  /** The first of `keys` whose value in the item passes the test. */
  function UrlUnderKeys(item: Value, keys: seq<string>, isUrl: Value -> bool): (r: Option<string>)
    ensures r.Some? ==> exists j :: 0 <= j < |keys| && Hit(item, keys[j], isUrl) && r.value == UrlText(Field(item, keys[j]))
    ensures r.None? <==> forall j :: 0 <= j < |keys| ==> !Hit(item, keys[j], isUrl)
    decreases |keys|
  {
    if |keys| == 0 then None
    else if Hit(item, keys[0], isUrl) then Some(UrlText(Field(item, keys[0])))
    else
      var r := UrlUnderKeys(item, keys[1..], isUrl);
      assert forall j :: 0 <= j < |keys[1..]| ==> keys[1..][j] == keys[j + 1];
      r
  }

  /** The key list is read in order: the first key that hits decides. */
  lemma {:induction false} UrlUnderKeysFirstHit(item: Value, keys: seq<string>, isUrl: Value -> bool, k: nat)
    requires k < |keys| && Hit(item, keys[k], isUrl)
    requires forall j :: 0 <= j < k ==> !Hit(item, keys[j], isUrl)
    ensures UrlUnderKeys(item, keys, isUrl) == Some(UrlText(Field(item, keys[k])))
    decreases k
  {
    if k > 0 {
      assert keys[1..][k - 1] == keys[k];
      assert forall j :: 0 <= j < k - 1 ==> keys[1..][j] == keys[j + 1];
      UrlUnderKeysFirstHit(item, keys[1..], isUrl, k - 1);
    }
  }

  /** The first value of the entries that passes the test. */
  function UrlAmongValues(entries: seq<(string, Value)>, isUrl: Value -> bool): (r: Option<string>)
    ensures r.Some? ==> exists j :: 0 <= j < |entries| && isUrl(entries[j].1) && r.value == UrlText(entries[j].1)
    ensures r.None? <==> forall j :: 0 <= j < |entries| ==> !isUrl(entries[j].1)
    decreases |entries|
  {
    if |entries| == 0 then None
    else if isUrl(entries[0].1) then Some(UrlText(entries[0].1))
    else
      var r := UrlAmongValues(entries[1..], isUrl);
      assert forall j :: 0 <= j < |entries[1..]| ==> entries[1..][j] == entries[j + 1];
      r
  }

  /** `_extract_item_pdf_url(item)` for the keys and test: the first fixed
      key whose value passes, else the first value that passes, as stripped
      text; None exactly when no value of the item passes. */
  function ItemUrl(item: Value, keys: seq<string>, isUrl: Value -> bool): (r: Option<string>)
    requires item.Dict?
    ensures (exists j :: 0 <= j < |keys| && Hit(item, keys[j], isUrl)) ==> r == UrlUnderKeys(item, keys, isUrl)
    ensures (forall j :: 0 <= j < |keys| ==> !Hit(item, keys[j], isUrl)) ==> r == UrlAmongValues(item.entries, isUrl)
    ensures r.Some? ==> exists j :: 0 <= j < |item.entries| && isUrl(item.entries[j].1) && r.value == UrlText(item.entries[j].1)
    ensures r.None? <==> forall j :: 0 <= j < |item.entries| ==> !isUrl(item.entries[j].1)
  {
    var fixed := UrlUnderKeys(item, keys, isUrl);
    if fixed.Some? then
      FixedKeyIsEntry(item, fixed.value, keys, isUrl);
      fixed
    else UrlAmongValues(item.entries, isUrl)
  }

  /** A URL found under a fixed key is one of the item's values. */
  lemma {:induction false} FixedKeyIsEntry(item: Value, url: string, keys: seq<string>, isUrl: Value -> bool)
    requires item.Dict? && UrlUnderKeys(item, keys, isUrl) == Some(url)
    ensures exists j :: 0 <= j < |item.entries| && isUrl(item.entries[j].1) && url == UrlText(item.entries[j].1)
    decreases |keys|
  {
    if Hit(item, keys[0], isUrl) {
      var v := Field(item, keys[0]);
      assert (keys[0], v) in item.entries;
      var j :| 0 <= j < |item.entries| && item.entries[j] == (keys[0], v);
      assert isUrl(item.entries[j].1);
    } else {
      FixedKeyIsEntry(item, url, keys[1..], isUrl);
    }
  }

  /** The fixed keys win: when the `k`-th fixed key is the first to hold a
      URL, that is the item's URL, whatever other entries hold. */
  lemma FixedKeyPreferred(item: Value, keys: seq<string>, isUrl: Value -> bool, k: nat)
    requires item.Dict? && k < |keys| && Hit(item, keys[k], isUrl)
    requires forall j :: 0 <= j < k ==> !Hit(item, keys[j], isUrl)
    ensures ItemUrl(item, keys, isUrl) == Some(UrlText(Field(item, keys[k])))
  {
    UrlUnderKeysFirstHit(item, keys, isUrl, k);
  }

  /** `_extract_item_pdf_url(item)`. */
  function ItemPdfUrl(item: Value): (r: Option<string>)
    requires item.Dict?
    ensures r == ItemUrl(item, UrlKeys, IsPdfUrl)
    ensures r.Some? ==> Rcel.PdfUrl(r.value) && Strip(r.value) == r.value
  {
    var r := ItemUrl(item, UrlKeys, IsPdfUrl);
    if r.Some? then
      var j :| 0 <= j < |item.entries| && IsPdfUrl(item.entries[j].1) && r.value == UrlText(item.entries[j].1);
      PdfUrlStripped(item.entries[j].1.s);
      r
    else r
  }

  /** Stripping a PDF URL keeps it one and leaves nothing to strip. */
  lemma PdfUrlStripped(s: string)
    requires Rcel.PdfUrl(s)
    ensures Rcel.PdfUrl(Strip(s)) && Strip(Strip(s)) == Strip(s)
  {
    TrimIdempotent(s, IsSpace);
  }

  // The lists are scanned with any item reader `urlOf`; the receipts scan
  // reads items with `PdfUrlOf`.

  /** The (URL, item) pairs of one list: its dict items the reader finds a
      URL in, in order, one pair each. */
  function ItemsWithUrl(items: seq<Value>, urlOf: Value -> Option<string>): (r: seq<(string, Value)>)
    ensures |r| <= |items|
    ensures forall p :: p in r ==> p.1 in items && p.1.Dict? && urlOf(p.1) == Some(p.0)
    ensures forall it :: it in items && it.Dict? && urlOf(it).Some? ==> (urlOf(it).value, it) in r
    decreases |items|
  {
    if |items| == 0 then []
    else
      var rest := ItemsWithUrl(items[1..], urlOf);
      var it := items[0];
      if it.Dict? && urlOf(it).Some? then [(urlOf(it).value, it)] + rest else rest
  }

  /** The pairs of the answer's value under one key, when it is a list. */
  function PairsUnder(data: Value, list: string, urlOf: Value -> Option<string>): (r: seq<(string, Value)>)
    ensures !Field(data, list).List? ==> r == []
    ensures Field(data, list).List? ==> r == ItemsWithUrl(Field(data, list).items, urlOf)
  {
    if Field(data, list).List? then ItemsWithUrl(Field(data, list).items, urlOf) else []
  }

  /** The parts of the keys, one after the other. */
  function ConcatParts<T>(keys: seq<string>, part: string -> seq<T>): seq<T>
    decreases |keys|
  {
    if |keys| == 0 then [] else part(keys[0]) + ConcatParts(keys[1..], part)
  }

  /** An element is among the parts exactly when it is in one part. */
  lemma {:induction false} ConcatPartsMember<T>(keys: seq<string>, part: string -> seq<T>, x: T)
    ensures x in ConcatParts(keys, part) <==> exists j :: 0 <= j < |keys| && x in part(keys[j])
    decreases |keys|
  {
    if |keys| > 0 {
      ConcatPartsMember(keys[1..], part, x);
      if x in ConcatParts(keys[1..], part) {
        var j :| 0 <= j < |keys[1..]| && x in part(keys[1..][j]);
        assert keys[1..][j] == keys[j + 1];
      }
      if exists j :: 0 <= j < |keys| && x in part(keys[j]) {
        var j :| 0 <= j < |keys| && x in part(keys[j]);
        if j > 0 {
          assert keys[1..][j - 1] == keys[j];
        }
      }
    }
  }

  /** Four keys give their four parts in order. */
  lemma ConcatFour<T>(keys: seq<string>, part: string -> seq<T>)
    requires |keys| == 4
    ensures ConcatParts(keys, part) == part(keys[0]) + part(keys[1]) + part(keys[2]) + part(keys[3])
  {
    var k1 := keys[1..];
    var k2 := k1[1..];
    var k3 := k2[1..];
    assert k3[1..] == [];
    assert ConcatParts(k3, part) == part(keys[3]) + [];
    assert ConcatParts(k2, part) == part(keys[2]) + ConcatParts(k3, part);
    assert ConcatParts(k1, part) == part(keys[1]) + ConcatParts(k2, part);
    var a, b, c, d := part(keys[0]), part(keys[1]), part(keys[2]), part(keys[3]);
    assert a + (b + (c + (d + []))) == a + b + c + d;
  }

  /** The scan: nothing for an answer that is not a dict; otherwise the
      (URL, item) pairs of every dict item of the lists the reader finds a
      URL in, and nothing else. */
  function Collect(data: Value, lists: seq<string>, urlOf: Value -> Option<string>): (r: seq<(string, Value)>)
    ensures !data.Dict? ==> r == []
    ensures forall p :: p in r ==> p.1.Dict? && urlOf(p.1) == Some(p.0)
    ensures forall p :: p in r ==>
      exists j :: 0 <= j < |lists| && Field(data, lists[j]).List? && p.1 in Field(data, lists[j]).items
    ensures data.Dict? ==> forall j, it ::
      (0 <= j < |lists| && Field(data, lists[j]).List? && it in Field(data, lists[j]).items && it.Dict? && urlOf(it).Some?)
      ==> (urlOf(it).value, it) in r
  {
    if !data.Dict? then []
    else
      var part := (l: string) => PairsUnder(data, l, urlOf);
      var r := ConcatParts(lists, part);
      forall p | p in r
        ensures p.1.Dict? && urlOf(p.1) == Some(p.0)
        ensures exists j :: 0 <= j < |lists| && Field(data, lists[j]).List? && p.1 in Field(data, lists[j]).items
      {
        ConcatPartsMember(lists, part, p);
      }
      forall j, it | 0 <= j < |lists| && Field(data, lists[j]).List? && it in Field(data, lists[j]).items
                     && it.Dict? && urlOf(it).Some?
        ensures (urlOf(it).value, it) in r
      {
        ConcatPartsMember(lists, part, (urlOf(it).value, it));
        assert (urlOf(it).value, it) in part(lists[j]);
      }
      r
  }

  /** The reader of `_collect_pdf_items`: a dict item's PDF URL. */
  function PdfUrlOf(item: Value): (r: Option<string>)
    ensures item.Dict? ==> r == ItemPdfUrl(item)
    ensures r.Some? ==> Rcel.PdfUrl(r.value)
  {
    if item.Dict? then ItemPdfUrl(item) else None
  }

  /** `_collect_pdf_items(data)`: nothing for an answer that is not a dict;
      otherwise every dict item of the four receipt lists that has a PDF URL,
      paired with that URL, and nothing else. */
  function CollectPdfItems(data: Value): (r: seq<(string, Value)>)
    ensures !data.Dict? ==> r == []
    ensures forall p :: p in r ==> p.1.Dict? && ItemPdfUrl(p.1) == Some(p.0) && Rcel.PdfUrl(p.0)
    ensures forall p :: p in r ==>
      exists j :: 0 <= j < |ListKeys| && Field(data, ListKeys[j]).List? && p.1 in Field(data, ListKeys[j]).items
    ensures data.Dict? ==> forall j, it ::
      (0 <= j < |ListKeys| && Field(data, ListKeys[j]).List? && it in Field(data, ListKeys[j]).items && it.Dict? && ItemPdfUrl(it).Some?)
      ==> (ItemPdfUrl(it).value, it) in r
  {
    var r := Collect(data, ListKeys, PdfUrlOf);
    forall p | p in r
      ensures p.1.Dict? && ItemPdfUrl(p.1) == Some(p.0) && Rcel.PdfUrl(p.0)
    {
      assert PdfUrlOf(p.1) == Some(p.0);
    }
    forall j, it | (0 <= j < |ListKeys| && Field(data, ListKeys[j]).List? && it in Field(data, ListKeys[j]).items
                    && it.Dict? && ItemPdfUrl(it).Some?)
      ensures (ItemPdfUrl(it).value, it) in r
    {
      assert PdfUrlOf(it) == ItemPdfUrl(it);
    }
    r
  }

  /** The lists are read in their order, list after list: for the four
      receipt lists, the emitted invoices, then the received ones, then
      `comprobantes`, then `facturas`. */
  lemma CollectOrder(data: Value, lists: seq<string>, urlOf: Value -> Option<string>)
    requires data.Dict? && |lists| == 4
    ensures Collect(data, lists, urlOf)
         == PairsUnder(data, lists[0], urlOf) + PairsUnder(data, lists[1], urlOf)
          + PairsUnder(data, lists[2], urlOf) + PairsUnder(data, lists[3], urlOf)
  {
    ConcatFour(lists, (l: string) => PairsUnder(data, l, urlOf));
  }

  // ---------------------------------------------------------------------
  // procesar_descarga_mc

  /** What the row asks `consulta_mc` for (files always go to storage). */
  datatype ControlRequest = ControlRequest(desde: string, hasta: string, cuitRepresentante: string, nombre: string,
                                           cuitRepresentado: string, clave: string, emitidos: bool, recibidos: bool)

  /** `str(row.get(column, "")).strip()`. */
  function RowField(row: Row, column: string): string {
    Strip(RowText(row, column))
  }

  /** The row's name for the taxpayer, `Contribuyente` when blank. */
  function Denominacion(row: Row): (r: string)
    ensures |r| > 0
    ensures |RowField(row, "Denominacion_MC")| > 0 ==> r == RowField(row, "Denominacion_MC")
  {
    var n := RowField(row, "Denominacion_MC");
    if |n| > 0 then n else "Contribuyente"
  }

  /** The request of a row; `formatDate` is `format_date_str`. */
  function RequestOf(row: Row, formatDate: Value -> string): (q: ControlRequest)
    ensures q.emitidos <==> NormalizarSiNo(Cell(row, "Descarga_MC_emitidos")) == "si"
    ensures q.recibidos <==> NormalizarSiNo(Cell(row, "Descarga_MC_recibidos")) == "si"
    ensures q.nombre == Denominacion(row)
  {
    ControlRequest(formatDate(if "Desde_MC" in row then row["Desde_MC"] else Str("")),
                   formatDate(if "Hasta_MC" in row then row["Hasta_MC"] else Str("")),
                   RowField(row, "CUIT_Representante"), Denominacion(row), RowField(row, "CUIT_Representado"),
                   RowField(row, "Clave_representante"),
                   NormalizarSiNo(Cell(row, "Descarga_MC_emitidos")) == "si",
                   NormalizarSiNo(Cell(row, "Descarga_MC_recibidos")) == "si")
  }

  /** One archive to fetch: its URL, where the ZIP goes and the CSV it is
      extracted to. */
  datatype McArchive = McArchive(url: string, zip: string, csv: string)

  /** What a row comes to. */
  datatype McStep =
    | NotSelected                           // Descarga_MC is not yes: no call
    | NoKinds                               // neither kind selected: no call
    | ApiFailed(error: string)              // the answer reports failure
    | Raised                                // the function's own `except` ends the row (see RaisesAt)
    | Planned(base: string, archives: seq<McArchive>)

  /** The ZIP name: the URL path's basename, or the kind's default. */
  function ZipName(url: string, defaultName: string): (r: string)
    requires |defaultName| > 0 && '/' !in defaultName
    ensures |r| > 0 && '/' !in r
    ensures |Basename(UrlPath(url))| > 0 ==> r == Basename(UrlPath(url))
    ensures |Basename(UrlPath(url))| == 0 ==> r == defaultName
  {
    var b := Basename(UrlPath(url));
    if |b| > 0 then b else defaultName
  }

  /** The archive of one URL: the ZIP inside the base folder, the CSV named
      after the ZIP's stem inside `<base>/extraido`. */
  function ArchiveOf(url: string, base: string, defaultName: string): (a: McArchive)
    requires |defaultName| > 0 && '/' !in defaultName
    ensures a.url == url
    ensures a.zip == PathJoin(base, ZipName(url, defaultName))
    ensures a.csv == PathJoin(PathJoin(base, "extraido"), SplitExt(ZipName(url, defaultName)).0 + ".csv")
    ensures EndsWith(a.zip, ZipName(url, defaultName)) && EndsWith(a.csv, ".csv")
  {
    var name := ZipName(url, defaultName);
    var csvName := SplitExt(name).0 + ".csv";
    assert csvName[|csvName| - 4..] == ".csv";
    SuffixOfJoin(PathJoin(base, "extraido"), csvName, ".csv");
    McArchive(url, PathJoin(base, name), PathJoin(PathJoin(base, "extraido"), csvName))
  }

  lemma SuffixOfJoin(a: string, b: string, t: string)
    requires |t| > 0 && EndsWith(b, t)
    ensures EndsWith(PathJoin(a, b), t)
  {
    MisComprobantes.JoinEndsWith(a, b);
    MisComprobantes.SuffixOfSuffix(PathJoin(a, b), b, t);
  }

  /** Without a file name in the URL the archive takes the kind's default
      name (`Emitidos.zip`, `Recibidos.zip`), and its CSV the default's stem
      (`extraido/Emitidos.csv`). */
  lemma DefaultArchive(url: string, base: string, stem: string, ext: string)
    requires |Basename(UrlPath(url))| == 0
    requires |stem| > 0 && stem[0] != '.' && '/' !in stem
    requires |ext| > 0 && ext[0] == '.' && '.' !in ext[1..] && '/' !in ext
    ensures ArchiveOf(url, base, stem + ext).zip == PathJoin(base, stem + ext)
    ensures ArchiveOf(url, base, stem + ext).csv == PathJoin(PathJoin(base, "extraido"), stem + ".csv")
  {
    SplitExtOfName(stem, ext);
  }

  /** The archive of a kind when it is selected and its URL is truthy. */
  function KindArchive(resp: Value, selected: bool, key: string, base: string, defaultName: string)
    : (r: Option<McArchive>)
    requires |defaultName| > 0 && '/' !in defaultName
    requires !(selected && Truthy(Field(resp, key))) || Field(resp, key).Str?
    ensures r.Some? <==> selected && Truthy(Field(resp, key))
    ensures r.Some? ==> r.value == ArchiveOf(Field(resp, key).s, base, defaultName)
  {
    if selected && Truthy(Field(resp, key)) then Some(ArchiveOf(Field(resp, key).s, base, defaultName)) else None
  }

  /** A selected kind whose URL is truthy but not text. */
  predicate BadUrl(resp: Value, selected: bool, key: string) {
    selected && Truthy(Field(resp, key)) && !Field(resp, key).Str?
  }

  /** The answer's error text: `error` if the answer has it, else `detail`,
      else `Error desconocido` (this caller never looks at `message`). */
  function ErrorText(resp: Value): (r: string)
    ensures MisComprobantes.Has(resp, "error") ==> r == Display(Field(resp, "error"))
    ensures !MisComprobantes.Has(resp, "error") && MisComprobantes.Has(resp, "detail") ==> r == Display(Field(resp, "detail"))
    ensures !MisComprobantes.Has(resp, "error") && !MisComprobantes.Has(resp, "detail") ==> r == "Error desconocido"
  {
    Display(MisComprobantes.GetOr(resp, "error", MisComprobantes.GetOr(resp, "detail", Str("Error desconocido"))))
  }

  /** The folder the archives go to: the row's stripped location, or the
      invoice batch's fallback folder for this taxpayer. */
  function BaseDir(row: Row, q: ControlRequest, writable: string -> bool, creatable: string -> bool): (r: string)
    ensures |r| > 0
    ensures |RowField(row, "Ubicacion_Descarga_MC")| > 0 ==> r == RowField(row, "Ubicacion_Descarga_MC")
  {
    var given := RowField(row, "Ubicacion_Descarga_MC");
    if |given| > 0 then given
    else MisComprobantes.CrearDirectorioSeguro(Str(""), q.nombre, Some(q.cuitRepresentado), None,
                                               Some(q.cuitRepresentante), writable, creatable)
  }

  /** A given `Ubicacion_Descarga_MC` is created with `os.makedirs`, which
      raises when it cannot create the folder. */
  predicate GivenBaseFails(row: Row, creatable: string -> bool) {
    |RowField(row, "Ubicacion_Descarga_MC")| > 0 && !creatable(RowField(row, "Ubicacion_Descarga_MC"))
  }

  /** Where an answer makes the row's `try` raise: `response.get` on an
      answer that is not an object; or, past a good answer, the given folder
      that cannot be created, or `urlparse` of a selected URL that is not
      text. */
  predicate RaisesAt(row: Row, q: ControlRequest, resp: Value, creatable: string -> bool) {
    !resp.Dict?
    || (!MisComprobantes.Failed(resp)
        && (GivenBaseFails(row, creatable)
            || BadUrl(resp, q.emitidos, EmitidosKey) || BadUrl(resp, q.recibidos, RecibidosKey)))
  }

  /** The archives of a good answer, emitted before received. */
  function Archives(resp: Value, q: ControlRequest, base: string): (r: seq<McArchive>)
    requires !BadUrl(resp, q.emitidos, EmitidosKey) && !BadUrl(resp, q.recibidos, RecibidosKey)
    ensures |r| <= 2
    ensures (q.emitidos && Truthy(Field(resp, EmitidosKey)))
        ==> |r| > 0 && r[0] == ArchiveOf(Field(resp, EmitidosKey).s, base, "Emitidos.zip")
    ensures (q.recibidos && Truthy(Field(resp, RecibidosKey)))
        ==> |r| > 0 && r[|r| - 1] == ArchiveOf(Field(resp, RecibidosKey).s, base, "Recibidos.zip")
    ensures |r| == (if q.emitidos && Truthy(Field(resp, EmitidosKey)) then 1 else 0)
                 + (if q.recibidos && Truthy(Field(resp, RecibidosKey)) then 1 else 0)
  {
    var e := KindArchive(resp, q.emitidos, EmitidosKey, base, "Emitidos.zip");
    var r := KindArchive(resp, q.recibidos, RecibidosKey, base, "Recibidos.zip");
    (if e.Some? then [e.value] else []) + (if r.Some? then [r.value] else [])
  }

  const EmitidosKey := MisComprobantes.EmitidosKey
  const RecibidosKey := MisComprobantes.RecibidosKey

  /** `procesar_descarga_mc(row)` given the service's answer to each
      request (`answer` stands for `consulta_mc`) and the folder probes:
      the five outcomes split the rows between them. */
  function ProcessMc(row: Row, formatDate: Value -> string, answer: ControlRequest -> Value,
                     writable: string -> bool, creatable: string -> bool): (s: McStep)
    ensures s.NotSelected? <==> NormalizarSiNo(Cell(row, "Descarga_MC")) != "si"
    ensures s.NoKinds? <==>
      NormalizarSiNo(Cell(row, "Descarga_MC")) == "si"
      && !RequestOf(row, formatDate).emitidos && !RequestOf(row, formatDate).recibidos
    ensures s.ApiFailed? <==>
      NormalizarSiNo(Cell(row, "Descarga_MC")) == "si"
      && (RequestOf(row, formatDate).emitidos || RequestOf(row, formatDate).recibidos)
      && answer(RequestOf(row, formatDate)).Dict? && MisComprobantes.Failed(answer(RequestOf(row, formatDate)))
    ensures s.ApiFailed? ==> s.error == ErrorText(answer(RequestOf(row, formatDate)))
    ensures s.Raised? <==>
      var q := RequestOf(row, formatDate);
      && NormalizarSiNo(Cell(row, "Descarga_MC")) == "si"
      && (q.emitidos || q.recibidos)
      && RaisesAt(row, q, answer(q), creatable)
    ensures s.Planned? ==> s.base == BaseDir(row, RequestOf(row, formatDate), writable, creatable)
    ensures s.Planned? ==>
      var q := RequestOf(row, formatDate);
      && !BadUrl(answer(q), q.emitidos, EmitidosKey) && !BadUrl(answer(q), q.recibidos, RecibidosKey)
      && s.archives == Archives(answer(q), q, s.base)
  {
    var q := RequestOf(row, formatDate);
    if NormalizarSiNo(Cell(row, "Descarga_MC")) != "si" then NotSelected
    else if !q.emitidos && !q.recibidos then NoKinds
    else
      var resp := answer(q);
      if !resp.Dict? then Raised
      else if MisComprobantes.Failed(resp) then ApiFailed(ErrorText(resp))
      else if GivenBaseFails(row, creatable) then Raised
      else
        var base := BaseDir(row, q, writable, creatable);
        if BadUrl(resp, q.emitidos, EmitidosKey) || BadUrl(resp, q.recibidos, RecibidosKey) then Raised
        else Planned(base, Archives(resp, q, base))
  }

  /** Skipped rows never reach the service: their outcome is the same
      whatever it would answer. */
  lemma SkippedRowsMakeNoCall(row: Row, formatDate: Value -> string, a1: ControlRequest -> Value,
                              a2: ControlRequest -> Value, writable: string -> bool, creatable: string -> bool)
    requires NormalizarSiNo(Cell(row, "Descarga_MC")) != "si"
          || (!RequestOf(row, formatDate).emitidos && !RequestOf(row, formatDate).recibidos)
    ensures ProcessMc(row, formatDate, a1, writable, creatable) == ProcessMc(row, formatDate, a2, writable, creatable)
    ensures ProcessMc(row, formatDate, a1, writable, creatable).NotSelected?
         || ProcessMc(row, formatDate, a1, writable, creatable).NoKinds?
  {
  }
}
