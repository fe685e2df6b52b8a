/** The electronic-invoice window (`rcel`): where it saves the invoices,
    the PDF links it finds in an answer, how it downloads them and what one
    spreadsheet row turns into. Its identifier sanitiser and its writability
    probe are the shared ones (`MinioHelpers.SanitizeIdentifier`,
    `MinioHelpers.IsWritableDir`); its row filter is the declarations
    window's (`DeclaracionEnLinea.FilterProcesar`). */
module Rcel {
  import opened Prelude
  import opened Text
  import opened Json
  import opened Urls
  import opened Batch
  import opened MinioHelpers
  import opened MinioLinks
  import opened Mixins

  const ModuleDir := "RCEL"
  const DefaultPdfName := "factura.pdf"
  const NoFolderMessage := "No se pudo preparar una carpeta para descargas."

  // ---------------------------------------------------------------------
  // _prepare_download_dir

  /** `_prepare_download_dir(desired, cuit_repr)`: the stripped desired
      folder when it is usable, silently; otherwise `descargas/RCEL/<cuit>`,
      with a note; otherwise no folder and an explanation. */
  function PrepareDir(desired: string, cuitRepr: string, writable: string -> bool): (r: DirChoice)
    ensures r.dir == Some(Strip(desired)) && r.messages == [] <==> IsWritableDir(Strip(desired), writable)
    ensures r.dir.Some? ==> IsWritableDir(r.dir.value, writable)
    ensures r.dir.Some? && r.dir.value != Strip(desired) ==>
      r.dir.value == PathJoin(PathJoin("descargas", "RCEL"),
                              SanitizeIdentifier(if |cuitRepr| > 0 then cuitRepr else "desconocido", "desconocido"))
    ensures r.dir.None? <==> !IsWritableDir(Strip(desired), writable) && !IsWritableDir(FallbackDir(ModuleDir, cuitRepr), writable)
    ensures r.dir.None? ==> |r.messages| > 0
  {
    PrepareDownloadDir(ModuleDir, desired, cuitRepr, writable)
  }

  // ---------------------------------------------------------------------
  // _extract_pdf_links

  /** The PDF test on a text (also `_is_pdf_url` of the monotributo
      control): once stripped it starts with `http`, and in lower case it
      mentions `minio` or its part before the first `?` ends with `.pdf`.
      The window lower-cases that part a second time, which changes nothing
      (`Text.LowerIdempotent`). */
  predicate PdfUrl(s: string) {
    var url := Strip(s);
    var lowered := Lower(url);
    IsHttp(url) && (Contains(lowered, "minio") || EndsWith(Before(lowered, '?'), ".pdf"))
  }

  /** The file name of a PDF link: the basename of the URL's path, not
      decoded, or `factura.pdf`. */
  function PdfFileName(url: string): (r: string)
    ensures |r| > 0
    ensures |Basename(UrlPath(url))| > 0 ==> r == Basename(UrlPath(url))
    ensures |Basename(UrlPath(url))| == 0 ==> r == DefaultPdfName
  {
    var base := Basename(UrlPath(url));
    if |base| > 0 then base else DefaultPdfName
  }

  /** What `add_link` makes of one text: a link to the stripped URL when it
      passes the PDF test. */
  function PdfLink(s: string): (r: Option<Link>)
    ensures r.Some? <==> PdfUrl(s)
    ensures r.Some? ==> GoodLink(r.value) && r.value.url == Strip(s) && r.value.filename == PdfFileName(Strip(s))
  {
    if PdfUrl(s) then
      TrimIdempotent(s, IsSpace);
      Some(Link(Strip(s), PdfFileName(Strip(s))))
    else None
  }

  /** The texts `walk` hands to `add_link`, in visiting order: the text
      values of dicts, at any depth. A text that is the answer itself or an
      item of a list is never looked at. */
  function PdfTexts(v: Value): (r: seq<string>)
    decreases v, 1
  {
    match v
    case Dict(_) => PdfTextsDict(v, 0)
    case List(_) => PdfTextsList(v, 0)
    case _ => []
  }

  function PdfTextsDict(v: Value, i: nat): seq<string>
    requires v.Dict? && i <= |v.entries|
    decreases v, 0, |v.entries| - i
  {
    if i == |v.entries| then []
    else
      var x := v.entries[i].1;
      assert v.entries[i] in v.entries;
      var here := if x.Dict? || x.List? then PdfTexts(x) else if x.Str? then [x.s] else [];
      here + PdfTextsDict(v, i + 1)
  }

  function PdfTextsList(v: Value, i: nat): seq<string>
    requires v.List? && i <= |v.items|
    decreases v, 0, |v.items| - i
  {
    if i == |v.items| then []
    else
      assert v.items[i] in v.items;
      PdfTexts(v.items[i]) + PdfTextsList(v, i + 1)
  }

  /** The links the texts make, in order, one per text that makes one. */
  function Options(texts: seq<string>, make: string -> Option<Link>): (r: seq<Option<Link>>)
    ensures |r| == |texts|
    ensures forall i :: 0 <= i < |texts| ==> r[i] == make(texts[i])
  {
    seq(|texts|, i requires 0 <= i < |texts| => make(texts[i]))
  }

  /** The links a run of visited texts adds: first seen first, each pair
      once. */
  function LinksOf(texts: seq<string>, make: string -> Option<Link>): (r: seq<Link>)
    ensures NoDup(r)
  {
    Dedup(Options(texts, make))
  }

  /** `_extract_pdf_links(data)`: the accepted texts' links, first seen
      first, each `(url, filename)` pair once. */
  function ExtractPdfLinks(data: Value): (r: seq<Link>)
    ensures WellFormed(r)
  {
    DedupWellFormed(Options(PdfTexts(data), PdfLink));
    LinksOf(PdfTexts(data), PdfLink)
  }

  /** A link is found exactly when some visited text passes the PDF test
      and makes it. */
  lemma ExtractPdfLinksMember(data: Value, l: Link)
    ensures l in ExtractPdfLinks(data) <==>
      exists i :: 0 <= i < |PdfTexts(data)| && PdfLink(PdfTexts(data)[i]) == Some(l)
  {
    var texts := PdfTexts(data);
    ExtractIsLinksOf(data);
    LinksOfMember(texts, PdfLink, l);
  }

  lemma ExtractIsLinksOf(data: Value)
    ensures ExtractPdfLinks(data) == LinksOf(PdfTexts(data), PdfLink)
  {
  }

  lemma LinksOfMember(texts: seq<string>, make: string -> Option<Link>, l: Link)
    ensures l in LinksOf(texts, make) <==> exists i :: 0 <= i < |texts| && make(texts[i]) == Some(l)
  {
    var opts := Options(texts, make);
    if Some(l) in opts {
      var i :| 0 <= i < |opts| && opts[i] == Some(l);
      assert make(texts[i]) == Some(l);
    }
  }

  /** Texts directly inside a list are skipped, however they look. */
  lemma ListTextsIgnored(texts: seq<string>)
    ensures PdfTexts(List(seq(|texts|, i requires 0 <= i < |texts| => Str(texts[i])))) == []
  {
    var v := List(seq(|texts|, i requires 0 <= i < |texts| => Str(texts[i])));
    ListTextsFrom(v, 0);
  }

  lemma {:induction false} ListTextsFrom(v: Value, i: nat)
    requires v.List? && i <= |v.items|
    requires forall j :: 0 <= j < |v.items| ==> v.items[j].Str?
    ensures PdfTextsList(v, i) == []
    decreases |v.items| - i
  {
    if i < |v.items| {
      ListTextsFrom(v, i + 1);
    }
  }

  /** A text under a dict key is looked at, and an http PDF URL there gives
      its link. */
  lemma DictTextFound(key: string, s: string)
    requires PdfUrl(s)
    ensures ExtractPdfLinks(Dict([(key, Str(s))])) == [PdfLink(s).value]
  {
    SingleEntryTexts(key, s);
    OneText(s, PdfLink, PdfLink(s).value);
  }

  /** The same URL under two keys is one link. */
  lemma DuplicateUrlOnce(k1: string, k2: string, s: string)
    requires PdfUrl(s)
    ensures ExtractPdfLinks(Dict([(k1, Str(s)), (k2, Str(s))])) == [PdfLink(s).value]
  {
    TwoEntryTexts(k1, k2, s);
    TwiceText(s, PdfLink, PdfLink(s).value);
  }

  lemma OneText(s: string, make: string -> Option<Link>, l: Link)
    requires make(s) == Some(l)
    ensures LinksOf([s], make) == [l]
  {
    assert Options([s], make) == [Some(l)];
    DedupOne(l);
  }

  lemma TwiceText(s: string, make: string -> Option<Link>, l: Link)
    requires make(s) == Some(l)
    ensures LinksOf([s, s], make) == [l]
  {
    assert Options([s, s], make) == [Some(l), Some(l)];
    DedupTwice(l);
  }

  lemma SingleEntryTexts(key: string, s: string)
    ensures PdfTexts(Dict([(key, Str(s))])) == [s]
  {
    var v := Dict([(key, Str(s))]);
    assert PdfTextsDict(v, 1) == [];
  }

  lemma TwoEntryTexts(k1: string, k2: string, s: string)
    ensures PdfTexts(Dict([(k1, Str(s)), (k2, Str(s))])) == [s, s]
  {
    var v := Dict([(k1, Str(s)), (k2, Str(s))]);
    assert PdfTextsDict(v, 2) == [];
    assert PdfTextsDict(v, 1) == [s];
  }

  lemma DedupOne(l: Link)
    ensures Dedup([Some(l)]) == [l]
  {
    assert AddUnique([], Some(l)) == [l];
    AddAllAbsorbs([l], []);
    assert [Some(l)][1..] == [];
  }

  lemma DedupTwice(l: Link)
    ensures Dedup([Some(l), Some(l)]) == [l]
  {
    assert AddUnique([], Some(l)) == [l];
    AddAllAbsorbs([l], [Some(l)]);
    assert [Some(l), Some(l)][1..] == [Some(l)];
  }

  // ---------------------------------------------------------------------
  // _download_pdfs

  /** The name a link is saved and reported under. */
  function PdfName(link: Link): (r: string)
    ensures |r| > 0
  {
    if |link.filename| > 0 then link.filename else DefaultPdfName
  }

  /** The error line of one link, or none when it was saved: a link
      without URL is not fetched; otherwise the transport is asked to write
      `<dir>/<name>`, with no renaming when the name is taken. */
  function PdfError(link: Link, destDir: string, fetch: (string, string) -> FetchResult): (r: Option<string>)
    ensures |link.url| == 0 ==> r == Some(PdfName(link) + ": URL vac\U{ED}a")
    ensures |link.url| > 0 ==> (r.None? <==> fetch(link.url, PathJoin(destDir, PdfName(link))).success)
  {
    if |link.url| == 0 then Some(PdfName(link) + ": URL vac\U{ED}a")
    else
      var res := fetch(link.url, PathJoin(destDir, PdfName(link)));
      if res.success then None
      else Some(PdfName(link) + ": " + (if |res.error| > 0 then res.error else "Error al descargar"))
  }

  predicate PdfSaved(link: Link, destDir: string, fetch: (string, string) -> FetchResult) {
    PdfError(link, destDir, fetch).None?
  }

  /** The error lines of the links, in order. */
  function PdfErrors(links: seq<Link>, destDir: string, fetch: (string, string) -> FetchResult): (r: seq<string>)
    decreases |links|
  {
    if |links| == 0 then []
    else
      var last := PdfError(links[|links| - 1], destDir, fetch);
      PdfErrors(links[..|links| - 1], destDir, fetch) + (if last.Some? then [last.value] else [])
  }

  /** How many links were saved. */
  function PdfSavedCount(links: seq<Link>, destDir: string, fetch: (string, string) -> FetchResult): (n: nat)
    ensures n + |PdfErrors(links, destDir, fetch)| == |links|
    decreases |links|
  {
    if |links| == 0 then 0
    else
      PdfSavedCount(links[..|links| - 1], destDir, fetch)
        + (if PdfSaved(links[|links| - 1], destDir, fetch) then 1 else 0)
  }

  /** `_download_pdfs(links, dest_dir)`: no folder gives the one message
      and no download; otherwise every link is tried in order, a failure does
      not stop the later ones, and each link is saved or reported. */
  method DownloadPdfs(links: seq<Link>, destDir: string, fetch: (string, string) -> FetchResult)
    returns (successes: nat, errors: seq<string>)
    ensures |destDir| == 0 ==> successes == 0 && errors == [NoDirMessage]
    ensures |destDir| > 0 ==> successes == PdfSavedCount(links, destDir, fetch)
    ensures |destDir| > 0 ==> errors == PdfErrors(links, destDir, fetch)
    ensures |destDir| > 0 ==> successes + |errors| == |links|
  {
    if |destDir| == 0 {
      return 0, [NoDirMessage];
    }
    successes, errors := 0, [];
    var i := 0;
    while i < |links|
      invariant i <= |links|
      invariant successes == PdfSavedCount(links[..i], destDir, fetch)
      invariant errors == PdfErrors(links[..i], destDir, fetch)
    {
      assert links[..i + 1][..i] == links[..i];
      var e := PdfError(links[i], destDir, fetch);
      if e.None? {
        successes := successes + 1;
      } else {
        errors := errors + [e.value];
      }
      i := i + 1;
    }
    assert links[..i] == links;
  }

  /** Two links with the same name are written to the same file: the later
      one overwrites the earlier. */
  lemma SameNameSameTarget(a: Link, b: Link, destDir: string, fetch: (string, string) -> FetchResult)
    requires |a.url| > 0 && a.url == b.url && PdfName(a) == PdfName(b)
    ensures PdfError(a, destDir, fetch) == PdfError(b, destDir, fetch)
  {
  }

  // ---------------------------------------------------------------------
  // procesar_excel, one row

  /** A window field's text when the row's cell is blank. */
  function RowOr(row: Row, column: string, windowValue: string): (r: string)
    ensures |Strip(RowText(row, column))| > 0 ==> r == Strip(RowText(row, column))
    ensures |Strip(RowText(row, column))| == 0 ==> r == Strip(windowValue)
  {
    var cell := Strip(RowText(row, column));
    if |cell| > 0 then cell else Strip(windowValue)
  }

  /** The request body: the fields in the order the window writes them. */
  function PayloadEntries(desde: string, hasta: string, representante: string, nombre: string,
                          representado: string, clave: string, b64: bool, minio: bool)
    : (r: seq<(string, Value)>)
    ensures |r| == 8
    ensures Keys(r) == ["desde", "hasta", "cuit_representante", "nombre_rcel", "representado_cuit", "clave", "b64_pdf", "minio_upload"]
  {
    [("desde", Str(desde)),
     ("hasta", Str(hasta)),
     ("cuit_representante", Str(representante)),
     ("nombre_rcel", Str(nombre)),
     ("representado_cuit", Str(representado)),
     ("clave", Str(clave)),
     ("b64_pdf", Bool(b64)),
     ("minio_upload", Bool(minio))]
  }

  /** The row's represented CUIT, stripped. */
  function RowRepresentado(row: Row): string {
    Strip(RowText(row, "representado_cuit"))
  }

  /** The request body of a row; `desde`, `hasta`, `b64` and `minio` are the
      window's fields. */
  function RcelPayload(row: Row, desde: string, hasta: string, b64: bool, minio: bool): seq<(string, Value)> {
    PayloadEntries(RowOr(row, "desde", desde), RowOr(row, "hasta", hasta),
                   Strip(RowText(row, "cuit_representante")), Strip(RowText(row, "nombre_rcel")),
                   RowRepresentado(row), RowText(row, "clave"), b64, minio)
  }

  /** The period and the options the request carries. */
  lemma PayloadFields(desde: string, hasta: string, representante: string, nombre: string,
                      representado: string, clave: string, b64: bool, minio: bool)
    ensures Get(PayloadEntries(desde, hasta, representante, nombre, representado, clave, b64, minio), "desde") == Some(Str(desde))
    ensures Get(PayloadEntries(desde, hasta, representante, nombre, representado, clave, b64, minio), "hasta") == Some(Str(hasta))
    ensures Get(PayloadEntries(desde, hasta, representante, nombre, representado, clave, b64, minio), "b64_pdf") == Some(Bool(b64))
    ensures Get(PayloadEntries(desde, hasta, representante, nombre, representado, clave, b64, minio), "minio_upload") == Some(Bool(minio))
  {
    var r := PayloadEntries(desde, hasta, representante, nombre, representado, clave, b64, minio);
    GetAt(r, 0);
    GetAt(r, 1);
    GetAt(r, 6);
    GetAt(r, 7);
  }

  /** A row of the results table. */
  datatype RcelRow = RcelRow(cuit: string, httpStatus: Option<int>, success: Value, message: Value,
                             downloads: nat, downloadErrors: Option<string>, folder: Option<string>)

  /** The download step of a row: only a dict answer with PDF links
      resolves a folder; without one the row reports the folder message. */
  method DownloadFromData(data: Value, desired: string, cuitRepr: string,
                          writable: string -> bool, fetch: (string, string) -> FetchResult)
    returns (downloads: nat, errors: seq<string>, dir: Option<string>)
    ensures var links := if data.Dict? then ExtractPdfLinks(data) else [];
      && (|links| == 0 ==> downloads == 0 && errors == [] && dir.None?)
      && (|links| > 0 ==> dir == PrepareDir(desired, cuitRepr, writable).dir)
      && (|links| > 0 && dir.None? ==> downloads == 0 && errors == [NoFolderMessage])
      && (|links| > 0 && dir.Some? ==>
            downloads == PdfSavedCount(links, dir.value, fetch) && errors == PdfErrors(links, dir.value, fetch))
  {
    downloads, errors, dir := 0, [], None;
    if data.Dict? {
      var links := ExtractPdfLinks(data);
      if |links| > 0 {
        dir := PrepareDir(desired, cuitRepr, writable).dir;
        if dir.Some? {
          downloads, errors := DownloadPdfs(links, dir.value, fetch);
        } else {
          errors := [NoFolderMessage];
        }
      }
    }
  }

  /** One row of `procesar_excel`: `post(payload)` is the single answer, no
      retry and no abort. When the answer is a dict with PDF links, the
      folder is resolved from the row's folder (or the window's) and the
      represented CUIT, and the PDFs are downloaded into it. */
  method ProcessRowRcel(row: Row, desde: string, hasta: string, b64: bool, minio: bool,
                        post: seq<(string, Value)> -> Response, windowDir: string,
                        writable: string -> bool, fetch: (string, string) -> FetchResult)
    returns (r: RcelRow)
    ensures var resp := post(RcelPayload(row, desde, hasta, b64, minio));
      var links := if resp.data.Dict? then ExtractPdfLinks(resp.data) else [];
      var choice := PrepareDir(TargetDir(RowDownload(row), windowDir), RowRepresentado(row), writable);
      && r.cuit == RowRepresentado(row)
      && r.httpStatus == resp.status
      && r.success == Field(resp.data, "success")
      && r.message == Field(resp.data, "message")
      && (|links| == 0 ==> r.downloads == 0 && r.downloadErrors.None? && r.folder.None?)
      && (|links| > 0 ==> r.folder == choice.dir)
      && (|links| > 0 && r.folder.None? ==> r.downloads == 0 && r.downloadErrors == Some(NoFolderMessage))
      && (|links| > 0 && r.folder.Some? ==>
            r.downloads == PdfSavedCount(links, r.folder.value, fetch)
            && r.downloadErrors == ErrorCell(PdfErrors(links, r.folder.value, fetch)))
  {
    var resp := post(RcelPayload(row, desde, hasta, b64, minio));
    var downloads, errors, dir := DownloadFromData(resp.data, TargetDir(RowDownload(row), windowDir),
                                                   RowRepresentado(row), writable, fetch);
    r := RcelRow(RowRepresentado(row), resp.status, Field(resp.data, "success"), Field(resp.data, "message"),
                 downloads, ErrorCell(errors), dir);
  }
}
