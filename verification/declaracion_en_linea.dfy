/** The online-declaration window (`declaracion_en_linea`): its own row
    filter, where it finds the answer's files, how it names the JSON copies
    of the declarations it saves, and what one spreadsheet row turns into. */
module DeclaracionEnLinea {
  import opened Prelude
  import opened Digits
  import opened Text
  import opened Json
  import opened Urls
  import opened Helpers
  import opened MinioHelpers
  import opened MinioLinks
  import opened ServiceLinks
  import opened Mixins
  import opened Batch

  const ModuleDir := "Declaracion_en_Linea"
  const LinkPrefix := "ddjj"
  const ListKey := "archivos"

  /** The item fields that may hold a file's URL, in the order they are
      tried, and the label each one's file is named by. */
  const LinkKeys: seq<string> := ["link_minio_ddjj_excel", "link_minio_dj", "link_minio_vep"]
  const LinkLabels: seq<string> := ["ddjj_excel", "dj", "vep"]

  // ---------------------------------------------------------------------
  // _filter_procesar

  /** `_filter_procesar`: unlike the mixin, the cell is lower-cased but not
      stripped, and a cell that is not text is dropped. */
  function FilterProcesar(df: Option<Frame>): (r: Option<Frame>)
    ensures r.None? <==> df.None?
    ensures df.Some? ==> r.value.columns == df.value.columns
    ensures df.Some? && ProcesarColumn !in df.value.columns ==> r == df
    ensures df.Some? ==> IsSubsequence(r.value.rows, df.value.rows)
    ensures df.Some? && ProcesarColumn in df.value.columns ==>
      (forall row :: row in r.value.rows <==>
         row in df.value.rows && Cell(row, ProcesarColumn).Str? && Lower(Cell(row, ProcesarColumn).s) in AffirmativeWords)
      && |r.value.rows| == Count(df.value.rows, ProcesarTest(LowerTest(AffirmativeWords)))
  {
    FilterRows(df, LowerTest(AffirmativeWords))
  }

  /** Capitals pass the window's test. */
  lemma FilterCapitals()
    ensures LowerTest(AffirmativeWords)(Str("SI"))
  {
    assert Lower("SI") == "si" by {
      assert LowerChar('S') == 's' && LowerChar('I') == 'i';
    }
  }

  /** A blank around the word fails the window's test, although the
      mixin's test lets it through. */
  lemma FilterPadded()
    ensures !LowerTest(AffirmativeWords)(Str(" si "))
    ensures Affirmative(Str(" si "))
  {
    PaddedLength();
    AffirmativeSpelling("si", " ");
    assert " " + "si" + " " == " si ";
  }

  lemma PaddedLength()
    ensures Lower(" si ") !in AffirmativeWords
  {
    var w := Lower(" si ");
    assert |w| == 4;
    assert w != "si" && w != "s\U{ED}" && w != "yes" && w != "y" && w != "1";
  }

  // ---------------------------------------------------------------------
  // _extract_links

  /** The three values a dict item offers, each named by its label. */
  function DdjjOffers(item: Value): (r: seq<Offer>)
    ensures |r| == 3
    ensures forall k :: 0 <= k < 3 ==> r[k] == (Field(item, LinkKeys[k]), Some(LinkLabels[k]))
  {
    seq(3, k requires 0 <= k < 3 => (Field(item, LinkKeys[k]), Some(LinkLabels[k])))
  }

  /** `_extract_links(data)`: the files under `archivos`, each
      `(url, filename)` pair once, else whatever the generic walker finds. */
  function ExtractLinks(data: Value): (r: seq<Link>)
    ensures WellFormed(r)
    ensures |ListedLinks(data, ListKey, DdjjOffers, Builder(LinkPrefix))| > 0 ==>
      r == ListedLinks(data, ListKey, DdjjOffers, Builder(LinkPrefix))
    ensures |ListedLinks(data, ListKey, DdjjOffers, Builder(LinkPrefix))| == 0 ==> r == CollectMinioLinks(data, LinkPrefix)
  {
    BuilderGood(LinkPrefix);
    ExtractedWellFormed(data, ListKey, DdjjOffers, Builder(LinkPrefix), LinkPrefix);
    Extracted(data, ListKey, DdjjOffers, Builder(LinkPrefix), LinkPrefix)
  }

  /** A declaration at position `index` yields `l`: it is a dict and one of
      its three link fields builds `l`, named by that field's label when the
      URL names no file. */
  predicate DeclarationLink(item: Value, index: int, l: Link) {
    item.Dict? && exists k :: 0 <= k < 3 && BuildLink(Field(item, LinkKeys[k]), Some(LinkLabels[k]), LinkPrefix, index) == Some(l)
  }

  lemma DdjjItemLink(item: Value, index: int, l: Link)
    ensures Some(l) in ItemLinks(item, index, DdjjOffers, Builder(LinkPrefix)) <==> DeclarationLink(item, index, l)
  {
    ItemLinksMember(item, index, DdjjOffers, Builder(LinkPrefix), l);
  }

  /** A link found while some declaration yields one comes from a
      declaration. */
  lemma ExtractLinkSound(data: Value, l: Link) returns (i: nat)
    requires |ListedLinks(data, ListKey, DdjjOffers, Builder(LinkPrefix))| > 0
    requires l in ExtractLinks(data)
    ensures Field(data, ListKey).List?
    ensures i < |Field(data, ListKey).items| && DeclarationLink(Field(data, ListKey).items[i], i + 1, l)
  {
    i := ListedLinkSound(data, ListKey, DdjjOffers, Builder(LinkPrefix), l);
    var items := Field(data, ListKey).items;
    OffersAt(DdjjOffers, Builder(LinkPrefix), items[i], i + 1);
    DdjjItemLink(items[i], i + 1, l);
  }

  /** Every declaration's links are among the answer's links. */
  lemma ExtractLinkComplete(data: Value, l: Link, i: nat)
    requires Field(data, ListKey).List?
    requires i < |Field(data, ListKey).items| && DeclarationLink(Field(data, ListKey).items[i], i + 1, l)
    ensures l in ExtractLinks(data)
  {
    DdjjItemLink(Field(data, ListKey).items[i], i + 1, l);
    ListedLinkComplete(data, ListKey, DdjjOffers, Builder(LinkPrefix), l, i);
  }

  // ---------------------------------------------------------------------
  // _json_filename_from_item and _json_fallback_name

  /** The name parts, each sanitised, joined by `_`. */
  function Labelled(parts: seq<string>): string {
    Join(seq(|parts|, k requires 0 <= k < |parts| => SanitizeIdentifier(parts[k], "desconocido")), "_")
  }

  /** The stem of the first link field that builds a link with no hint. */
  function LinkStem(item: Value, index: int): Option<string> {
    if BuildLink(Field(item, LinkKeys[0]), None, LinkPrefix, index).Some? then
      Some(SplitExt(BuildLink(Field(item, LinkKeys[0]), None, LinkPrefix, index).value.filename).0)
    else if BuildLink(Field(item, LinkKeys[1]), None, LinkPrefix, index).Some? then
      Some(SplitExt(BuildLink(Field(item, LinkKeys[1]), None, LinkPrefix, index).value.filename).0)
    else if BuildLink(Field(item, LinkKeys[2]), None, LinkPrefix, index).Some? then
      Some(SplitExt(BuildLink(Field(item, LinkKeys[2]), None, LinkPrefix, index).value.filename).0)
    else None
  }

  /** The declaration's period: `datos.periodo`, else `datos.datos["Mes -
      Año"]`. Only its truthiness and text are used, so which falsy value
      stands for a missing period does not matter. */
  function PeriodValue(item: Value): Value {
    var datos := Field(item, "datos");
    Or(Field(datos, "periodo"), Field(Field(datos, "datos"), "Mes - A\U{F1}o"))
  }

  /** The CUIT a name carries: the represented CUIT, else the header's
      `Representado.cuit`. */
  function NameCuit(header: Value, cuitRepr: string): Value {
    if |cuitRepr| > 0 then Str(cuitRepr) else Field(Field(header, "Representado"), "cuit")
  }

  /** `ddjj`, the CUIT and the period when present, and the position. */
  function ItemNameParts(cuit: Value, period: Value, index: int): (r: seq<string>)
    ensures |r| >= 2 && r[0] == "ddjj" && r[|r| - 1] == IntToString(index)
  {
    ["ddjj"] + (if Truthy(cuit) then [Display(cuit)] else []) + (if Truthy(period) then [Display(period)] else [])
    + [IntToString(index)]
  }

  /** `_json_filename_from_item(item, index, header, cuit_repr)`: the
      `.json` twin of the first link field's file name when one builds a
      link; otherwise `ddjj_<cuit>_<period>_<index>.json`, each part
      sanitised and the missing ones left out. */
  function ItemJsonName(item: Value, index: int, header: Value, cuitRepr: string): (r: string)
    ensures EndsWith(r, ".json")
    ensures LinkStem(item, index).Some? ==> r == LinkStem(item, index).value + ".json"
    ensures LinkStem(item, index).None? ==>
      r == Labelled(ItemNameParts(NameCuit(header, cuitRepr), PeriodValue(item), index)) + ".json"
  {
    var stem := if LinkStem(item, index).Some? then LinkStem(item, index).value
      else Labelled(ItemNameParts(NameCuit(header, cuitRepr), PeriodValue(item), index));
    assert (stem + ".json")[|stem|..] == ".json";
    stem + ".json"
  }

  /** The header's period: `Periodo.periodo`, else `desde`, else `hasta`. */
  function HeaderPeriod(header: Value): Value {
    var info := Field(header, "Periodo");
    Or(Or(Field(info, "periodo"), Field(info, "desde")), Field(info, "hasta"))
  }

  /** `ddjj`, the represented CUIT and the header's period when present. */
  function FallbackParts(header: Value, cuitRepr: string): (r: seq<string>)
    ensures |r| >= 1 && r[0] == "ddjj"
  {
    ["ddjj"] + (if |cuitRepr| > 0 then [cuitRepr] else [])
    + (if Truthy(HeaderPeriod(header)) then [Display(HeaderPeriod(header))] else [])
  }

  /** `_json_fallback_name(header, cuit_repr)`: `ddjj_<cuit>_<period>.json`,
      each part sanitised and the missing ones left out. */
  function FallbackJsonName(header: Value, cuitRepr: string): (r: string)
    ensures EndsWith(r, ".json")
  {
    var stem := Labelled(FallbackParts(header, cuitRepr));
    assert (stem + ".json")[|stem|..] == ".json";
    stem + ".json"
  }

  lemma DdjjClean()
    ensures IsCleanIdentifier("ddjj")
  {
  }

  /** A positive position is a clean identifier. */
  lemma IndexClean(index: int)
    requires index >= 1
    ensures IsCleanIdentifier(IntToString(index))
  {
    assert IntToString(index) == NatToString(index);
  }

  /** With clean parts the name is exactly the parts joined by `_`. */
  lemma LabelledClean(parts: seq<string>)
    requires forall k :: 0 <= k < |parts| ==> IsCleanIdentifier(parts[k])
    ensures Labelled(parts) == Join(parts, "_")
  {
    var s := seq(|parts|, k requires 0 <= k < |parts| => SanitizeIdentifier(parts[k], "desconocido"));
    forall k | 0 <= k < |parts|
      ensures s[k] == parts[k]
    {
      SanitizeClean(parts[k], "desconocido");
    }
    assert s == parts;
  }

  /** Four parts joined by `_`. */
  lemma JoinFour(a: string, b: string, c: string, d: string)
    ensures Join([a, b, c, d], "_") == a + "_" + b + "_" + c + "_" + d
  {
    var parts := [a, b, c, d];
    assert parts[1..] == [b, c, d];
    assert [b, c, d][1..] == [c, d];
    assert [c, d][1..] == [d];
    assert Join([c, d], "_") == c + "_" + d;
    assert Join([b, c, d], "_") == b + "_" + (c + "_" + d);
  }

  /** Clean parts are named by themselves. */
  lemma ItemNamePartsClean(cuit: string, period: string, index: int)
    requires index >= 1
    requires IsCleanIdentifier(cuit) && IsCleanIdentifier(period)
    ensures Labelled(ItemNameParts(Str(cuit), Str(period), index))
         == "ddjj" + "_" + cuit + "_" + period + "_" + IntToString(index)
  {
    var parts := ItemNameParts(Str(cuit), Str(period), index);
    assert parts == ["ddjj", cuit, period, IntToString(index)];
    DdjjClean();
    IndexClean(index);
    LabelledClean(parts);
    JoinFour("ddjj", cuit, period, IntToString(index));
  }

  /** A declaration with no usable link, a clean CUIT and a clean period is
      saved as `ddjj_<cuit>_<period>_<index>.json`. */
  lemma ItemJsonNameOfParts(item: Value, index: int, header: Value, cuit: string, period: string)
    requires index >= 1
    requires LinkStem(item, index).None?
    requires IsCleanIdentifier(cuit) && IsCleanIdentifier(period)
    requires PeriodValue(item) == Str(period)
    ensures ItemJsonName(item, index, header, cuit)
         == "ddjj" + "_" + cuit + "_" + period + "_" + IntToString(index) + ".json"
  {
    assert NameCuit(header, cuit) == Str(cuit);
    ItemNamePartsClean(cuit, period, index);
  }

  /** A header with no period and no represented CUIT gives `ddjj.json`. */
  lemma FallbackJsonNamePlain(header: Value)
    requires !Truthy(HeaderPeriod(header))
    ensures FallbackJsonName(header, "") == "ddjj.json"
  {
    calc {
      FallbackJsonName(header, "");
      Labelled(FallbackParts(header, "")) + ".json";
      { PlainParts(header); }
      Labelled(["ddjj"]) + ".json";
      { LabelledDdjj(); }
      "ddjj" + ".json";
      { DdjjJson(); }
      "ddjj.json";
    }
  }

  lemma DdjjJson()
    ensures "ddjj" + ".json" == "ddjj.json"
  {
  }

  lemma PlainParts(header: Value)
    requires !Truthy(HeaderPeriod(header))
    ensures FallbackParts(header, "") == ["ddjj"]
  {
  }

  lemma LabelledDdjj()
    ensures Labelled(["ddjj"]) == "ddjj"
  {
    DdjjClean();
    LabelledClean(["ddjj"]);
  }

  /** A name without `/` has no `/` in either part. */
  lemma NoSlashInParts(stem: string, ext: string)
    requires '/' !in stem + ext
    ensures '/' !in stem && '/' !in ext
  {
    assert forall j :: 0 <= j < |stem| ==> stem[j] == (stem + ext)[j];
    assert forall j :: 0 <= j < |ext| ==> ext[j] == (stem + ext)[|stem| + j];
  }

  /** An excel link `https://<host>/<dir>/<stem><ext>` gives the stem. */
  lemma LinkStemOfExcel(item: Value, index: int, host: string, dir: string, stem: string, ext: string, query: string)
    requires PlainHost(host) && PlainSegment(dir) && PlainQuery(query)
    requires PlainName(stem + ext) && |stem| > 0 && stem[0] != '.'
    requires |ext| > 0 && ext[0] == '.' && '.' !in ext[1..]
    requires Field(item, LinkKeys[0]) == Str(HttpsUrl(host, dir, stem + ext, query))
    ensures LinkStem(item, index) == Some(stem)
  {
    BuildLinkFileName(host, dir, stem + ext, query, None, LinkPrefix, index);
    NoSlashInParts(stem, ext);
    SplitExtOfName(stem, ext);
  }

  /** The `.json` twin of an excel link `https://<host>/<dir>/<stem><ext>`
      is `<stem>.json`. */
  lemma ItemJsonNameOfLink(item: Value, index: int, header: Value, cuitRepr: string,
                           host: string, dir: string, stem: string, ext: string, query: string)
    requires PlainHost(host) && PlainSegment(dir) && PlainQuery(query)
    requires PlainName(stem + ext) && |stem| > 0 && stem[0] != '.'
    requires |ext| > 0 && ext[0] == '.' && '.' !in ext[1..]
    requires Field(item, LinkKeys[0]) == Str(HttpsUrl(host, dir, stem + ext, query))
    ensures ItemJsonName(item, index, header, cuitRepr) == stem + ".json"
  {
    LinkStemOfExcel(item, index, host, dir, stem, ext, query);
  }

  // ---------------------------------------------------------------------
  // _save_json_from_data

  /** `data["header"]` when it is a dict, else `{}`. */
  function HeaderOf(data: Value): (r: Value)
    ensures r.Dict?
  {
    if Field(data, "header").Dict? then Field(data, "header") else Dict([])
  }

  /** A declaration worth saving: a dict whose `datos` is a non-empty dict. */
  predicate HasDatos(item: Value) {
    item.Dict? && Field(item, "datos").Dict? && |Field(item, "datos").entries| > 0
  }

  /** How a declaration at a position is named. */
  type Namer = (Value, int) -> string

  /** `_json_filename_from_item` with the answer's header and the CUIT
      fixed. */
  function ItemNamer(header: Value, cuitRepr: string): Namer {
    (item: Value, index: int) => ItemJsonName(item, index, header, cuitRepr)
  }

  /** The names of the declarations worth saving among `items`, the first
      of them at position `index`. */
  function ItemTargets(items: seq<Value>, index: int, name: Namer): (r: seq<string>)
    ensures |r| <= |items|
    decreases |items|
  {
    if |items| == 0 then []
    else (if HasDatos(items[0]) then [name(items[0], index)] else []) + ItemTargets(items[1..], index + 1, name)
  }

  /** No declaration worth saving, no item file. */
  lemma {:induction false} ItemTargetsNone(items: seq<Value>, index: int, name: Namer)
    requires forall k :: 0 <= k < |items| ==> !HasDatos(items[k])
    ensures ItemTargets(items, index, name) == []
    decreases |items|
  {
    if |items| > 0 {
      assert forall k :: 0 <= k < |items[1..]| ==> items[1..][k] == items[k + 1];
      ItemTargetsNone(items[1..], index + 1, name);
    }
  }

  /** A declaration worth saving at position `index + k` is saved under
      its own name. */
  lemma {:induction false} ItemTargetsHas(items: seq<Value>, index: int, name: Namer, k: nat)
    requires k < |items| && HasDatos(items[k])
    ensures name(items[k], index + k) in ItemTargets(items, index, name)
    decreases |items|
  {
    if k > 0 {
      assert items[1..][k - 1] == items[k];
      ItemTargetsHas(items[1..], index + 1, name, k - 1);
    }
  }

  /** The files `_save_json_from_data` writes, in order: one per
      declaration worth saving, or the whole answer under the fallback name
      when there is none. Which writes fail does not change the list. */
  function JsonTargets(data: Value, cuitRepr: string): (r: seq<string>)
    ensures |r| > 0
  {
    var archivos := Field(data, ListKey);
    var names := if archivos.List? then ItemTargets(archivos.items, 1, ItemNamer(HeaderOf(data), cuitRepr)) else [];
    if |names| > 0 then names else [FallbackJsonName(HeaderOf(data), cuitRepr)]
  }

  /** With no declaration worth saving, the whole answer is saved under
      the fallback name. */
  lemma JsonTargetsFallback(data: Value, cuitRepr: string)
    requires !Field(data, ListKey).List? ||
             forall k :: 0 <= k < |Field(data, ListKey).items| ==> !HasDatos(Field(data, ListKey).items[k])
    ensures JsonTargets(data, cuitRepr) == [FallbackJsonName(HeaderOf(data), cuitRepr)]
  {
    if Field(data, ListKey).List? {
      ItemTargetsNone(Field(data, ListKey).items, 1, ItemNamer(HeaderOf(data), cuitRepr));
    }
  }

  /** Every declaration worth saving is saved under its own name, and then
      the fallback file is not written. */
  lemma JsonTargetsItem(data: Value, cuitRepr: string, k: nat)
    requires Field(data, ListKey).List? && k < |Field(data, ListKey).items|
    requires HasDatos(Field(data, ListKey).items[k])
    ensures ItemJsonName(Field(data, ListKey).items[k], k + 1, HeaderOf(data), cuitRepr) in JsonTargets(data, cuitRepr)
    ensures JsonTargets(data, cuitRepr) == ItemTargets(Field(data, ListKey).items, 1, ItemNamer(HeaderOf(data), cuitRepr))
  {
    ItemTargetsHas(Field(data, ListKey).items, 1, ItemNamer(HeaderOf(data), cuitRepr), k);
  }

  /** `write(path)`: the error a write to `path` raises, or None when it
      succeeds. */
  type Writer = string -> Option<string>

  /** The test a file name passes when its write into `dir` succeeds. */
  function WrittenIn(dir: string, write: Writer): string -> bool {
    (name: string) => write(PathJoin(dir, name)).None?
  }

  /** One `<name>: <error>` line per failed write, in order. */
  function WriteErrors(names: seq<string>, dir: string, write: Writer): (r: seq<string>)
    ensures |r| <= |names|
    decreases |names|
  {
    if |names| == 0 then []
    else
      var last := names[|names| - 1];
      var err := write(PathJoin(dir, last));
      WriteErrors(names[..|names| - 1], dir, write) + (if err.Some? then [last + ": " + err.value] else [])
  }

  /** Every name written into `dir` in order: each success counted, each
      failure reported. */
  method WriteAll(names: seq<string>, dir: string, write: Writer) returns (saved: nat, errors: seq<string>)
    ensures saved + |errors| == |names|
    ensures saved == Count(names, WrittenIn(dir, write))
    ensures errors == WriteErrors(names, dir, write)
  {
    var ok := WrittenIn(dir, write);
    saved, errors := 0, [];
    var i := 0;
    while i < |names|
      invariant i <= |names|
      invariant saved == Count(names[..i], ok)
      invariant errors == WriteErrors(names[..i], dir, write)
      invariant saved + |errors| == i
    {
      var name := names[i];
      var err := write(PathJoin(dir, name));
      assert names[..i + 1] == names[..i] + [name];
      assert names[..i + 1][..i] == names[..i];
      CountAppend(names[..i], name, ok);
      if err.None? {
        saved := saved + 1;
      } else {
        errors := errors + [name + ": " + err.value];
      }
      i := i + 1;
    }
    assert names[..i] == names;
  }

  /** `_save_json_from_data(data, dir, cuit_repr)`: with no folder, one
      error; with an empty or non-dict answer, nothing; otherwise every
      target is written into the folder. */
  method SaveJsonFromData(data: Value, dir: Option<string>, cuitRepr: string, write: Writer)
    returns (saved: nat, errors: seq<string>)
    ensures (dir.None? || |dir.value| == 0) ==> saved == 0 && errors == [NoDirMessage]
    ensures dir.Some? && |dir.value| > 0 && !(data.Dict? && |data.entries| > 0) ==> saved == 0 && errors == []
    ensures dir.Some? && |dir.value| > 0 && data.Dict? && |data.entries| > 0 ==>
      var targets := JsonTargets(data, cuitRepr);
      && saved + |errors| == |targets|
      && saved == Count(targets, WrittenIn(dir.value, write))
      && errors == WriteErrors(targets, dir.value, write)
  {
    if dir.None? || |dir.value| == 0 {
      return 0, [NoDirMessage];
    }
    if !(data.Dict? && |data.entries| > 0) {
      return 0, [];
    }
    saved, errors := WriteAll(JsonTargets(data, cuitRepr), dir.value, write);
  }

  // ---------------------------------------------------------------------
  // _download_from_data

  /** `_download_from_data(data, desired, cuit_repr)`: the folder is always
      resolved, even when the answer has no links; then every link is
      downloaded into it, with the count and error lines of that run. */
  method DownloadFromData(data: Value, desired: string, cuitRepr: string,
                          writable: string -> bool, listing: string -> set<string>, clock: Clock,
                          fetch: (string, string) -> FetchResult)
    returns (downloads: nat, errors: seq<string>, dir: Option<string>)
    ensures dir == PrepareDownloadDir(ModuleDir, desired, cuitRepr, writable).dir
    ensures |ExtractLinks(data)| == 0 ==> downloads == 0 && errors == []
    ensures |ExtractLinks(data)| > 0 && dir.None? ==> downloads == 0 && errors == [NoDirMessage]
    ensures |ExtractLinks(data)| > 0 && dir.Some? ==> downloads + |errors| == |ExtractLinks(data)|
    ensures |ExtractLinks(data)| > 0 && dir.Some? ==>
      && downloads == RunSaved(ExtractLinks(data), dir.value, listing(dir.value), clock, fetch)
      && errors == RunErrors(ExtractLinks(data), dir.value, listing(dir.value), clock, fetch)
  {
    dir := PrepareDownloadDir(ModuleDir, desired, cuitRepr, writable).dir;
    var links := ExtractLinks(data);
    if |links| == 0 {
      return 0, [], dir;
    }
    var destDir := if dir.Some? then dir.value else "";
    assert dir.Some? ==> |destDir| > 0;
    var report;
    downloads, errors, report := DownloadLinks(links, destDir, listing(destDir), clock, fetch);
  }

  // ---------------------------------------------------------------------
  // procesar_excel, one row

  /** The request body: the fields in the order the window writes them. */
  function PayloadEntries(login: string, clave: string, represented: Value, name: Value, desde: string, hasta: string)
    : (r: seq<(string, Value)>)
    ensures |r| == 8
    ensures Keys(r) == ["cuit_representante", "clave_representante", "cuit_representado", "representado_nombre",
                        "periodo_desde", "periodo_hasta", "carga_minio", "proxy_request"]
  {
    [("cuit_representante", Str(login)),
     ("clave_representante", Str(clave)),
     ("cuit_representado", represented),
     ("representado_nombre", name),
     ("periodo_desde", Str(desde)),
     ("periodo_hasta", Str(hasta)),
     ("carga_minio", Bool(true)),
     ("proxy_request", Bool(false))]
  }

  /** An optional value as the request carries it: None when blank. */
  function OptionalField(text: string): (r: Value)
    ensures OptionalValue(text).None? <==> r.Null?
  {
    match OptionalValue(text)
    case Some(t) => Str(t)
    case None => Null
  }

  function RowLogin(row: Row): string {
    Strip(RowText(row, "cuit_representante"))
  }

  /** The request body of a row. */
  function DdjjPayload(row: Row): seq<(string, Value)> {
    PayloadEntries(RowLogin(row), RowText(row, "clave_representante"), OptionalField(RowText(row, "cuit_representado")),
                   OptionalField(RowText(row, "representado_nombre")),
                   Strip(RowText(row, "periodo_desde")), Strip(RowText(row, "periodo_hasta")))
  }

  /** The request always asks for the files to be stored and never for a
      proxy. */
  lemma PayloadFlags(login: string, clave: string, represented: Value, name: Value, desde: string, hasta: string)
    ensures Get(PayloadEntries(login, clave, represented, name, desde, hasta), "carga_minio") == Some(Bool(true))
    ensures Get(PayloadEntries(login, clave, represented, name, desde, hasta), "proxy_request") == Some(Bool(false))
  {
    var r := PayloadEntries(login, clave, represented, name, desde, hasta);
    GetAt(r, 6);
    GetAt(r, 7);
  }

  /** `cuit_repr or cuit_rep`: the folder CUIT, which may be empty. */
  function CuitFolder(row: Row): (r: string)
    ensures OptionalValue(RowText(row, "cuit_representado")).Some? ==> r == OptionalValue(RowText(row, "cuit_representado")).value
    ensures OptionalValue(RowText(row, "cuit_representado")).None? ==> r == RowLogin(row)
  {
    OptionalValue(RowText(row, "cuit_representado")).GetOr(RowLogin(row))
  }

  /** A row of the results table. */
  datatype DdjjRow = DdjjRow(cuit: string, httpStatus: Option<int>, success: Value, message: Value,
                             downloads: nat, downloadErrors: Option<string>, folder: Option<string>)

  /** One row of `procesar_excel`: `post(payload)` is the single answer, no
      retry and no abort. The files are downloaded into the row's folder (or
      the window's), then the declarations are saved as JSON into the same
      folder; the JSON outcome is only logged. */
  method ProcessRowDdjj(row: Row, post: seq<(string, Value)> -> Response, windowDir: string,
                        writable: string -> bool, listing: string -> set<string>, clock: Clock,
                        fetch: (string, string) -> FetchResult, write: Writer)
    returns (r: DdjjRow, jsonSaved: nat, jsonErrors: seq<string>)
    ensures var resp := post(DdjjPayload(row));
      && r.cuit == CuitFolder(row)
      && r.httpStatus == resp.status
      && r.success == Field(resp.data, "success")
      && r.message == Field(resp.data, "message")
      && r.folder == PrepareDownloadDir(ModuleDir, TargetDir(RowDownload(row), windowDir), CuitFolder(row), writable).dir
      && (|ExtractLinks(resp.data)| == 0 ==> r.downloads == 0 && r.downloadErrors.None?)
      && (|ExtractLinks(resp.data)| > 0 && r.folder.None? ==> r.downloads == 0 && r.downloadErrors == Some(NoDirMessage))
      && (|ExtractLinks(resp.data)| > 0 && r.folder.Some? ==>
            var d := r.folder.value;
            && r.downloads == RunSaved(ExtractLinks(resp.data), d, listing(d), clock, fetch)
            && r.downloadErrors == ErrorCell(RunErrors(ExtractLinks(resp.data), d, listing(d), clock, fetch)))
      && (r.folder.None? ==> jsonSaved == 0 && jsonErrors == [NoDirMessage])
      && (r.folder.Some? && resp.data.Dict? && |resp.data.entries| > 0 ==>
            jsonSaved + |jsonErrors| == |JsonTargets(resp.data, CuitFolder(row))|)
  {
    var resp := post(DdjjPayload(row));
    var folder := CuitFolder(row);
    var downloads, errors, dir := DownloadFromData(resp.data, TargetDir(RowDownload(row), windowDir), folder,
                                                   writable, listing, clock, fetch);
    assert dir.Some? ==> |dir.value| > 0;
    jsonSaved, jsonErrors := SaveJsonFromData(resp.data, dir, folder, write);
    r := DdjjRow(folder, resp.status, Field(resp.data, "success"), Field(resp.data, "message"),
                 downloads, ErrorCell(errors), dir);
  }
}
