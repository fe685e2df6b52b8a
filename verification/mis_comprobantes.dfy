/** The invoice-download batch (`mis_comprobantes`): how it normalises the
    spreadsheet's column names, names and creates its folders, picks the CSV
    inside a downloaded ZIP, selects and reads the rows, and what one row's
    answer turns into. Its cell reader `_to_bool` has the same truth table
    as `parse_bool_cell`, so the model uses `Helpers.ParseBoolCell`. */
module MisComprobantes {
  import opened Prelude
  import opened Text
  import opened Json
  import opened Urls
  import opened Helpers
  import opened MinioHelpers

  const FallbackBaseDir := "descargas/mis_compobantes"

  // ---------------------------------------------------------------------
  // _normalize_key

  /** The accented letters the key translation maps, and their images. */
  predicate IsAccented(c: char) {
    c == '\U{E1}' || c == '\U{E9}' || c == '\U{ED}' || c == '\U{F3}' || c == '\U{FA}'
    || c == '\U{C1}' || c == '\U{C9}' || c == '\U{CD}' || c == '\U{D3}' || c == '\U{DA}'
    || c == '\U{F1}' || c == '\U{D1}'
  }

  /** `str.maketrans("áéíóúÁÉÍÓÚñÑ", "aeiouAEIOUnN")` on one character. */
  function TranslateChar(c: char): (r: char)
    ensures !IsAccented(c) ==> r == c
    ensures IsAccented(c) ==> IsAsciiLetter(r)
  {
    if c == '\U{E1}' then 'a' else if c == '\U{E9}' then 'e' else if c == '\U{ED}' then 'i'
    else if c == '\U{F3}' then 'o' else if c == '\U{FA}' then 'u'
    else if c == '\U{C1}' then 'A' else if c == '\U{C9}' then 'E' else if c == '\U{CD}' then 'I'
    else if c == '\U{D3}' then 'O' else if c == '\U{DA}' then 'U'
    else if c == '\U{F1}' then 'n' else if c == '\U{D1}' then 'N'
    else c
  }

  function Translate(s: string): (r: string)
    ensures |r| == |s|
    ensures forall i :: 0 <= i < |s| ==> r[i] == TranslateChar(s[i])
  {
    seq(|s|, i requires 0 <= i < |s| => TranslateChar(s[i]))
  }

  /** `.replace(" ", "_")`. */
  function SpacesToUnderscores(s: string): (r: string)
    ensures |r| == |s|
    ensures forall i :: 0 <= i < |s| ==> r[i] == (if s[i] == ' ' then '_' else s[i])
  {
    seq(|s|, i requires 0 <= i < |s| => if s[i] == ' ' then '_' else s[i])
  }

  /** What normalising does to one character of the stripped key: the
      accents and `ñ` go, capitals become small letters, a blank becomes
      `_`. */
  function KeyChar(c: char): (r: char)
    ensures c == ' ' ==> r == '_'
    ensures IsAccented(c) ==> 'a' <= r <= 'z'
    ensures 'A' <= c <= 'Z' ==> r as int == c as int + 32
    ensures 'a' <= c <= 'z' || '0' <= c <= '9' || c == '_' ==> r == c
  {
    var l := LowerChar(TranslateChar(c));
    if l == ' ' then '_' else l
  }

  /** `_normalize_key(key)`: None gives the empty text; otherwise the key
      stripped, its accents and `ñ` made plain, lower-cased, with spaces
      turned into `_`. */
  function NormalizeKey(key: Option<string>): (r: string)
    ensures key.None? ==> r == ""
    ensures key.Some? ==> |r| == |Strip(key.value)|
    ensures key.Some? ==> forall i :: 0 <= i < |r| ==> r[i] == KeyChar(Strip(key.value)[i])
    ensures forall i :: 0 <= i < |r| ==> r[i] != ' ' && !IsAccented(r[i]) && LowerChar(r[i]) == r[i]
  {
    if key.None? then ""
    else
      var r := SpacesToUnderscores(Lower(Translate(Strip(key.value))));
      forall i | 0 <= i < |r|
        ensures r[i] != ' ' && !IsAccented(r[i]) && LowerChar(r[i]) == r[i]
      {
        KeyCharClean(Strip(key.value)[i]);
      }
      r
  }

  /** A normalised character is plain, lower-case and no blank, and only
      a blank becomes a blank's replacement... or stays a non-blank. */
  lemma KeyCharClean(c: char)
    ensures KeyChar(c) != ' ' && !IsAccented(KeyChar(c)) && LowerChar(KeyChar(c)) == KeyChar(c)
    ensures IsSpace(KeyChar(c)) ==> IsSpace(c)
    ensures KeyChar(KeyChar(c)) == KeyChar(c)
  {
  }

  /** Normalising a normalised key changes nothing. */
  lemma NormalizeKeyIdempotent(key: string)
    ensures NormalizeKey(Some(NormalizeKey(Some(key)))) == NormalizeKey(Some(key))
  {
    var r := NormalizeKey(Some(key));
    var s := Strip(key);
    if |r| > 0 {
      assert r[0] == KeyChar(s[0]) && r[|r| - 1] == KeyChar(s[|s| - 1]);
      KeyCharClean(s[0]);
      KeyCharClean(s[|s| - 1]);
    }
    TrimLeftNoop(r, IsSpace);
    TrimRightNoop(r, IsSpace);
    assert Strip(r) == r;
    forall i | 0 <= i < |r|
      ensures KeyChar(r[i]) == r[i]
    {
      KeyCharClean(s[i]);
    }
  }

  /** Spelling variants of a column name meet: two keys whose characters
      agree up to accents, capitals and blanks-versus-underscores, around
      any padding, normalise to the same name. */
  lemma NormalizeKeyVariants(a: string, b: string)
    requires |Strip(a)| == |Strip(b)|
    requires forall i :: 0 <= i < |Strip(a)| ==> KeyChar(Strip(a)[i]) == KeyChar(Strip(b)[i])
    ensures NormalizeKey(Some(a)) == NormalizeKey(Some(b))
  {
  }

  lemma StripPlain(s: string)
    requires |s| > 0 && !IsSpace(s[0]) && !IsSpace(s[|s| - 1])
    ensures Strip(s) == s
  {
    TrimLeftNoop(s, IsSpace);
    TrimRightNoop(s, IsSpace);
  }

  /** `_to_str(value)`: None gives the empty text, anything else its
      stripped text. */
  function ToStr(v: Value): (r: string)
    ensures v.Null? ==> r == ""
    ensures v.Str? ==> r == Strip(v.s)
  {
    if v.Null? then "" else Strip(Display(v))
  }

  // ---------------------------------------------------------------------
  // _sanitize_path_fragment

  /** The characters a path fragment keeps. */
  predicate FragmentChar(c: char) {
    IsAlnum(c) || c == ' ' || c == '-' || c == '_'
  }

  /** The characters a non-empty cleaned fragment is made of. */
  predicate CleanFragmentChar(c: char) {
    IsAlnum(c) || c == '-' || c == '_'
  }

  /** The kept characters, stripped. */
  function FragmentKept(text: string): (r: string)
    ensures forall i :: 0 <= i < |r| ==> FragmentChar(r[i])
  {
    var f := Filter(text, FragmentChar);
    var r := Strip(f);
    TrimSubset(f, IsSpace);
    assert forall i :: 0 <= i < |r| ==> r[i] in r;
    r
  }

  /** `_sanitize_path_fragment(text, fallback)`: the letters, digits,
      blanks, `-` and `_` of the text, stripped, with blanks turned into `_`;
      the fallback when nothing is left. */
  function SanitizePathFragment(text: string, fallback: string): (r: string)
    ensures |FragmentKept(text)| == 0 ==> r == fallback
    ensures |FragmentKept(text)| > 0 ==> |r| == |FragmentKept(text)| && forall i :: 0 <= i < |r| ==> CleanFragmentChar(r[i])
  {
    var kept := FragmentKept(text);
    if |kept| == 0 then fallback else SpacesToUnderscores(kept)
  }

  /** The clean characters are kept and are no blanks. */
  lemma CleanChar(c: char)
    requires CleanFragmentChar(c)
    ensures FragmentChar(c) && !IsSpace(c)
  {
  }

  /** A text made only of letters, digits, `-` and `_` is its own
      fragment. */
  lemma FragmentOfClean(text: string, fallback: string)
    requires |text| > 0 && forall i :: 0 <= i < |text| ==> CleanFragmentChar(text[i])
    ensures SanitizePathFragment(text, fallback) == text
  {
    assert FragmentKept(text) == text by {
      forall i | 0 <= i < |text|
        ensures FragmentChar(text[i]) && !IsSpace(text[i])
      {
        CleanChar(text[i]);
      }
      FilterAll(text, FragmentChar);
      StripPlain(text);
    }
    assert SpacesToUnderscores(text) == text by {
      forall i | 0 <= i < |text|
        ensures text[i] != ' '
      {
        CleanChar(text[i]);
      }
    }
  }

  /** Only text without any kept character falls back. */
  lemma FragmentFallback(text: string, fallback: string)
    requires forall i :: 0 <= i < |text| ==> !FragmentChar(text[i]) || text[i] == ' '
    ensures SanitizePathFragment(text, fallback) == fallback
  {
    var f := Filter(text, FragmentChar);
    assert forall c :: c in f ==> c == ' ';
    assert forall i :: 0 <= i < |f| ==> IsSpace(f[i]) by {
      assert forall i :: 0 <= i < |f| ==> f[i] in f;
    }
    TrimEmpty(f, IsSpace);
  }

  // ---------------------------------------------------------------------
  // crear_directorio_seguro

  /** Python's `a or b` on two optional texts. */
  function OrText(a: Option<string>, b: Option<string>): (r: Option<string>)
    ensures a.Some? && |a.value| > 0 ==> r == a
    ensures !(a.Some? && |a.value| > 0) ==> r == b
  {
    if a.Some? && |a.value| > 0 then a else b
  }

  /** `str(x)` of an optional text: None prints as `None`. */
  function PyStr(x: Option<string>): string {
    if x.Some? then x.value else "None"
  }

  /** `FALLBACK_BASE_DIR/<cuit>/<name>`: the representative's CUIT before
      the represented one, the file name before the represented name. */
  function FallbackPath(cuitRepresentante: Option<string>, representadoCuit: Option<string>,
                        nombreArchivo: Option<string>, nombreRepresentado: string): string {
    PathJoin(PathJoin(FallbackBaseDir, SanitizePathFragment(PyStr(OrText(cuitRepresentante, representadoCuit)), "sin_cuit")),
             SanitizePathFragment(PyStr(OrText(nombreArchivo, Some(nombreRepresentado))), "descarga"))
  }

  /** `crear_directorio_seguro(ruta, ...)`: the stripped desired folder
      when it is text, non-empty and writable; otherwise the fallback folder
      when it can be created; otherwise `Descargas`. It never gives None.
      `writable` stands for creating a folder and a probe file in it,
      `creatable` for creating a folder. */
  function CrearDirectorioSeguro(ruta: Value, nombreRepresentado: string, representadoCuit: Option<string>,
                                 nombreArchivo: Option<string>, cuitRepresentante: Option<string>,
                                 writable: string -> bool, creatable: string -> bool): (r: string)
    ensures |r| > 0
    ensures ruta.Str? && IsWritableDir(Strip(ruta.s), writable) ==> r == Strip(ruta.s)
    ensures !(ruta.Str? && IsWritableDir(Strip(ruta.s), writable)) ==>
      var fallback := FallbackPath(cuitRepresentante, representadoCuit, nombreArchivo, nombreRepresentado);
      (creatable(fallback) ==> r == fallback) && (!creatable(fallback) ==> r == "Descargas")
  {
    var desired := if ruta.Str? then Strip(ruta.s) else "";
    if IsWritableDir(desired, writable) then desired
    else
      var fallback := FallbackPath(cuitRepresentante, representadoCuit, nombreArchivo, nombreRepresentado);
      if creatable(fallback) then fallback else "Descargas"
  }

  /** The fallback folder is named by the representative's CUIT whenever
      one is given, and lies under the fallback base. */
  lemma FallbackPrefersRepresentative(cuitRepresentante: string, representadoCuit: Option<string>,
                                      nombreArchivo: Option<string>, nombreRepresentado: string)
    requires |cuitRepresentante| > 0
    ensures FallbackPath(Some(cuitRepresentante), representadoCuit, nombreArchivo, nombreRepresentado)
         == PathJoin(PathJoin(FallbackBaseDir, SanitizePathFragment(cuitRepresentante, "sin_cuit")),
                     SanitizePathFragment(PyStr(OrText(nombreArchivo, Some(nombreRepresentado))), "descarga"))
    ensures StartsWith(FallbackPath(Some(cuitRepresentante), representadoCuit, nombreArchivo, nombreRepresentado),
                       FallbackBaseDir)
  {
    var inner := PathJoin(FallbackBaseDir, SanitizePathFragment(cuitRepresentante, "sin_cuit"));
    var name := SanitizePathFragment(PyStr(OrText(nombreArchivo, Some(nombreRepresentado))), "descarga");
    SanitizedNoSlash(cuitRepresentante, "sin_cuit");
    SanitizedNoSlash(PyStr(OrText(nombreArchivo, Some(nombreRepresentado))), "descarga");
    PrefixTransitive(FallbackBaseDir, inner, PathJoin(inner, name));
  }

  /** A fragment with a clean fallback never starts with `/`. */
  lemma SanitizedNoSlash(text: string, fallback: string)
    requires fallback == "sin_cuit" || fallback == "descarga"
    ensures !StartsWith(SanitizePathFragment(text, fallback), "/")
  {
    var r := SanitizePathFragment(text, fallback);
    if |FragmentKept(text)| > 0 {
      assert CleanFragmentChar(r[0]);
    } else {
      assert r == fallback && r[0] != '/';
    }
  }

  lemma PrefixTransitive(a: string, b: string, c: string)
    requires StartsWith(b, a) && StartsWith(c, b)
    ensures StartsWith(c, a)
  {
    assert c[..|a|] == b[..|a|];
  }

  // ---------------------------------------------------------------------
  // extraer_csv_de_zip: the entry it extracts

  predicate IsCsvName(name: string) {
    EndsWith(Lower(name), ".csv")
  }

  /** The position of the first CSV entry at or after `i`, or the length. */
  function FirstCsvFrom(names: seq<string>, i: nat): (k: nat)
    requires i <= |names|
    ensures i <= k <= |names|
    ensures k < |names| ==> IsCsvName(names[k])
    ensures forall j :: i <= j < k ==> !IsCsvName(names[j])
    decreases |names| - i
  {
    if i == |names| then i
    else if IsCsvName(names[i]) then i
    else FirstCsvFrom(names, i + 1)
  }

  /** The entry `extraer_csv_de_zip` copies out: none for an empty archive;
      else the first entry whose lower-cased name ends in `.csv`, else the
      first entry. */
  function ChooseZipEntry(names: seq<string>): (r: Option<string>)
    ensures r.None? <==> |names| == 0
    ensures r.Some? ==> r.value in names
    ensures (exists i :: 0 <= i < |names| && IsCsvName(names[i])) ==>
      r.Some? && IsCsvName(r.value)
    ensures |names| > 0 && (forall i :: 0 <= i < |names| ==> !IsCsvName(names[i])) ==> r == Some(names[0])
  {
    if |names| == 0 then None
    else
      var k := FirstCsvFrom(names, 0);
      if k < |names| then Some(names[k]) else Some(names[0])
  }

  /** The chosen CSV is the first one: every entry before it is not. */
  lemma ChooseZipEntryFirst(names: seq<string>, k: nat)
    requires k < |names| && IsCsvName(names[k])
    requires forall j :: 0 <= j < k ==> !IsCsvName(names[j])
    ensures ChooseZipEntry(names) == Some(names[k])
  {
  }

  // ---------------------------------------------------------------------
  // consulta_mc_csv: selecting and reading the rows

  /** A row after normalisation: column names normalised, every value its
      `_to_str` text. */
  type McRow = map<string, string>

  /** `dato.get(key, "")`. */
  function RowGet(dato: McRow, key: string): string {
    if key in dato then dato[key] else ""
  }

  /** `dato.get(k1) or dato.get(k2) or ... or dato.get(kn, "")`: the first
      alias holding a non-empty value. */
  function FirstFilled(dato: McRow, keys: seq<string>): (r: string)
    ensures (forall j :: 0 <= j < |keys| ==> |RowGet(dato, keys[j])| == 0) ==> r == ""
    ensures |keys| > 0 && |RowGet(dato, keys[0])| > 0 ==> r == RowGet(dato, keys[0])
    ensures |r| > 0 ==> exists j :: 0 <= j < |keys| && r == RowGet(dato, keys[j])
    decreases |keys|
  {
    if |keys| == 0 then ""
    else if |RowGet(dato, keys[0])| > 0 then RowGet(dato, keys[0])
    else
      var r := FirstFilled(dato, keys[1..]);
      assert forall j :: 0 <= j < |keys[1..]| ==> keys[1..][j] == keys[j + 1];
      r
  }

  const LoginAliases: seq<string> := ["cuit_inicio_sesion", "cuit_inicio", "cuit_login", "cuit_representante"]
  const NameAliases: seq<string> := ["representado_nombre", "nombre_representado", "representado", "nombre"]
  const CuitAliases: seq<string> := ["representado_cuit", "cuit_representado", "representadocuit", "cuit"]
  const PasswordAliases: seq<string> := ["contrasena", "clave", "clave_fiscal"]

  function LoginCuit(dato: McRow): string { Strip(FirstFilled(dato, LoginAliases)) }
  function RepresentedCuit(dato: McRow): string { Strip(FirstFilled(dato, CuitAliases)) }
  function Password(dato: McRow): string { Strip(FirstFilled(dato, PasswordAliases)) }

  /** The represented name: the first filled alias, stripped, or
      `Representado`. */
  function RepresentedName(dato: McRow): (r: string)
    ensures |r| > 0
    ensures |Strip(FirstFilled(dato, NameAliases))| > 0 ==> r == Strip(FirstFilled(dato, NameAliases))
  {
    var name := Strip(FirstFilled(dato, NameAliases));
    if |name| > 0 then name else "Representado"
  }

  /** With every name alias empty or missing the row is `Representado`. */
  lemma RepresentedNameFallback(dato: McRow)
    requires forall j :: 0 <= j < |NameAliases| ==> |RowGet(dato, NameAliases[j])| == 0
    ensures RepresentedName(dato) == "Representado"
  {
    assert FirstFilled(dato, NameAliases) == "";
    assert Strip("") == "";
  }

  /** The first alias wins over the later ones. */
  lemma RepresentedNameFirstAlias(dato: McRow, name: string)
    requires "representado_nombre" in dato && dato["representado_nombre"] == name
    requires |name| > 0 && !IsSpace(name[0]) && !IsSpace(name[|name| - 1])
    ensures RepresentedName(dato) == name
  {
    StripPlain(name);
  }

  /** `_to_bool(dato.get("procesar", ""), default=False)`. */
  predicate Selected(dato: McRow) {
    ParseBoolCell(Str(RowGet(dato, "procesar")), false)
  }

  /** `filas_a_procesar`: the selected rows, in order; the batch's total is
      their number. */
  function RowsToProcess(datos: seq<McRow>): (r: seq<McRow>)
    ensures forall d :: d in r <==> d in datos && Selected(d)
    ensures |r| == Count(datos, Selected)
    ensures IsSubsequence(r, datos)
  {
    FilterLength(datos, Selected);
    FilterIsSubsequence(datos, Selected);
    Filter(datos, Selected)
  }

  /** A row without a `procesar` column is never processed. */
  lemma UnmarkedRowSkipped(dato: McRow)
    requires "procesar" !in dato
    ensures !Selected(dato)
  {
    assert CellWord(Str("")) == "" by {
      assert Strip("") == "";
    }
  }

  // ---------------------------------------------------------------------
  // consulta_mc_csv: one row's answer

  /** What `consulta_mc` is asked for a row (files always go to storage,
      never inline as JSON). */
  datatype McRequest = McRequest(desde: string, hasta: string, login: string, name: string, cuit: string,
                                 password: string, emitidos: bool, recibidos: bool)

  /** The request of a row; `formatDate` is `format_date_str`. */
  function RowRequest(dato: McRow, formatDate: Value -> string): (q: McRequest)
    ensures q.name == RepresentedName(dato) && |q.name| > 0
    ensures q.emitidos == ParseBoolCell(Str(RowGet(dato, "descarga_emitidos")), false)
    ensures q.recibidos == ParseBoolCell(Str(RowGet(dato, "descarga_recibidos")), false)
  {
    McRequest(formatDate(Str(RowGet(dato, "desde"))), formatDate(Str(RowGet(dato, "hasta"))),
              LoginCuit(dato), RepresentedName(dato), RepresentedCuit(dato), Password(dato),
              ParseBoolCell(Str(RowGet(dato, "descarga_emitidos")), false),
              ParseBoolCell(Str(RowGet(dato, "descarga_recibidos")), false))
  }

  /** Whether the answer has `key` at all (`key in response`). */
  predicate Has(resp: Value, key: string) {
    resp.Dict? && Get(resp.entries, key).Some?
  }

  /** `response.get(key, default)`. */
  function GetOr(resp: Value, key: string, default: Value): (r: Value)
    ensures Has(resp, key) ==> r == Field(resp, key)
    ensures !Has(resp, key) ==> r == default
  {
    if Has(resp, key) then Field(resp, key) else default
  }

  /** `response.get("success", False)` is falsy. */
  predicate Failed(resp: Value) {
    !Truthy(GetOr(resp, "success", Bool(false)))
  }

  /** The error text of a failed answer: the first of `error`, `detail`
      and `message` the answer has at all, whatever its value, else
      `Error desconocido`. */
  function ErrorText(resp: Value): (r: string)
    ensures Has(resp, "error") ==> r == Display(Field(resp, "error"))
    ensures !Has(resp, "error") && Has(resp, "detail") ==> r == Display(Field(resp, "detail"))
    ensures !Has(resp, "error") && !Has(resp, "detail") && Has(resp, "message") ==> r == Display(Field(resp, "message"))
    ensures !Has(resp, "error") && !Has(resp, "detail") && !Has(resp, "message") ==> r == "Error desconocido"
  {
    Display(GetOr(resp, "error", GetOr(resp, "detail", GetOr(resp, "message", Str("Error desconocido")))))
  }

  /** An `error` key that is present but None still wins over `detail`. */
  lemma ErrorKeyPresentWins(detail: string)
    ensures ErrorText(Dict([("error", Null), ("detail", Str(detail))])) == "None"
  {
    var resp := Dict([("error", Null), ("detail", Str(detail))]);
    GetAt(resp.entries, 0);
  }

  /** One file to fetch: the URL value, the ZIP it is saved as and the CSV
      it is extracted to. */
  datatype McFile = McFile(url: Value, zip: string, csv: string, kind: string)

  /** The folder and the file of one kind (`emitidos` or `recibidos`): the
      folder is created whether or not the answer has a URL; the file exists
      when the answer's URL field is present and truthy. */
  datatype KindPlan = KindPlan(dir: string, file: Option<McFile>)

  /** `nombre_<kind>` of the row, or the kind's default name. */
  function KindName(dato: McRow, kind: string, defaultName: string): (r: string)
    requires |defaultName| > 0
    ensures |r| > 0
    ensures |ToStr(Str(RowGet(dato, "nombre_" + kind)))| > 0 ==> r == ToStr(Str(RowGet(dato, "nombre_" + kind)))
  {
    var given := ToStr(Str(RowGet(dato, "nombre_" + kind)));
    if |given| > 0 then given else defaultName
  }

  /** The file of one kind inside `dir`: `<name>_temp.zip` and `<name>.csv`,
      side by side and never the same path. */
  function KindFile(resp: Value, urlKey: string, dir: string, name: string, kind: string): (f: Option<McFile>)
    ensures f.Some? <==> Has(resp, urlKey) && Truthy(Field(resp, urlKey))
    ensures f.Some? ==> f.value.url == Field(resp, urlKey) && f.value.kind == kind
    ensures f.Some? ==> f.value.zip == PathJoin(dir, name + "_temp.zip") && f.value.csv == PathJoin(dir, name + ".csv")
    ensures f.Some? ==> EndsWith(f.value.zip, "_temp.zip") && EndsWith(f.value.csv, ".csv") && f.value.zip != f.value.csv
  {
    if Has(resp, urlKey) && Truthy(Field(resp, urlKey)) then
      NamesDiffer(dir, name);
      Some(McFile(Field(resp, urlKey), PathJoin(dir, name + "_temp.zip"), PathJoin(dir, name + ".csv"), kind))
    else None
  }

  function PlanKind(dato: McRow, q: McRequest, resp: Value, kind: string, defaultName: string, urlKey: string,
                    writable: string -> bool, creatable: string -> bool): (p: KindPlan)
    requires |defaultName| > 0
    ensures |p.dir| > 0
    ensures p.dir == CrearDirectorioSeguro(Str(ToStr(Str(RowGet(dato, "ubicacion_" + kind)))), q.name, Some(q.cuit),
                                           Some(KindName(dato, kind, defaultName)), Some(q.login), writable, creatable)
    ensures p.file == KindFile(resp, urlKey, p.dir, KindName(dato, kind, defaultName), kind)
  {
    var name := KindName(dato, kind, defaultName);
    var dir := CrearDirectorioSeguro(Str(ToStr(Str(RowGet(dato, "ubicacion_" + kind)))), q.name, Some(q.cuit),
                                     Some(name), Some(q.login), writable, creatable);
    KindPlan(dir, KindFile(resp, urlKey, dir, name, kind))
  }

  /** `<dir>/<name>_temp.zip` and `<dir>/<name>.csv` end as named and so
      differ. */
  lemma NamesDiffer(dir: string, name: string)
    ensures EndsWith(PathJoin(dir, name + "_temp.zip"), "_temp.zip")
    ensures EndsWith(PathJoin(dir, name + ".csv"), ".csv")
    ensures PathJoin(dir, name + "_temp.zip") != PathJoin(dir, name + ".csv")
  {
    var bz := name + "_temp.zip";
    var bc := name + ".csv";
    JoinEndsWith(dir, bz);
    JoinEndsWith(dir, bc);
    SuffixOfSuffix(PathJoin(dir, bz), bz, "_temp.zip");
    SuffixOfSuffix(PathJoin(dir, bc), bc, ".csv");
    assert PathJoin(dir, bz)[|PathJoin(dir, bz)| - 1] == 'p';
    assert PathJoin(dir, bc)[|PathJoin(dir, bc)| - 1] == 'v';
  }

  lemma JoinEndsWith(a: string, b: string)
    ensures EndsWith(PathJoin(a, b), b)
  {
  }

  lemma SuffixOfSuffix(s: string, mid: string, t: string)
    requires EndsWith(s, mid)
    requires mid == s[|s| - |mid|..] && |t| <= |mid| && mid[|mid| - |t|..] == t
    ensures |t| > 0 ==> EndsWith(s, t) && s[|s| - 1] == t[|t| - 1]
  {
    if |t| > 0 {
      assert s[|s| - |t|..] == mid[|mid| - |t|..];
    }
  }

  /** The `request` entry `errores.json` keeps of a failed answer: the
      seven fields of the request, the password not among them. */
  datatype LoggedRequest = LoggedRequest(desde: string, hasta: string, login: string, name: string, cuit: string,
                                         emitidos: bool, recibidos: bool)

  function Logged(q: McRequest): LoggedRequest {
    LoggedRequest(q.desde, q.hasta, q.login, q.name, q.cuit, q.emitidos, q.recibidos)
  }

  /** The password of a request never reaches `errores.json`: two requests
      that differ only in it are logged alike. */
  lemma LoggedHidesPassword(q: McRequest, password: string)
    ensures Logged(q.(password := password)) == Logged(q)
  {
  }

  /** What a row comes to: a failed answer records the request and the
      error text in `errores.json`; an exception inside the row's `try`
      records the line `Error en <name> - <cuit>: <exception>` in
      `errores.txt` and plans nothing; a good answer plans a file per
      requested kind whose URL the answer gives. */
  datatype McOutcome =
    | ApiError(request: LoggedRequest, error: string)
    | Raised(name: string, cuit: string)
    | Planned(files: seq<McFile>)

  const EmitidosKey := "mis_comprobantes_emitidos_url_minio"
  const RecibidosKey := "mis_comprobantes_recibidos_url_minio"

  /** The file of one kind when the row requests that kind. */
  function RequestedFile(dato: McRow, q: McRequest, resp: Value, requested: bool, kind: string, defaultName: string,
                         urlKey: string, writable: string -> bool, creatable: string -> bool): (f: Option<McFile>)
    requires |defaultName| > 0
    ensures f.Some? <==> requested && Has(resp, urlKey) && Truthy(Field(resp, urlKey))
    ensures f.Some? ==> f.value.kind == kind
  {
    if requested then PlanKind(dato, q, resp, kind, defaultName, urlKey, writable, creatable).file else None
  }

  /** The files a good answer plans: the emitted ones first, then the
      received ones, each only when requested and given a URL. */
  function PlanFiles(dato: McRow, q: McRequest, resp: Value, writable: string -> bool, creatable: string -> bool)
    : (files: seq<McFile>)
    ensures |files| <= 2
    ensures !q.emitidos && !q.recibidos ==> files == []
    ensures forall i :: 0 <= i < |files| ==>
      (files[i].kind == "emitidos" && q.emitidos && Has(resp, EmitidosKey) && Truthy(Field(resp, EmitidosKey)))
      || (files[i].kind == "recibidos" && q.recibidos && Has(resp, RecibidosKey) && Truthy(Field(resp, RecibidosKey)))
    ensures q.emitidos && Has(resp, EmitidosKey) && Truthy(Field(resp, EmitidosKey)) ==> |files| > 0 && files[0].kind == "emitidos"
    ensures q.recibidos && Has(resp, RecibidosKey) && Truthy(Field(resp, RecibidosKey)) ==> |files| > 0 && files[|files| - 1].kind == "recibidos"
  {
    var e := RequestedFile(dato, q, resp, q.emitidos, "emitidos", "Emitidos", EmitidosKey, writable, creatable);
    var r := RequestedFile(dato, q, resp, q.recibidos, "recibidos", "Recibidos", RecibidosKey, writable, creatable);
    Both(e, r)
  }

  /** The present files of two optional ones, in order. */
  function Both(e: Option<McFile>, r: Option<McFile>): (files: seq<McFile>)
    ensures |files| == (if e.Some? then 1 else 0) + (if r.Some? then 1 else 0)
    ensures forall i :: 0 <= i < |files| ==> (e.Some? && files[i] == e.value) || (r.Some? && files[i] == r.value)
    ensures e.Some? ==> files[0] == e.value
    ensures r.Some? ==> files[|files| - 1] == r.value
  {
    (if e.Some? then [e.value] else []) + (if r.Some? then [r.value] else [])
  }

  /** A truthy `error` list of a good answer is joined into a warning;
      an item that is not text makes the join raise. */
  predicate WarningRaises(resp: Value) {
    var w := Field(resp, "error");
    w.List? && |w.items| > 0 && exists i :: 0 <= i < |w.items| && !w.items[i].Str?
  }

  /** A requested kind's URL is logged as `url[:100]` when truthy; a value
      that is neither text nor a list cannot be sliced and raises. */
  predicate UnsliceableUrl(resp: Value, requested: bool, key: string) {
    var u := Field(resp, key);
    requested && Truthy(u) && !u.Str? && !u.List?
  }

  /** One row of `consulta_mc_csv` after its answer `resp`: an answer that
      is not an object raises at `response.get`; a failed one is an API
      error; a good one raises on a warning list it cannot join or a URL it
      cannot log, and otherwise plans its files. */
  function RowOutcome(dato: McRow, resp: Value, formatDate: Value -> string,
                      writable: string -> bool, creatable: string -> bool): (o: McOutcome)
    ensures o.Raised? <==>
      !resp.Dict?
      || (!Failed(resp)
          && (WarningRaises(resp)
              || UnsliceableUrl(resp, RowRequest(dato, formatDate).emitidos, EmitidosKey)
              || UnsliceableUrl(resp, RowRequest(dato, formatDate).recibidos, RecibidosKey)))
    ensures o.Raised? ==> o.name == RepresentedName(dato) && o.cuit == RepresentedCuit(dato)
    ensures o.ApiError? <==> resp.Dict? && Failed(resp)
    ensures o.ApiError? ==> o.request == Logged(RowRequest(dato, formatDate)) && o.error == ErrorText(resp)
    ensures o.Planned? ==> o.files == PlanFiles(dato, RowRequest(dato, formatDate), resp, writable, creatable)
  {
    var q := RowRequest(dato, formatDate);
    if !resp.Dict? then Raised(q.name, q.cuit)
    else if Failed(resp) then ApiError(Logged(q), ErrorText(resp))
    else if WarningRaises(resp) || UnsliceableUrl(resp, q.emitidos, EmitidosKey)
            || UnsliceableUrl(resp, q.recibidos, RecibidosKey) then Raised(q.name, q.cuit)
    else Planned(PlanFiles(dato, q, resp, writable, creatable))
  }

  /** A good answer whose warnings are all text plans a file for each
      requested kind with a text URL, and raises for none of them. */
  lemma TextAnswerPlans(dato: McRow, resp: Value, formatDate: Value -> string,
                        writable: string -> bool, creatable: string -> bool)
    requires resp.Dict? && !Failed(resp)
    requires Field(resp, "error").List? ==> forall i :: 0 <= i < |Field(resp, "error").items| ==> Field(resp, "error").items[i].Str?
    requires Truthy(Field(resp, EmitidosKey)) ==> Field(resp, EmitidosKey).Str?
    requires Truthy(Field(resp, RecibidosKey)) ==> Field(resp, RecibidosKey).Str?
    ensures RowOutcome(dato, resp, formatDate, writable, creatable).Planned?
  {
  }

  /** `exitosos` and `fallidos` of a run of download results: they add up
      to the number of results. */
  function Summary(results: seq<bool>): (r: (nat, nat))
    ensures r.0 == Count(results, (b: bool) => b)
    ensures r.0 + r.1 == |results|
  {
    var ok := Count(results, (b: bool) => b);
    (ok, |results| - ok)
  }
}
