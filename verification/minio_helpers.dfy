/** The shared download helpers of `mrbot_app/windows/minio_helpers.py`:
    identifier sanitising, link building, download-directory resolution with
    a fallback, and the per-link download loop. The filesystem is a
    writability predicate and a set of names already present; the transport
    is a function from URL and target path to a result. */
module MinioHelpers {
  import opened Prelude
  import opened Text
  import opened Digits
  import opened Json
  import opened Urls
  import opened Helpers

  // ---------------------------------------------------------------------------
  // sanitize_identifier

  /** The characters `[0-9A-Za-z._-]` an identifier may keep. */
  predicate IsIdentChar(c: char) {
    IsAsciiLetter(c) || IsAsciiDigit(c) || c == '.' || c == '_' || c == '-'
  }

  predicate IsUnderscore(c: char) { c == '_' }

  /** `re.sub(r"[^0-9A-Za-z._-]", "_", s)`. */
  function ReplaceDisallowed(s: string): (r: string)
    ensures |r| == |s|
    ensures forall i :: 0 <= i < |s| ==> r[i] == if IsIdentChar(s[i]) then s[i] else '_'
  {
    seq(|s|, i requires 0 <= i < |s| => if IsIdentChar(s[i]) then s[i] else '_')
  }

  /** Some character would survive sanitising: an identifier character
      other than `_`. */
  predicate HasIdentContent(s: string) {
    exists c :: c in s && IsIdentChar(c) && c != '_'
  }

  /** What a sanitised identifier looks like. */
  predicate IsCleanIdentifier(s: string) {
    && |s| > 0
    && (forall i :: 0 <= i < |s| ==> IsIdentChar(s[i]))
    && s[0] != '_' && s[|s| - 1] != '_'
  }

  function Cleaned(value: string): string {
    Trim(ReplaceDisallowed(Strip(value)), IsUnderscore)
  }

  /** Stripping whitespace does not remove identifier characters. */
  lemma StripKeepsContent(value: string)
    ensures HasIdentContent(Strip(value)) <==> HasIdentContent(value)
  {
    TrimSubset(value, IsSpace);
    if HasIdentContent(value) {
      var c :| c in value && IsIdentChar(c) && c != '_';
      var i :| 0 <= i < |value| && value[i] == c;
      TrimKeeps(value, IsSpace, i);
    }
  }

  /** After replacement, some character is not `_` exactly when the text had
      identifier content. */
  lemma ReplaceKeepsContent(s: string)
    ensures (exists j :: 0 <= j < |s| && ReplaceDisallowed(s)[j] != '_') <==> HasIdentContent(s)
  {
    var t := ReplaceDisallowed(s);
    if HasIdentContent(s) {
      var c :| c in s && IsIdentChar(c) && c != '_';
      var j :| 0 <= j < |s| && s[j] == c;
      assert t[j] == c;
    }
    if exists j :: 0 <= j < |s| && t[j] != '_' {
      var j :| 0 <= j < |s| && t[j] != '_';
      assert s[j] in s;
    }
  }

  lemma ReplaceAllIdent(s: string)
    ensures forall c :: c in Trim(ReplaceDisallowed(s), IsUnderscore) ==> IsIdentChar(c)
  {
    var t := ReplaceDisallowed(s);
    TrimSubset(t, IsUnderscore);
    assert forall c :: c in t ==> IsIdentChar(c);
  }

  lemma CleanedEmptiness(value: string)
    ensures |Cleaned(value)| > 0 <==> HasIdentContent(value)
  {
    var s := Strip(value);
    StripKeepsContent(value);
    ReplaceKeepsContent(s);
    TrimEmpty(ReplaceDisallowed(s), IsUnderscore);
  }

  lemma CleanedShape(value: string)
    requires |Cleaned(value)| > 0
    ensures IsCleanIdentifier(Cleaned(value))
  {
    ReplaceAllIdent(Strip(value));
    var r := Cleaned(value);
    assert forall i :: 0 <= i < |r| ==> r[i] in r;
  }

  lemma CleanedNonEmpty(value: string)
    ensures |Cleaned(value)| > 0 <==> HasIdentContent(value)
    ensures |Cleaned(value)| > 0 ==> IsCleanIdentifier(Cleaned(value))
  {
    CleanedEmptiness(value);
    if |Cleaned(value)| > 0 {
      CleanedShape(value);
    }
  }

  /** `sanitize_identifier` (also `_sanitize_identifier` in the SCT and RCEL
      windows and `_sanitize_filename_part` in the CCMA window): strip, turn
      every character outside `[0-9A-Za-z._-]` into `_`, strip `_` from both
      ends, and use the fallback when nothing is left. */
  function SanitizeIdentifier(value: string, fallback: string): (r: string)
    ensures HasIdentContent(value) ==> IsCleanIdentifier(r)
    ensures !HasIdentContent(value) ==> r == fallback
  {
    CleanedNonEmpty(value);
    var c := Cleaned(value);
    if |c| > 0 then c else fallback
  }

  lemma CleanNotPadded(value: string)
    requires IsCleanIdentifier(value)
    ensures Strip(value) == value
  {
    assert !IsSpace(value[0]) && !IsSpace(value[|value| - 1]);
    TrimLeftNoop(value, IsSpace);
    TrimRightNoop(value, IsSpace);
  }

  lemma ReplaceIdentity(value: string)
    requires forall i :: 0 <= i < |value| ==> IsIdentChar(value[i])
    ensures ReplaceDisallowed(value) == value
  {
  }

  lemma CleanTrimUnderscore(value: string)
    requires IsCleanIdentifier(value)
    ensures Trim(value, IsUnderscore) == value
  {
    TrimLeftNoop(value, IsUnderscore);
    TrimRightNoop(value, IsUnderscore);
  }

  /** A clean identifier is its own sanitised form. */
  lemma SanitizeClean(value: string, fallback: string)
    requires IsCleanIdentifier(value)
    ensures SanitizeIdentifier(value, fallback) == value
  {
    CleanNotPadded(value);
    ReplaceIdentity(value);
    CleanTrimUnderscore(value);
    assert Cleaned(value) == value;
  }

  /** Sanitising twice is sanitising once (for a clean fallback, whatever
      the input). */
  lemma SanitizeIdempotent(value: string, fallback: string)
    requires IsCleanIdentifier(fallback)
    ensures SanitizeIdentifier(SanitizeIdentifier(value, fallback), fallback)
         == SanitizeIdentifier(value, fallback)
  {
    SanitizeClean(SanitizeIdentifier(value, fallback), fallback);
  }

  // ---------------------------------------------------------------------------
  // _ensure_extension and build_link

  /** `_ensure_extension(name, url)`: a name with a dot is kept; otherwise the
      extension of the URL's path, if any, is appended. */
  function EnsureExtension(name: string, url: string): (r: string)
    ensures '.' in name ==> r == name
    ensures StartsWith(r, name)
    ensures '.' !in name ==> r == name + SplitExt(UrlPath(url)).1
  {
    if '.' in name then name
    else
      var ext := SplitExt(UrlPath(url)).1;
      if |ext| > 0 then name + ext else name
  }

  lemma EnsureExtensionIdempotent(name: string, url: string)
    ensures EnsureExtension(EnsureExtension(name, url), url) == EnsureExtension(name, url)
  {
    var r := EnsureExtension(name, url);
    if '.' !in name {
      var ext := SplitExt(UrlPath(url)).1;
      if |ext| > 0 {
        assert r[|name|] == '.';
      }
    }
  }

  datatype Link = Link(url: string, filename: string)

  /** The name `build_link` reads from the URL: the percent-decoded basename
      of its path, stripped. */
  function UrlFileName(cleanUrl: string): string {
    Strip(Unquote(Basename(UrlPath(cleanUrl))))
  }

  /** The name `build_link` falls back to: the stripped hint, or
      `<prefix>_<index>`. */
  function HintName(hint: Option<string>, prefix: string, index: int): (r: string)
    ensures |r| > 0
  {
    var h := Strip(hint.GetOr(""));
    if |h| > 0 then h else prefix + "_" + IntToString(index)
  }

  /** `build_link`: only a text that starts with `http` (any case) once
      stripped becomes a link; its URL is the stripped text and its file name
      the URL's own file name when there is one, else the hint or
      `<prefix>_<index>` with the URL's extension added. */
  function BuildLink(url: Value, hint: Option<string>, prefix: string, index: int): (r: Option<Link>)
    ensures r.Some? <==> url.Str? && IsHttp(Strip(url.s))
    ensures r.Some? ==> r.value.url == Strip(url.s) && |r.value.filename| > 0
    ensures r.Some? && |UrlFileName(r.value.url)| > 0 ==> r.value.filename == UrlFileName(r.value.url)
    ensures r.Some? && |UrlFileName(r.value.url)| == 0 ==>
      r.value.filename == EnsureExtension(HintName(hint, prefix, index), r.value.url)
  {
    if !url.Str? then None
    else
      var clean := Strip(url.s);
      if !IsHttp(clean) then None
      else
        var name := UrlFileName(clean);
        if |name| > 0 then Some(Link(clean, name))
        else Some(Link(clean, EnsureExtension(HintName(hint, prefix, index), clean)))
  }

  /** `build_link` reads its hint: the URL is text that starts with `http`
      once stripped, and its path names no file. */
  predicate ReadsHint(url: Value) {
    url.Str? && IsHttp(Strip(url.s)) && |UrlFileName(Strip(url.s))| == 0
  }

  /** The file name of a link never depends on the hint, prefix or index when
      the URL names its file. */
  lemma BuildLinkNamedUrl(url: string, h1: Option<string>, h2: Option<string>, p1: string, p2: string, i1: int, i2: int)
    requires IsHttp(Strip(url)) && |UrlFileName(Strip(url))| > 0
    ensures BuildLink(Str(url), h1, p1, i1) == BuildLink(Str(url), h2, p2, i2)
  {
  }

  /** The URL `https://<host>/<dir>/<name>?<query>`. */
  function HttpsUrl(host: string, dir: string, name: string, query: string): string {
    MakeUrl("https", host, "/" + dir + "/" + name, query)
  }

  predicate PlainHost(host: string) {
    |host| > 0 && !IsSpace(host[0]) && forall j :: 0 <= j < |host| ==> !IsNetlocEnd(host[j])
  }

  predicate PlainSegment(s: string) {
    '/' !in s && '?' !in s && '#' !in s
  }

  /** A file name that survives decoding and stripping unchanged. */
  predicate PlainName(name: string) {
    |name| > 0 && !IsSpace(name[0]) && !IsSpace(name[|name| - 1]) && PlainSegment(name) && '%' !in name
  }

  predicate PlainQuery(query: string) {
    |query| > 0 && '#' !in query && !IsSpace(query[|query| - 1])
  }

  lemma HttpsUrlIsHttp(host: string, dir: string, name: string, query: string)
    requires |query| > 0 && !IsSpace(query[|query| - 1])
    ensures Strip(HttpsUrl(host, dir, name, query)) == HttpsUrl(host, dir, name, query)
    ensures IsHttp(HttpsUrl(host, dir, name, query))
  {
    var url := HttpsUrl(host, dir, name, query);
    assert url[0] == 'h' && url[1] == 't' && url[2] == 't' && url[3] == 'p';
    assert url[|url| - 1] == query[|query| - 1];
    TrimLeftNoop(url, IsSpace);
    TrimRightNoop(url, IsSpace);
    HttpPrefix(url);
  }

  lemma HttpsUrlFileName(host: string, dir: string, name: string, query: string)
    requires PlainHost(host) && PlainSegment(dir) && PlainName(name) && PlainQuery(query)
    ensures UrlFileName(HttpsUrl(host, dir, name, query)) == name
  {
    var path := "/" + dir + "/" + name;
    assert path[0] == '/';
    assert '?' !in path && '#' !in path;
    UrlPathOfHttpUrl("https", host, path, query);
    assert path == ("/" + dir) + "/" + name;
    BasenameOfJoin("/" + dir, name);
    UnquoteNoPercent(name);
    TrimLeftNoop(name, IsSpace);
    TrimRightNoop(name, IsSpace);
  }

  /** A link to `https://host/dir/name?query` is named `name`, whatever the
      hint, prefix and index (for a name without spaces or escapes). */
  lemma BuildLinkFileName(host: string, dir: string, name: string, query: string,
                          hint: Option<string>, prefix: string, index: int)
    requires PlainHost(host) && PlainSegment(dir) && PlainName(name) && PlainQuery(query)
    ensures BuildLink(Str(HttpsUrl(host, dir, name, query)), hint, prefix, index)
         == Some(Link(HttpsUrl(host, dir, name, query), name))
  {
    HttpsUrlIsHttp(host, dir, name, query);
    HttpsUrlFileName(host, dir, name, query);
  }

  // ---------------------------------------------------------------------------
  // is_writable_dir and prepare_download_dir

  /** `is_writable_dir`: the empty path is never writable; otherwise the
      filesystem decides (`writable` stands for creating the directory and a
      probe file in it). */
  predicate IsWritableDir(path: string, writable: string -> bool) {
    |path| > 0 && writable(path)
  }

  datatype DirChoice = DirChoice(dir: Option<string>, messages: seq<string>)

  /** `descargas/<module>/<sanitised CUIT or "desconocido">`. */
  function FallbackDir(moduleName: string, cuitRepr: string): string {
    var cuit := if |cuitRepr| > 0 then cuitRepr else "desconocido";
    PathJoin(PathJoin("descargas", moduleName), SanitizeIdentifier(cuit, "desconocido"))
  }

  function CannotUseMessage(target: string): string {
    "No se pudo usar la carpeta indicada '" + target + "'. Se intentar\U{E1} con la ruta por defecto."
  }

  function UsingDefaultMessage(fallback: string): string {
    "Usando carpeta por defecto: " + fallback
  }

  function CannotPrepareMessage(fallback: string): string {
    "No se pudo preparar la ruta por defecto '" + fallback + "'."
  }

  /** `prepare_download_dir`: the stripped desired path when it is usable,
      silently; otherwise the module's default folder, with a note; otherwise
      no folder and an explanation. */
  function PrepareDownloadDir(moduleName: string, desired: string, cuitRepr: string, writable: string -> bool): (r: DirChoice)
    ensures r.dir == Some(Strip(desired)) && r.messages == [] <==> IsWritableDir(Strip(desired), writable)
    ensures r.dir.Some? ==> IsWritableDir(r.dir.value, writable)
    ensures r.dir.Some? && r.dir.value != Strip(desired) ==> r.dir.value == FallbackDir(moduleName, cuitRepr)
    ensures r.dir.None? <==> !IsWritableDir(Strip(desired), writable) && !IsWritableDir(FallbackDir(moduleName, cuitRepr), writable)
    ensures r.dir.None? ==> |r.messages| > 0
    ensures |r.messages| <= 2
  {
    var target := Strip(desired);
    if IsWritableDir(target, writable) then DirChoice(Some(target), [])
    else
      var first := if |target| > 0 then [CannotUseMessage(target)] else [];
      var fallback := FallbackDir(moduleName, cuitRepr);
      if IsWritableDir(fallback, writable) then
        DirChoice(Some(fallback), first + [UsingDefaultMessage(fallback)])
      else
        DirChoice(None, first + [CannotPrepareMessage(fallback)])
  }

  // ---------------------------------------------------------------------------
  // download_links

  /** What the transport (`descargar_archivo_minio`) reports. `created`
      says whether a failed transfer left a (partial) file at the path: the
      file is opened only once the answer is known to be good, so a failure
      while streaming leaves one and an earlier failure does not. */
  datatype FetchResult = FetchResult(success: bool, created: bool, error: string)

  /** What happened to one link: no URL, saved under a collision-free name,
      or a failed transfer to that name, which may have left a file there. */
  datatype LinkOutcome = Skipped | Saved(target: string) | Failed(target: string, reason: string, left: bool)

  predicate IsSaved(o: LinkOutcome) { o.Saved? }

  /** The name an outcome leaves taken in the folder, if any. */
  function TakenName(o: LinkOutcome): set<string> {
    if o.Saved? || (o.Failed? && o.left) then {o.target} else {}
  }

  /** The names in the folder after the given outcomes. */
  function NamesAfter(existing: set<string>, report: seq<LinkOutcome>): set<string>
    decreases |report|
  {
    if |report| == 0 then existing
    else NamesAfter(existing, report[..|report| - 1]) + TakenName(report[|report| - 1])
  }

  const NoDirMessage := "No hay ruta de descarga disponible."

  /** The name a link is reported under: its file name, or `archivo`. */
  function DisplayName(link: Link): (r: string)
    ensures |r| > 0
  {
    if |link.filename| > 0 then link.filename else "archivo"
  }

  /** The error line one outcome contributes (none for a saved file). */
  function ErrorLine(link: Link, o: LinkOutcome): seq<string> {
    match o
    case Skipped => [DisplayName(link) + ": URL vac\U{ED}a"]
    case Saved(_) => []
    case Failed(_, reason, _) =>
      [DisplayName(link) + ": " + (if |reason| > 0 then reason else "Error al descargar")]
  }

  /** The error lines of a run, in link order. */
  function ErrorLines(links: seq<Link>, report: seq<LinkOutcome>): (r: seq<string>)
    requires |links| == |report|
    ensures |r| == |links| - Count(report, IsSaved)
    decreases |links|
  {
    if |links| == 0 then []
    else
      var n := |links| - 1;
      CountAppend(report[..n], report[n], IsSaved);
      assert report == report[..n] + [report[n]];
      ErrorLines(links[..n], report[..n]) + ErrorLine(links[n], report[n])
  }

  /** `"; ".join(errors) if errors else None`: the error cell of a result
      row. */
  function ErrorCell(errors: seq<string>): (r: Option<string>)
    ensures r.None? <==> |errors| == 0
    ensures |errors| == 1 ==> r == Some(errors[0])
  {
    if |errors| > 0 then Some(Join(errors, "; ")) else None
  }

  /** The error lines grow by one outcome's line per link. */
  lemma ErrorLinesSnoc(links: seq<Link>, report: seq<LinkOutcome>, i: nat, o: LinkOutcome)
    requires i < |links| && |report| == i
    ensures ErrorLines(links[..i + 1], report + [o]) == ErrorLines(links[..i], report) + ErrorLine(links[i], o)
  {
    assert links[..i + 1][..i] == links[..i];
    assert (report + [o])[..i] == report;
  }

  /** Skipped outcomes are exactly the links without a URL. */
  predicate SkipsMatch(links: seq<Link>, report: seq<LinkOutcome>) {
    forall k :: 0 <= k < |report| && k < |links| ==> (report[k].Skipped? <==> |links[k].url| == 0)
  }

  /** No saved name was taken at the start. */
  predicate SavedOutside(report: seq<LinkOutcome>, existing: set<string>) {
    forall k :: 0 <= k < |report| && report[k].Saved? ==> report[k].target !in existing
  }

  /** Every saved name was free at the start and is now taken. */
  predicate SavedFresh(report: seq<LinkOutcome>, existing: set<string>, names: set<string>) {
    forall k :: 0 <= k < |report| && report[k].Saved? ==> report[k].target !in existing && report[k].target in names
  }

  /** No two saved outcomes share a name. */
  predicate SavedDistinct(report: seq<LinkOutcome>) {
    forall i, j :: 0 <= i < j < |report| && report[i].Saved? && report[j].Saved? ==>
      report[i].target != report[j].target
  }

  /** The outcome `download_links` gives one link while `names` are taken
      in the folder. */
  ghost function OutcomeFor(link: Link, destDir: string, names: set<string>, ts: string,
                            fetch: (string, string) -> FetchResult): LinkOutcome
  {
    if |link.url| == 0 then Skipped
    else
      var target := UniqueName(names, DisplayName(link), ts);
      var res := fetch(link.url, PathJoin(destDir, target));
      if res.success then Saved(target) else Failed(target, res.error, res.created)
  }

  /** The outcomes of a whole run into a folder that starts with the names
      `existing`: each link sees the names the links before it left taken. */
  ghost function RunOutcomes(links: seq<Link>, destDir: string, existing: set<string>, clock: Clock,
                             fetch: (string, string) -> FetchResult): (r: seq<LinkOutcome>)
    ensures |r| == |links|
    decreases |links|
  {
    if |links| == 0 then []
    else
      var prev := RunOutcomes(links[..|links| - 1], destDir, existing, clock, fetch);
      prev + [OutcomeFor(links[|links| - 1], destDir, NamesAfter(existing, prev), clock(|links| - 1), fetch)]
  }

  /** A run over one more link adds that link's outcome. */
  lemma RunOutcomesSnoc(links: seq<Link>, i: nat, destDir: string, existing: set<string>, clock: Clock,
                        fetch: (string, string) -> FetchResult)
    requires i < |links|
    ensures RunOutcomes(links[..i + 1], destDir, existing, clock, fetch)
      == RunOutcomes(links[..i], destDir, existing, clock, fetch)
         + [OutcomeFor(links[i], destDir, NamesAfter(existing, RunOutcomes(links[..i], destDir, existing, clock, fetch)), clock(i), fetch)]
  {
    assert links[..i + 1][..i] == links[..i];
  }

  /** How many files such a run saves. */
  ghost function RunSaved(links: seq<Link>, destDir: string, existing: set<string>, clock: Clock,
                          fetch: (string, string) -> FetchResult): nat
  {
    Count(RunOutcomes(links, destDir, existing, clock, fetch), IsSaved)
  }

  /** The error lines such a run reports, in link order. */
  ghost function RunErrors(links: seq<Link>, destDir: string, existing: set<string>, clock: Clock,
                           fetch: (string, string) -> FetchResult): (r: seq<string>)
    ensures RunSaved(links, destDir, existing, clock, fetch) + |r| == |links|
  {
    ErrorLines(links, RunOutcomes(links, destDir, existing, clock, fetch))
  }

  /** The outcome of the last link of a run, given the run before it. */
  ghost function LastOutcome(links: seq<Link>, destDir: string, existing: set<string>, clock: Clock,
                             fetch: (string, string) -> FetchResult): LinkOutcome
    requires |links| > 0
  {
    var n := |links| - 1;
    OutcomeFor(links[n], destDir, NamesAfter(existing, RunOutcomes(links[..n], destDir, existing, clock, fetch)), clock(n), fetch)
  }

  /** The saved count grows by one exactly when the last link is saved. */
  lemma RunSavedSnoc(links: seq<Link>, destDir: string, existing: set<string>, clock: Clock,
                     fetch: (string, string) -> FetchResult)
    requires |links| > 0
    ensures RunSaved(links, destDir, existing, clock, fetch)
      == RunSaved(links[..|links| - 1], destDir, existing, clock, fetch)
         + (if LastOutcome(links, destDir, existing, clock, fetch).Saved? then 1 else 0)
  {
    var n := |links| - 1;
    CountAppend(RunOutcomes(links[..n], destDir, existing, clock, fetch), LastOutcome(links, destDir, existing, clock, fetch), IsSaved);
  }

  /** When every link has a URL and every transfer succeeds, every link is
      saved and no error line is written. */
  lemma {:induction false} RunAllSaved(links: seq<Link>, destDir: string, existing: set<string>, clock: Clock,
                                       fetch: (string, string) -> FetchResult)
    requires forall k :: 0 <= k < |links| ==> |links[k].url| > 0
    requires forall url, path :: fetch(url, path).success
    ensures RunSaved(links, destDir, existing, clock, fetch) == |links|
    ensures RunErrors(links, destDir, existing, clock, fetch) == []
    decreases |links|
  {
    if |links| > 0 {
      var n := |links| - 1;
      assert forall k :: 0 <= k < n ==> links[..n][k] == links[k];
      RunAllSaved(links[..n], destDir, existing, clock, fetch);
      RunSavedSnoc(links, destDir, existing, clock, fetch);
      RunErrorsSnoc(links, destDir, existing, clock, fetch);
      LastSaved(links, destDir, existing, clock, fetch);
    }
  }

  /** A last link with a URL whose transfer succeeds is saved. */
  lemma LastSaved(links: seq<Link>, destDir: string, existing: set<string>, clock: Clock,
                  fetch: (string, string) -> FetchResult)
    requires |links| > 0 && |links[|links| - 1].url| > 0
    requires forall url, path :: fetch(url, path).success
    ensures LastOutcome(links, destDir, existing, clock, fetch).Saved?
  {
    var n := |links| - 1;
    var names := NamesAfter(existing, RunOutcomes(links[..n], destDir, existing, clock, fetch));
    assert fetch(links[n].url, PathJoin(destDir, UniqueName(names, DisplayName(links[n]), clock(n)))).success;
  }

  /** The error lines grow by the last link's line. */
  lemma RunErrorsSnoc(links: seq<Link>, destDir: string, existing: set<string>, clock: Clock,
                      fetch: (string, string) -> FetchResult)
    requires |links| > 0
    ensures RunErrors(links, destDir, existing, clock, fetch)
      == RunErrors(links[..|links| - 1], destDir, existing, clock, fetch)
         + ErrorLine(links[|links| - 1], LastOutcome(links, destDir, existing, clock, fetch))
  {
    var n := |links| - 1;
    var prev := RunOutcomes(links[..n], destDir, existing, clock, fetch);
    var all := RunOutcomes(links, destDir, existing, clock, fetch);
    assert all == prev + [LastOutcome(links, destDir, existing, clock, fetch)];
    assert all[..n] == prev;
  }

  /** When no transfer succeeds, nothing is saved and every link gets an
      error line. */
  lemma {:induction false} RunNoneSaved(links: seq<Link>, destDir: string, existing: set<string>, clock: Clock,
                                        fetch: (string, string) -> FetchResult)
    requires forall url, path :: !fetch(url, path).success
    ensures RunSaved(links, destDir, existing, clock, fetch) == 0
    ensures |RunErrors(links, destDir, existing, clock, fetch)| == |links|
    decreases |links|
  {
    if |links| > 0 {
      RunNoneSaved(links[..|links| - 1], destDir, existing, clock, fetch);
      RunSavedSnoc(links, destDir, existing, clock, fetch);
    }
  }

  /** One link: no URL skips it; otherwise it is fetched to the name
      `get_unique_filename` picks among `names`, which a successful transfer,
      or a failed one that left a file, takes. */
  method DownloadOne(link: Link, destDir: string, names: set<string>, ts: string,
                     fetch: (string, string) -> FetchResult)
    returns (outcome: LinkOutcome, after: set<string>)
    ensures outcome.Skipped? <==> |link.url| == 0
    ensures !outcome.Skipped? ==>
      var res := fetch(link.url, PathJoin(destDir, outcome.target));
      && UniqueNameFor(names, DisplayName(link), ts, outcome.target)
      && (outcome.Saved? <==> res.success)
      && (outcome.Failed? ==> outcome.reason == res.error && outcome.left == res.created)
    ensures after == names + TakenName(outcome)
    ensures outcome == OutcomeFor(link, destDir, names, ts, fetch)
  {
    if |link.url| == 0 {
      return Skipped, names;
    }
    var unique := GetUniqueFilename(names, DisplayName(link), ts);
    var res := fetch(link.url, PathJoin(destDir, unique));
    if res.success {
      outcome := Saved(unique);
    } else {
      outcome := Failed(unique, res.error, res.created);
    }
    after := names + TakenName(outcome);
  }

  lemma SavedStep(report: seq<LinkOutcome>, o: LinkOutcome, existing: set<string>, names: set<string>, after: set<string>)
    requires existing <= names && SavedFresh(report, existing, names) && SavedDistinct(report)
    requires !o.Skipped? ==> o.target !in names
    requires after == names + TakenName(o)
    ensures existing <= after && SavedFresh(report + [o], existing, after) && SavedDistinct(report + [o])
  {
  }

  /** Outcome `k` went to the name `get_unique_filename` picks among the
      names present before it, and it is saved exactly when that transfer
      succeeded. */
  ghost predicate TargetsFaithful(links: seq<Link>, report: seq<LinkOutcome>, existing: set<string>, destDir: string,
                            clock: Clock, fetch: (string, string) -> FetchResult) {
    forall k :: 0 <= k < |report| && k < |links| && !report[k].Skipped? ==>
      && UniqueNameFor(NamesAfter(existing, report[..k]), DisplayName(links[k]), clock(k), report[k].target)
      && (report[k].Saved? <==> fetch(links[k].url, PathJoin(destDir, report[k].target)).success)
  }

  lemma TargetsStep(links: seq<Link>, report: seq<LinkOutcome>, o: LinkOutcome, existing: set<string>,
                    destDir: string, clock: Clock, fetch: (string, string) -> FetchResult)
    requires |report| < |links| && TargetsFaithful(links, report, existing, destDir, clock, fetch)
    requires !o.Skipped? ==>
      && UniqueNameFor(NamesAfter(existing, report), DisplayName(links[|report|]), clock(|report|), o.target)
      && (o.Saved? <==> fetch(links[|report|].url, PathJoin(destDir, o.target)).success)
    ensures TargetsFaithful(links, report + [o], existing, destDir, clock, fetch)
    ensures NamesAfter(existing, report + [o]) == NamesAfter(existing, report) + TakenName(o)
  {
    var r := report + [o];
    assert r[..|report|] == report;
    forall k | 0 <= k < |report|
      ensures r[..k] == report[..k]
    {
    }
  }

  /** One turn of `download_links`: the next link's outcome keeps every
      promise the run makes about the outcomes so far. */
  method DownloadNext(links: seq<Link>, report: seq<LinkOutcome>, destDir: string, existing: set<string>,
                      names: set<string>, clock: Clock, fetch: (string, string) -> FetchResult)
    returns (outcome: LinkOutcome, after: set<string>)
    requires |report| < |links| && existing <= names && names == NamesAfter(existing, report)
    requires SkipsMatch(links, report) && SavedFresh(report, existing, names) && SavedDistinct(report)
    requires TargetsFaithful(links, report, existing, destDir, clock, fetch)
    ensures existing <= after && after == NamesAfter(existing, report + [outcome])
    ensures SkipsMatch(links, report + [outcome])
    ensures SavedFresh(report + [outcome], existing, after) && SavedDistinct(report + [outcome])
    ensures TargetsFaithful(links, report + [outcome], existing, destDir, clock, fetch)
    ensures outcome == OutcomeFor(links[|report|], destDir, names, clock(|report|), fetch)
  {
    outcome, after := DownloadOne(links[|report|], destDir, names, clock(|report|), fetch);
    SavedStep(report, outcome, existing, names, after);
    TargetsStep(links, report, outcome, existing, destDir, clock, fetch);
  }

  /** `download_links`: `existing` holds the names present in `destDir`
      (`""` stands for no directory) and `clock(k)` the timestamp the
      renaming of the `k`-th link reads.
      Every link yields one outcome, fetched to the name `get_unique_filename`
      picks among the names present before it (a failed transfer that left a
      file keeps its name taken); a saved file's name is new in the folder,
      and the error list has one line per unsaved link. */
  method DownloadLinks(links: seq<Link>, destDir: string, existing: set<string>, clock: Clock,
                       fetch: (string, string) -> FetchResult)
    returns (successes: nat, errors: seq<string>, report: seq<LinkOutcome>)
    ensures |destDir| == 0 ==> successes == 0 && errors == [NoDirMessage] && report == []
    ensures |destDir| > 0 ==> |report| == |links| && successes + |errors| == |links|
    ensures |destDir| > 0 ==> successes == Count(report, IsSaved) && errors == ErrorLines(links, report)
    ensures SkipsMatch(links, report)
    ensures SavedOutside(report, existing)
    ensures SavedDistinct(report)
    ensures TargetsFaithful(links, report, existing, destDir, clock, fetch)
    ensures |destDir| > 0 ==> report == RunOutcomes(links, destDir, existing, clock, fetch)
    ensures |destDir| > 0 ==> successes == RunSaved(links, destDir, existing, clock, fetch)
    ensures |destDir| > 0 ==> errors == RunErrors(links, destDir, existing, clock, fetch)
  {
    if |destDir| == 0 {
      return 0, [NoDirMessage], [];
    }
    successes, errors, report := 0, [], [];
    var names := existing;
    var i := 0;
    while i < |links|
      invariant i <= |links| && |report| == i
      invariant successes == Count(report, IsSaved)
      invariant errors == ErrorLines(links[..i], report)
      invariant existing <= names
      invariant SkipsMatch(links, report)
      invariant SavedFresh(report, existing, names)
      invariant SavedDistinct(report)
      invariant names == NamesAfter(existing, report)
      invariant TargetsFaithful(links, report, existing, destDir, clock, fetch)
      invariant report == RunOutcomes(links[..i], destDir, existing, clock, fetch)
    {
      RunOutcomesSnoc(links, i, destDir, existing, clock, fetch);
      var outcome, after := DownloadNext(links, report, destDir, existing, names, clock, fetch);
      CountAppend(report, outcome, IsSaved);
      ErrorLinesSnoc(links, report, i, outcome);
      if outcome.Saved? {
        successes := successes + 1;
      }
      names := after;
      report := report + [outcome];
      errors := errors + ErrorLine(links[i], outcome);
      i := i + 1;
    }
    assert links[..i] == links;
  }
}
