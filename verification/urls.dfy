/** The path helpers the link builders use: the path component of a URL
    (`urlparse(url).path`, without `;params` splitting), `os.path.basename`, `os.path.splitext`,
    `os.path.join` (POSIX flavour) and percent-decoding (`unquote`). */
module Urls {
  import opened Text

  /** Characters allowed in a URL scheme after its first letter. */
  predicate IsSchemeChar(c: char) {
    IsAsciiLetter(c) || IsAsciiDigit(c) || c == '+' || c == '-' || c == '.'
  }

  /** Length of the scheme prefix `scheme:` (0 when the URL has none): the
      text before the first `:` is a scheme when it is non-empty, starts with
      a letter and uses only scheme characters. */
  function SchemeLength(url: string): (n: nat)
    ensures n <= |url|
    ensures n > 0 ==> url[n - 1] == ':' && IsAsciiLetter(url[0])
  {
    var i := FindFirst(url, c => c == ':');
    if 0 < i < |url| && IsAsciiLetter(url[0]) && forall j :: 0 <= j < i ==> IsSchemeChar(url[j])
    then i + 1
    else 0
  }

  predicate IsNetlocEnd(c: char) { c == '/' || c == '?' || c == '#' }

  /** Drops a leading `//netloc` authority, which ends at the first `/`, `?`
      or `#`. */
  function DropNetloc(rest: string): string {
    if StartsWith(rest, "//") then rest[2 + FindFirst(rest[2..], IsNetlocEnd)..] else rest
  }

  /** The path part of `urlparse(url).path` for URLs without `;params` and
      without tab, CR or LF: drop the scheme, then a `//netloc` authority,
      and cut at the fragment and the query. A `;params` suffix of the last
      segment stays in the result here, where `urlparse` splits it off. */
  function UrlPath(url: string): (p: string)
    ensures '?' !in p && '#' !in p
  {
    Before(Before(DropNetloc(url[SchemeLength(url)..]), '#'), '?')
  }

  /** `<scheme>://<host><path>?<query>`. */
  function MakeUrl(scheme: string, host: string, path: string, query: string): string {
    scheme + "://" + host + path + "?" + query
  }

  /** The path of a URL built from a scheme, a host, an absolute path and a
      query string is that path. */
  lemma UrlPathOfHttpUrl(scheme: string, host: string, path: string, query: string)
    requires |scheme| > 0 && IsAsciiLetter(scheme[0])
    requires forall j :: 0 <= j < |scheme| ==> IsSchemeChar(scheme[j])
    requires forall j :: 0 <= j < |host| ==> !IsNetlocEnd(host[j])
    requires |path| > 0 && path[0] == '/' && '?' !in path && '#' !in path
    requires '#' !in query
    ensures UrlPath(MakeUrl(scheme, host, path, query)) == path
  {
    var tail := path + ['?'] + query;
    var rest := "//" + host + tail;
    var url := scheme + ":" + rest;
    assert MakeUrl(scheme, host, path, query) == url;
    SchemeOf(scheme, rest);
    DropNetlocOf(host, tail);
    PathOfTail(path, query);
  }

  lemma DropNetlocOf(host: string, tail: string)
    requires forall j :: 0 <= j < |host| ==> !IsNetlocEnd(host[j])
    requires |tail| > 0 && tail[0] == '/'
    ensures DropNetloc("//" + host + tail) == tail
  {
    var rest := "//" + host + tail;
    assert rest[..2] == "//";
    assert rest[2..] == host + tail;
    NetlocOf(host, tail);
    assert rest[2 + |host|..] == tail;
  }

  lemma PathOfTail(path: string, query: string)
    requires '?' !in path && '#' !in path && '#' !in query
    ensures Before(Before(path + ['?'] + query, '#'), '?') == path
  {
    var tail := path + ['?'] + query;
    assert '#' !in tail by {
      assert forall j :: 0 <= j < |tail| ==> tail[j] != '#' by {
        assert forall j :: 0 <= j < |path| ==> tail[j] == path[j] && path[j] in path;
        assert forall j :: |path| < j < |tail| ==> tail[j] == query[j - |path| - 1] && query[j - |path| - 1] in query;
      }
    }
    BeforeWhole(tail, '#');
    BeforeSplit(path, '?', query);
  }

  lemma SchemeOf(scheme: string, rest: string)
    requires |scheme| > 0 && IsAsciiLetter(scheme[0])
    requires forall j :: 0 <= j < |scheme| ==> IsSchemeChar(scheme[j])
    ensures SchemeLength(scheme + ":" + rest) == |scheme| + 1
    ensures (scheme + ":" + rest)[|scheme| + 1..] == rest
  {
    var url := scheme + ":" + rest;
    assert forall j :: 0 <= j < |scheme| ==> url[j] == scheme[j];
    FindFirstAt(url, c => c == ':', |scheme|);
  }

  lemma NetlocOf(host: string, rest: string)
    requires forall j :: 0 <= j < |host| ==> !IsNetlocEnd(host[j])
    requires |rest| > 0 && rest[0] == '/'
    ensures FindFirst(host + rest, IsNetlocEnd) == |host|
  {
    var t := host + rest;
    assert forall j :: 0 <= j < |host| ==> t[j] == host[j];
    FindFirstAt(t, IsNetlocEnd, |host|);
  }

  /** `os.path.basename`: the text after the last `/`. */
  function Basename(p: string): (r: string)
    ensures '/' !in r && EndsWith(p, r)
  {
    p[FindLast(p, c => c == '/') + 1..]
  }

  /** A basename of a path `dir/name` is `name`. */
  lemma BasenameOfJoin(dir: string, name: string)
    requires '/' !in name
    ensures Basename(dir + "/" + name) == name
  {
    var p := dir + "/" + name;
    assert forall j :: |dir| < j < |p| ==> p[j] == name[j - |dir| - 1];
    assert p[|dir|] == '/';
    assert FindLast(p, c => c == '/') == |dir|;
  }

  /** Index of the extension's dot in `os.path.splitext(p)`, or `|p|` when the
      path has no extension: the last dot after the last `/`, provided some
      character between that `/` and the dot is not a dot (so `.bashrc` and
      `..` have no extension). */
  function ExtStart(p: string): (k: nat)
    ensures k <= |p|
    ensures k < |p| ==> p[k] == '.' && '/' !in p[k..] && '.' !in p[k + 1..]
  {
    var sep := FindLast(p, c => c == '/');
    var dot := FindLast(p, c => c == '.');
    if dot > sep && exists j :: sep < j < dot && p[j] != '.' then
      assert forall j :: dot < j < |p| ==> p[j] != '/' && p[j] != '.';
      assert forall j :: dot <= j < |p| ==> p[j] == p[dot..][j - dot];
      dot
    else |p|
  }

  /** `os.path.splitext(p)`: the root and the extension (with its dot). */
  function SplitExt(p: string): (r: (string, string))
    ensures r.0 + r.1 == p
    ensures r.1 == "" || (r.1[0] == '.' && '/' !in r.1 && '.' !in r.1[1..])
  {
    var k := ExtStart(p);
    assert p[..k] + p[k..] == p;
    (p[..k], p[k..])
  }

  /** A name with an extension splits into that name and extension. */
  lemma SplitExtOfName(stem: string, ext: string)
    requires |stem| > 0 && stem[0] != '.' && '/' !in stem
    requires |ext| > 0 && ext[0] == '.' && '.' !in ext[1..] && '/' !in ext
    ensures SplitExt(stem + ext) == (stem, ext)
  {
    var p := stem + ext;
    assert forall j :: |stem| < j < |p| ==> p[j] == ext[j - |stem|] && p[j] in ext[1..];
    assert forall j :: 0 <= j < |p| ==> p[j] != '/' by {
      assert forall j :: 0 <= j < |stem| ==> p[j] == stem[j] && p[j] in stem;
      assert forall j :: |stem| <= j < |p| ==> p[j] == ext[j - |stem|] && p[j] in ext;
    }
    assert FindLast(p, c => c == '/') == -1;
    assert p[|stem|] == '.';
    assert FindLast(p, c => c == '.') == |stem|;
    assert p[0] == stem[0] && p[0] != '.';
    assert ExtStart(p) == |stem|;
    assert p[..|stem|] == stem;
    assert p[|stem|..] == ext;
  }

  /** `os.path.join(a, b)` with the POSIX separator. */
  function PathJoin(a: string, b: string): (r: string)
    ensures StartsWith(b, "/") ==> r == b
    ensures !StartsWith(b, "/") ==> EndsWith(r, b) && StartsWith(r, a)
  {
    if StartsWith(b, "/") then b
    else if |a| == 0 || EndsWith(a, "/") then a + b
    else a + "/" + b
  }

  function HexValue(c: char): (v: int)
    ensures -1 <= v < 16
  {
    if '0' <= c <= '9' then c as int - '0' as int
    else if 'a' <= c <= 'f' then c as int - 'a' as int + 10
    else if 'A' <= c <= 'F' then c as int - 'A' as int + 10
    else -1
  }

  /** `unquote(s)`: every `%XX` with two hexadecimal digits becomes the
      character with that code (one byte per escape); other text is kept. */
  function Unquote(s: string): (r: string)
    ensures |r| <= |s|
    decreases |s|
  {
    if |s| >= 3 && s[0] == '%' && HexValue(s[1]) >= 0 && HexValue(s[2]) >= 0 then
      [(16 * HexValue(s[1]) + HexValue(s[2])) as char] + Unquote(s[3..])
    else if |s| == 0 then ""
    else [s[0]] + Unquote(s[1..])
  }

  /** Text without `%` is left unchanged by `unquote`. */
  lemma {:induction false} UnquoteNoPercent(s: string)
    requires '%' !in s
    ensures Unquote(s) == s
    decreases |s|
  {
    if |s| > 0 {
      assert s[0] in s;
      assert forall c :: c in s[1..] ==> c in s;
      UnquoteNoPercent(s[1..]);
    }
  }
}
