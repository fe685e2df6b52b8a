/** `collect_minio_links`, the generic depth-first search for download links
    in a decoded payload, and the de-duplicating link list that it and every
    service-specific extractor build. */
module MinioLinks {
  import opened Prelude
  import opened Text
  import opened Json
  import opened MinioHelpers

  /** A link as `build_link` produces it: an `http` URL without surrounding
      blanks and a non-empty file name. */
  predicate GoodLink(l: Link) {
    IsHttp(l.url) && Strip(l.url) == l.url && |l.filename| > 0
  }

  /** No two links share their `(url, filename)` pair, and each is good. */
  predicate WellFormed(links: seq<Link>) {
    NoDup(links) && forall i :: 0 <= i < |links| ==> GoodLink(links[i])
  }

  lemma WellFormedSingle(l: Link)
    requires GoodLink(l)
    ensures WellFormed([l])
  {
  }

  lemma BuildLinkGood(url: Value, hint: Option<string>, prefix: string, index: int)
    ensures BuildLink(url, hint, prefix, index).Some? ==> GoodLink(BuildLink(url, hint, prefix, index).value)
  {
    if url.Str? {
      TrimIdempotent(url.s, IsSpace);
    }
  }

  /** The `seen` check: a link joins the list unless an equal pair is
      already in it. */
  function AddUnique(acc: seq<Link>, l: Option<Link>): (r: seq<Link>)
    ensures acc <= r && |r| <= |acc| + 1
    ensures l.Some? ==> l.value in r
    ensures forall x :: x in r ==> x in acc || l == Some(x)
    ensures NoDup(acc) ==> NoDup(r)
    ensures WellFormed(acc) && (l.Some? ==> GoodLink(l.value)) ==> WellFormed(r)
  {
    if l.None? || l.value in acc then acc
    else
      var r := acc + [l.value];
      if NoDup(acc) then NoDupSnoc(acc, l.value); r else r
  }

  /** Every link that was built is in `r`. */
  predicate Covers(r: seq<Link>, opts: seq<Option<Link>>) {
    forall i :: 0 <= i < |opts| && opts[i].Some? ==> opts[i].value in r
  }

  /** Every link of `r` was already in `acc` or was built. */
  predicate Within(r: seq<Link>, acc: seq<Link>, opts: seq<Option<Link>>) {
    forall x :: x in r ==> x in acc || Some(x) in opts
  }

  /** Every link that was built is good. */
  predicate AllGood(opts: seq<Option<Link>>) {
    forall i :: 0 <= i < |opts| && opts[i].Some? ==> GoodLink(opts[i].value)
  }

  lemma CoversCons(r: seq<Link>, opts: seq<Option<Link>>)
    requires |opts| > 0 && Covers(r, opts[1..])
    requires opts[0].Some? ==> opts[0].value in r
    ensures Covers(r, opts)
  {
    assert forall i :: 1 <= i < |opts| ==> opts[i] == opts[1..][i - 1];
  }

  lemma WithinCons(r: seq<Link>, next: seq<Link>, acc: seq<Link>, opts: seq<Option<Link>>)
    requires |opts| > 0 && Within(r, next, opts[1..])
    requires forall x :: x in next ==> x in acc || opts[0] == Some(x)
    ensures Within(r, acc, opts)
  {
    assert forall x :: Some(x) in opts[1..] ==> Some(x) in opts;
  }

  lemma AllGoodAppend(a: seq<Option<Link>>, b: seq<Option<Link>>)
    requires AllGood(a) && AllGood(b)
    ensures AllGood(a + b)
  {
    assert forall k :: |a| <= k < |a| + |b| ==> (a + b)[k] == b[k - |a|];
  }

  lemma AllGoodTail(opts: seq<Option<Link>>)
    requires |opts| > 0 && AllGood(opts)
    ensures AllGood(opts[1..]) && (opts[0].Some? ==> GoodLink(opts[0].value))
  {
    assert forall i :: 0 <= i < |opts| - 1 ==> opts[1..][i] == opts[i + 1];
  }

  /** Adds the built links one after the other, in order. */
  function AddAll(acc: seq<Link>, opts: seq<Option<Link>>): (r: seq<Link>)
    ensures acc <= r
    ensures Covers(r, opts)
    ensures Within(r, acc, opts)
    ensures NoDup(acc) ==> NoDup(r)
    ensures WellFormed(acc) && AllGood(opts) ==> WellFormed(r)
    decreases |opts|
  {
    if |opts| == 0 then acc
    else
      var next := AddUnique(acc, opts[0]);
      var r := AddAll(next, opts[1..]);
      CoversCons(r, opts);
      WithinCons(r, next, acc, opts);
      if AllGood(opts) then AllGoodTail(opts); r else r
  }

  /** The de-duplicated list of the links that were built. */
  function Dedup(opts: seq<Option<Link>>): (r: seq<Link>)
    ensures NoDup(r)
    ensures forall i :: 0 <= i < |opts| && opts[i].Some? ==> opts[i].value in r
    ensures forall x :: x in r ==> Some(x) in opts
  {
    AddAll([], opts)
  }

  /** Adding links that are already present changes nothing, so building the
      list a second time from its own result is a no-op. */
  lemma {:induction false} AddAllAbsorbs(acc: seq<Link>, opts: seq<Option<Link>>)
    requires forall i :: 0 <= i < |opts| && opts[i].Some? ==> opts[i].value in acc
    ensures AddAll(acc, opts) == acc
    decreases |opts|
  {
    if |opts| > 0 {
      assert AddUnique(acc, opts[0]) == acc;
      assert forall i :: 0 <= i < |opts[1..]| ==> opts[1..][i] == opts[i + 1];
      AddAllAbsorbs(acc, opts[1..]);
    }
  }

  /** A list of links that are all built well stays well formed. */
  lemma DedupWellFormed(opts: seq<Option<Link>>)
    requires forall i :: 0 <= i < |opts| && opts[i].Some? ==> GoodLink(opts[i].value)
    ensures WellFormed(Dedup(opts))
  {
  }

  // ---------------------------------------------------------------------
  // The generic walker.

  const DownloadExtensions: seq<string> := [".pdf", ".xls", ".xlsx", ".csv", ".zip"]
  const LinkKeySuffixes: seq<string> := ["url", "link"]

  predicate EndsWithAny(s: string, suffixes: seq<string>) {
    exists i :: 0 <= i < |suffixes| && EndsWith(s, suffixes[i])
  }

  /** `looks_like_download`: the URL or the key mentions `minio`, the URL's
      text before `?` ends with a document extension, or the key ends with
      `url` or `link` (all compared in lower case; an empty key counts as no
      key). */
  predicate LooksLikeDownload(url: string, key: Option<string>) {
    var lowered := Lower(url);
    var hasKey := key.Some? && |key.value| > 0;
    Contains(lowered, "minio")
    || (hasKey && Contains(Lower(key.value), "minio"))
    || EndsWithAny(Before(lowered, '?'), DownloadExtensions)
    || (hasKey && EndsWithAny(Lower(key.value), LinkKeySuffixes))
  }

  /** A text the walker passes to `add`: found under `key` (None for a bare
      text), it starts with `http` once stripped and looks like a download. */
  predicate Accepted(s: string, key: Option<string>) {
    IsHttp(Strip(s)) && LooksLikeDownload(s, key)
  }

  /** The hint a dict key gives: the key itself when it contains a dot. */
  function KeyHint(key: Option<string>): (h: Option<string>)
    ensures h.Some? <==> key.Some? && '.' in key.value
    ensures h.Some? ==> h == key
  {
    if key.Some? && '.' in key.value then key else None
  }

  /** A text found by the walker, with the dict key it was stored under. */
  type Candidate = (string, Option<string>)

  /** `add`: the fallback index is one more than the number of links already
      kept. */
  function AddCandidate(acc: seq<Link>, c: Candidate, prefix: string): (r: seq<Link>)
    ensures acc <= r
    ensures WellFormed(acc) ==> WellFormed(r)
  {
    BuildLinkGood(Str(c.0), KeyHint(c.1), prefix, |acc| + 1);
    AddUnique(acc, BuildLink(Str(c.0), KeyHint(c.1), prefix, |acc| + 1))
  }

  /** `walk`: dict entries and list items in order, descending into nested
      containers; a text is offered to `add` when accepted. */
  function Walk(v: Value, prefix: string, acc: seq<Link>): (r: seq<Link>)
    ensures acc <= r
    ensures WellFormed(acc) ==> WellFormed(r)
    decreases v, 1
  {
    match v
    case Dict(_) => WalkDict(v, 0, prefix, acc)
    case List(_) => WalkList(v, 0, prefix, acc)
    case Str(s) => if Accepted(s, None) then AddCandidate(acc, (s, None), prefix) else acc
    case _ => acc
  }

  function WalkDict(v: Value, i: nat, prefix: string, acc: seq<Link>): (r: seq<Link>)
    requires v.Dict? && i <= |v.entries|
    ensures acc <= r
    ensures WellFormed(acc) ==> WellFormed(r)
    decreases v, 0, |v.entries| - i
  {
    if i == |v.entries| then acc
    else
      var k := v.entries[i].0;
      var x := v.entries[i].1;
      assert v.entries[i] in v.entries;
      var next :=
        if x.Dict? || x.List? then Walk(x, prefix, acc)
        else if x.Str? && Accepted(x.s, Some(k)) then AddCandidate(acc, (x.s, Some(k)), prefix)
        else acc;
      WalkDict(v, i + 1, prefix, next)
  }

  function WalkList(v: Value, i: nat, prefix: string, acc: seq<Link>): (r: seq<Link>)
    requires v.List? && i <= |v.items|
    ensures acc <= r
    ensures WellFormed(acc) ==> WellFormed(r)
    decreases v, 0, |v.items| - i
  {
    if i == |v.items| then acc
    else
      assert v.items[i] in v.items;
      WalkList(v, i + 1, prefix, Walk(v.items[i], prefix, acc))
  }

  /** `collect_minio_links(data, fallback_prefix)`. */
  function CollectMinioLinks(data: Value, prefix: string): (r: seq<Link>)
    ensures WellFormed(r)
  {
    Walk(data, prefix, [])
  }

  // ---------------------------------------------------------------------
  // Reference: the accepted texts in depth-first order, then a fold.

  /** Every text the walker accepts, in the order it meets them. */
  function Candidates(v: Value): (r: seq<Candidate>)
    ensures forall j :: 0 <= j < |r| ==> Accepted(r[j].0, r[j].1)
    decreases v, 1
  {
    match v
    case Dict(_) => CandidatesDict(v, 0)
    case List(_) => CandidatesList(v, 0)
    case Str(s) => if Accepted(s, None) then [(s, None)] else []
    case _ => []
  }

  /** The candidates of one dict entry. */
  function EntryCandidates(v: Value, i: nat): (r: seq<Candidate>)
    requires v.Dict? && i < |v.entries|
    ensures forall j :: 0 <= j < |r| ==> Accepted(r[j].0, r[j].1)
    decreases v, 0, 0
  {
    var k := v.entries[i].0;
    var x := v.entries[i].1;
    assert v.entries[i] in v.entries;
    if x.Dict? || x.List? then Candidates(x)
    else if x.Str? && Accepted(x.s, Some(k)) then [(x.s, Some(k))]
    else []
  }

  function CandidatesDict(v: Value, i: nat): (r: seq<Candidate>)
    requires v.Dict? && i <= |v.entries|
    ensures forall j :: 0 <= j < |r| ==> Accepted(r[j].0, r[j].1)
    decreases v, 0, |v.entries| - i + 1
  {
    if i == |v.entries| then [] else EntryCandidates(v, i) + CandidatesDict(v, i + 1)
  }

  function CandidatesList(v: Value, i: nat): (r: seq<Candidate>)
    requires v.List? && i <= |v.items|
    ensures forall j :: 0 <= j < |r| ==> Accepted(r[j].0, r[j].1)
    decreases v, 0, |v.items| - i
  {
    if i == |v.items| then []
    else
      assert v.items[i] in v.items;
      Candidates(v.items[i]) + CandidatesList(v, i + 1)
  }

  /** Offers the candidates to `add` one after the other. */
  function FoldAdd(cands: seq<Candidate>, prefix: string, acc: seq<Link>): (r: seq<Link>)
    ensures acc <= r
    ensures WellFormed(acc) ==> WellFormed(r)
    decreases |cands|
  {
    if |cands| == 0 then acc else FoldAdd(cands[1..], prefix, AddCandidate(acc, cands[0], prefix))
  }

  lemma {:induction false} FoldAddAppend(a: seq<Candidate>, b: seq<Candidate>, prefix: string, acc: seq<Link>)
    ensures FoldAdd(a + b, prefix, acc) == FoldAdd(b, prefix, FoldAdd(a, prefix, acc))
    decreases |a|
  {
    if |a| > 0 {
      assert (a + b)[1..] == a[1..] + b;
      FoldAddAppend(a[1..], b, prefix, AddCandidate(acc, a[0], prefix));
    } else {
      assert a + b == b;
    }
  }

  /** The walker is the fold of `add` over the candidates. */
  lemma {:induction false} WalkIsFold(v: Value, prefix: string, acc: seq<Link>)
    ensures Walk(v, prefix, acc) == FoldAdd(Candidates(v), prefix, acc)
    decreases v, 1
  {
    match v
    case Dict(_) => WalkDictIsFold(v, 0, prefix, acc);
    case List(_) => WalkListIsFold(v, 0, prefix, acc);
    case Str(s) =>
    case _ =>
  }

  lemma {:induction false} WalkDictIsFold(v: Value, i: nat, prefix: string, acc: seq<Link>)
    requires v.Dict? && i <= |v.entries|
    ensures WalkDict(v, i, prefix, acc) == FoldAdd(CandidatesDict(v, i), prefix, acc)
    decreases v, 0, |v.entries| - i
  {
    if i < |v.entries| {
      var k := v.entries[i].0;
      var x := v.entries[i].1;
      assert v.entries[i] in v.entries;
      var next :=
        if x.Dict? || x.List? then Walk(x, prefix, acc)
        else if x.Str? && Accepted(x.s, Some(k)) then AddCandidate(acc, (x.s, Some(k)), prefix)
        else acc;
      if x.Dict? || x.List? {
        WalkIsFold(x, prefix, acc);
      }
      assert next == FoldAdd(EntryCandidates(v, i), prefix, acc);
      WalkDictIsFold(v, i + 1, prefix, next);
      FoldAddAppend(EntryCandidates(v, i), CandidatesDict(v, i + 1), prefix, acc);
    }
  }

  lemma {:induction false} WalkListIsFold(v: Value, i: nat, prefix: string, acc: seq<Link>)
    requires v.List? && i <= |v.items|
    ensures WalkList(v, i, prefix, acc) == FoldAdd(CandidatesList(v, i), prefix, acc)
    decreases v, 0, |v.items| - i
  {
    if i < |v.items| {
      assert v.items[i] in v.items;
      var next := Walk(v.items[i], prefix, acc);
      WalkIsFold(v.items[i], prefix, acc);
      WalkListIsFold(v, i + 1, prefix, next);
      FoldAddAppend(Candidates(v.items[i]), CandidatesList(v, i + 1), prefix, acc);
    }
  }

  /** A link `add` contributes is built from the candidate's stripped text. */
  lemma AddCandidateNew(acc: seq<Link>, c: Candidate, prefix: string, l: Link)
    requires l in AddCandidate(acc, c, prefix) && l !in acc
    ensures l.url == Strip(c.0)
  {
    var built := BuildLink(Str(c.0), KeyHint(c.1), prefix, |acc| + 1);
    assert built.Some? && l == built.value;
  }

  /** Every link the fold keeps beyond `acc` comes from a candidate: its URL is
      that candidate's stripped text. */
  lemma {:induction false} FoldAddSound(cands: seq<Candidate>, prefix: string, acc: seq<Link>, l: Link)
    requires l in FoldAdd(cands, prefix, acc) && l !in acc
    ensures exists j :: 0 <= j < |cands| && l.url == Strip(cands[j].0)
    decreases |cands|
  {
    var next := AddCandidate(acc, cands[0], prefix);
    if l in next {
      AddCandidateNew(acc, cands[0], prefix, l);
    } else {
      FoldAddSound(cands[1..], prefix, next, l);
      var j :| 0 <= j < |cands[1..]| && l.url == Strip(cands[1..][j].0);
      assert cands[1..][j] == cands[j + 1];
      assert 0 <= j + 1 < |cands| && l.url == Strip(cands[j + 1].0);
    }
  }

  /** A candidate whose URL names its file always ends up in the result,
      whatever came before it. */
  lemma {:induction false} FoldAddNamed(cands: seq<Candidate>, prefix: string, acc: seq<Link>, c: Candidate)
    requires c in cands
    requires IsHttp(Strip(c.0)) && |UrlFileName(Strip(c.0))| > 0
    ensures Link(Strip(c.0), UrlFileName(Strip(c.0))) in FoldAdd(cands, prefix, acc)
    decreases |cands|
  {
    var next := AddCandidate(acc, cands[0], prefix);
    if c == cands[0] {
      var built := BuildLink(Str(c.0), KeyHint(c.1), prefix, |acc| + 1);
      assert built == Some(Link(Strip(c.0), UrlFileName(Strip(c.0))));
      assert built.value in next;
      assert next <= FoldAdd(cands[1..], prefix, next);
    } else {
      assert c in cands[1..];
      FoldAddNamed(cands[1..], prefix, next, c);
    }
  }

  /** What `collect_minio_links` returns: no repeated `(url, filename)` pair,
      only links built from accepted texts, and every accepted text that
      names its file. */
  lemma CollectMinioLinksSpec(data: Value, prefix: string)
    ensures CollectMinioLinks(data, prefix) == FoldAdd(Candidates(data), prefix, [])
    ensures WellFormed(CollectMinioLinks(data, prefix))
    ensures forall l :: l in CollectMinioLinks(data, prefix) ==>
      exists j :: 0 <= j < |Candidates(data)| && l.url == Strip(Candidates(data)[j].0)
        && Accepted(Candidates(data)[j].0, Candidates(data)[j].1)
    ensures forall j :: 0 <= j < |Candidates(data)| && |UrlFileName(Strip(Candidates(data)[j].0))| > 0 ==>
      Link(Strip(Candidates(data)[j].0), UrlFileName(Strip(Candidates(data)[j].0))) in CollectMinioLinks(data, prefix)
  {
    var cands := Candidates(data);
    WalkIsFold(data, prefix, []);
    forall l | l in CollectMinioLinks(data, prefix)
      ensures exists j :: 0 <= j < |cands| && l.url == Strip(cands[j].0) && Accepted(cands[j].0, cands[j].1)
    {
      FoldAddSound(cands, prefix, [], l);
    }
    forall j | 0 <= j < |cands| && |UrlFileName(Strip(cands[j].0))| > 0
      ensures Link(Strip(cands[j].0), UrlFileName(Strip(cands[j].0))) in CollectMinioLinks(data, prefix)
    {
      assert cands[j] in cands;
      FoldAddNamed(cands, prefix, [], cands[j]);
    }
  }
}
