/** The shape the service windows' own `_extract_links` share: walk a list
    of items under one key of the answer, offer some values of each dict item
    to `build_link` with the item's 1-based position as index, keep each
    `(url, filename)` pair once, and fall back to the generic walker when
    nothing was found. */
module ServiceLinks {
  import opened Prelude
  import opened Text
  import opened Json
  import opened MinioHelpers
  import opened MinioLinks

  /** A value that may hold a link, with the hint its file is named by when
      the URL names none. */
  type Offer = (Value, Option<string>)

  /** A link builder: what it makes of an offer for the item at a position. */
  type Build = (Offer, int) -> Option<Link>

  /** `build_link(value, hint, prefix, index)`. */
  function Builder(prefix: string): (build: Build)
    ensures forall o, k :: build(o, k) == BuildLink(o.0, o.1, prefix, k)
  {
    (o: Offer, k: int) => BuildLink(o.0, o.1, prefix, k)
  }

  /** Every link the builder returns is good. */
  ghost predicate GoodBuild(build: Build) {
    forall o, k :: build(o, k).Some? ==> GoodLink(build(o, k).value)
  }

  lemma BuilderGood(prefix: string)
    ensures GoodBuild(Builder(prefix))
  {
    forall o: Offer, k: int | Builder(prefix)(o, k).Some?
      ensures GoodLink(Builder(prefix)(o, k).value)
    {
      BuildLinkGood(o.0, o.1, prefix, k);
    }
  }

  /** The links one item offers at position `index`, one per offer; an item
      that is not a dict offers nothing. */
  function ItemLinks(item: Value, index: int, pick: Value -> seq<Offer>, build: Build): (r: seq<Option<Link>>)
    ensures !item.Dict? ==> r == []
    ensures item.Dict? ==> |r| == |pick(item)|
    ensures item.Dict? ==> forall j :: 0 <= j < |r| ==> r[j] == build(pick(item)[j], index)
  {
    if item.Dict? then
      var offers := pick(item);
      seq(|offers|, j requires 0 <= j < |offers| => build(offers[j], index))
    else []
  }

  /** An item yields a link exactly when it is a dict and one of its offers
      builds that link. */
  lemma ItemLinksMember(item: Value, index: int, pick: Value -> seq<Offer>, build: Build, l: Link)
    ensures Some(l) in ItemLinks(item, index, pick, build) <==>
      item.Dict? && exists j :: 0 <= j < |pick(item)| && build(pick(item)[j], index) == Some(l)
  {
    var r := ItemLinks(item, index, pick, build);
    if Some(l) in r {
      var j :| 0 <= j < |r| && r[j] == Some(l);
      assert build(pick(item)[j], index) == Some(l);
    }
    if item.Dict? && exists j :: 0 <= j < |pick(item)| && build(pick(item)[j], index) == Some(l) {
      var j :| 0 <= j < |pick(item)| && build(pick(item)[j], index) == Some(l);
      assert r[j] == Some(l);
    }
  }

  /** A good builder makes good links. */
  lemma ItemLinksGood(item: Value, index: int, pick: Value -> seq<Offer>, build: Build)
    requires GoodBuild(build)
    ensures AllGood(ItemLinks(item, index, pick, build))
  {
  }

  /** What the items offer, the first at position `index`; `offers(item, k)`
      is what an item at position `k` yields. */
  function Offered(items: seq<Value>, index: int, offers: (Value, int) -> seq<Option<Link>>): seq<Option<Link>>
    decreases |items|
  {
    if |items| == 0 then []
    else offers(items[0], index) + Offered(items[1..], index + 1, offers)
  }

  /** Every offered link is offered by some item at its own position. */
  lemma {:induction false} OfferedSound(items: seq<Value>, index: int, offers: (Value, int) -> seq<Option<Link>>, l: Link)
    returns (i: nat)
    requires Some(l) in Offered(items, index, offers)
    ensures i < |items| && Some(l) in offers(items[i], index + i)
    decreases |items|
  {
    var head := offers(items[0], index);
    var tail := Offered(items[1..], index + 1, offers);
    assert Offered(items, index, offers) == head + tail;
    if Some(l) in head {
      i := 0;
    } else {
      var k := OfferedSound(items[1..], index + 1, offers, l);
      assert items[1..][k] == items[k + 1];
      i := k + 1;
    }
  }

  /** What the item at position `index + i` offers is offered. */
  lemma {:induction false} OfferedComplete(items: seq<Value>, index: int, offers: (Value, int) -> seq<Option<Link>>, l: Link, i: nat)
    requires i < |items| && Some(l) in offers(items[i], index + i)
    ensures Some(l) in Offered(items, index, offers)
    decreases i
  {
    var head := offers(items[0], index);
    var tail := Offered(items[1..], index + 1, offers);
    assert Offered(items, index, offers) == head + tail;
    if i > 0 {
      assert items[1..][i - 1] == items[i];
      assert index + 1 + (i - 1) == index + i;
      OfferedComplete(items[1..], index + 1, offers, l, i - 1);
    }
  }

  /** A link is offered exactly when some item offers it at its own
      position. */
  lemma OfferedMember(items: seq<Value>, index: int, offers: (Value, int) -> seq<Option<Link>>, l: Link)
    ensures Some(l) in Offered(items, index, offers) <==>
      exists i :: 0 <= i < |items| && Some(l) in offers(items[i], index + i)
  {
    if Some(l) in Offered(items, index, offers) {
      var i := OfferedSound(items, index, offers, l);
    }
    if exists i :: 0 <= i < |items| && Some(l) in offers(items[i], index + i) {
      var i :| 0 <= i < |items| && Some(l) in offers(items[i], index + i);
      OfferedComplete(items, index, offers, l, i);
    }
  }

  /** Good offers make good links. */
  lemma {:induction false} OfferedGood(items: seq<Value>, index: int, offers: (Value, int) -> seq<Option<Link>>)
    requires forall v, k :: AllGood(offers(v, k))
    ensures AllGood(Offered(items, index, offers))
    decreases |items|
  {
    if |items| > 0 {
      var head := offers(items[0], index);
      var tail := Offered(items[1..], index + 1, offers);
      OfferedGood(items[1..], index + 1, offers);
      assert Offered(items, index, offers) == head + tail;
      AllGoodAppend(head, tail);
    }
  }

  /** `ItemLinks` as what an item at a position offers. */
  function Offers(pick: Value -> seq<Offer>, build: Build): (offers: (Value, int) -> seq<Option<Link>>)
    ensures forall v, k :: offers(v, k) == ItemLinks(v, k, pick, build)
  {
    (v, k) => ItemLinks(v, k, pick, build)
  }

  /** The links found under `listKey`: what the list's items offer, first
      seen first, each pair once; nothing when the answer is not a dict or
      holds no list there. */
  function ListedLinks(data: Value, listKey: string, pick: Value -> seq<Offer>, build: Build): (r: seq<Link>)
    ensures NoDup(r)
    ensures !Field(data, listKey).List? ==> r == []
    ensures Field(data, listKey).List? ==>
      forall l :: l in r <==> Some(l) in Offered(Field(data, listKey).items, 1, Offers(pick, build))
  {
    var list := Field(data, listKey);
    if list.List? then Dedup(Offered(list.items, 1, Offers(pick, build))) else []
  }

  /** A good builder makes a well-formed list. */
  lemma ListedWellFormed(data: Value, listKey: string, pick: Value -> seq<Offer>, build: Build)
    requires GoodBuild(build)
    ensures WellFormed(ListedLinks(data, listKey, pick, build))
  {
    var list := Field(data, listKey);
    if list.List? {
      var offers := Offers(pick, build);
      forall v, k ensures AllGood(offers(v, k)) {
        ItemLinksGood(v, k, pick, build);
      }
      OfferedGood(list.items, 1, offers);
      DedupWellFormed(Offered(list.items, 1, offers));
    }
  }

  /** A link is listed exactly when some item of the list yields it. */
  lemma ListedLinksMember(data: Value, listKey: string, pick: Value -> seq<Offer>, build: Build, l: Link)
    ensures l in ListedLinks(data, listKey, pick, build) <==>
      Field(data, listKey).List? &&
      exists i :: 0 <= i < |Field(data, listKey).items| && Some(l) in ItemLinks(Field(data, listKey).items[i], i + 1, pick, build)
  {
    if l in ListedLinks(data, listKey, pick, build) {
      var i := ListedLinkSound(data, listKey, pick, build, l);
      OffersAt(pick, build, Field(data, listKey).items[i], i + 1);
    }
    if Field(data, listKey).List? &&
       exists i :: 0 <= i < |Field(data, listKey).items| && Some(l) in ItemLinks(Field(data, listKey).items[i], i + 1, pick, build) {
      var i :| 0 <= i < |Field(data, listKey).items| && Some(l) in ItemLinks(Field(data, listKey).items[i], i + 1, pick, build);
      ListedLinkComplete(data, listKey, pick, build, l, i);
    }
  }

  /** The item a listed link comes from. */
  lemma ListedLinkSound(data: Value, listKey: string, pick: Value -> seq<Offer>, build: Build, l: Link) returns (i: nat)
    requires l in ListedLinks(data, listKey, pick, build)
    ensures Field(data, listKey).List?
    ensures i < |Field(data, listKey).items| && Some(l) in Offers(pick, build)(Field(data, listKey).items[i], i + 1)
  {
    ListedOffered(data, listKey, pick, build, l);
    var items := Field(data, listKey).items;
    var offers := Offers(pick, build);
    i := OfferedSound(items, 1, offers, l);
  }

  lemma ListedOffered(data: Value, listKey: string, pick: Value -> seq<Offer>, build: Build, l: Link)
    requires l in ListedLinks(data, listKey, pick, build)
    ensures Field(data, listKey).List?
    ensures Some(l) in Offered(Field(data, listKey).items, 1, Offers(pick, build))
  {
  }

  lemma OffersAt(pick: Value -> seq<Offer>, build: Build, v: Value, k: int)
    ensures Offers(pick, build)(v, k) == ItemLinks(v, k, pick, build)
  {
  }

  lemma ListedLinkComplete(data: Value, listKey: string, pick: Value -> seq<Offer>, build: Build, l: Link, i: nat)
    requires Field(data, listKey).List?
    requires i < |Field(data, listKey).items|
    requires Some(l) in ItemLinks(Field(data, listKey).items[i], i + 1, pick, build)
    ensures l in ListedLinks(data, listKey, pick, build)
  {
    var items := Field(data, listKey).items;
    var offers := Offers(pick, build);
    assert Some(l) in offers(items[i], 1 + i);
    OfferedComplete(items, 1, offers, l, i);
  }

  /** `if not links: links = collect_minio_links(data, prefix)`. */
  function WithFallback(primary: seq<Link>, data: Value, prefix: string): (r: seq<Link>)
    ensures |primary| > 0 ==> r == primary
    ensures |primary| == 0 ==> r == CollectMinioLinks(data, prefix)
    ensures WellFormed(primary) ==> WellFormed(r)
  {
    if |primary| > 0 then primary else CollectMinioLinks(data, prefix)
  }

  /** The whole extractor: the listed links, else the generic walker's. */
  function Extracted(data: Value, listKey: string, pick: Value -> seq<Offer>, build: Build, prefix: string): (r: seq<Link>)
    ensures NoDup(r)
  {
    WithFallback(ListedLinks(data, listKey, pick, build), data, prefix)
  }

  /** A good builder makes a well-formed result. */
  lemma ExtractedWellFormed(data: Value, listKey: string, pick: Value -> seq<Offer>, build: Build, prefix: string)
    requires GoodBuild(build)
    ensures WellFormed(Extracted(data, listKey, pick, build, prefix))
  {
    ListedWellFormed(data, listKey, pick, build);
  }

  /** When some item yields a link, the links are exactly what the items
      yield; when none does, the generic walker decides. */
  lemma ExtractedSpec(data: Value, listKey: string, pick: Value -> seq<Offer>, build: Build, prefix: string, l: Link)
    ensures |ListedLinks(data, listKey, pick, build)| > 0 ==>
      (l in Extracted(data, listKey, pick, build, prefix) <==>
        Field(data, listKey).List? &&
        exists i :: 0 <= i < |Field(data, listKey).items| && Some(l) in ItemLinks(Field(data, listKey).items[i], i + 1, pick, build))
    ensures |ListedLinks(data, listKey, pick, build)| == 0 ==>
      Extracted(data, listKey, pick, build, prefix) == CollectMinioLinks(data, prefix)
  {
    ListedLinksMember(data, listKey, pick, build, l);
  }

  /** At most one link, built from one value with index 1: the extractors
      that read a single field. */
  function SingleLink(url: Value, hint: Option<string>, prefix: string): (r: seq<Link>)
    ensures WellFormed(r) && |r| <= 1
    ensures |r| == 1 <==> BuildLink(url, hint, prefix, 1).Some?
    ensures |r| == 1 ==> r[0] == BuildLink(url, hint, prefix, 1).value
  {
    var l := BuildLink(url, hint, prefix, 1);
    if l.Some? then BuildLinkGood(url, hint, prefix, 1); WellFormedSingle(l.value); [l.value] else []
  }

  /** `(filename_hint or "").strip()` raises on a hint that is truthy but
      not text, and `build_link` evaluates it whenever it reads the hint. */
  predicate HintRaises(url: Value, hint: Value) {
    ReadsHint(url) && Truthy(hint) && !hint.Str?
  }

  /** A value given to `build_link` as its file-name hint: its text, or no
      hint for any other value. For a falsy value that is what `hint or ""`
      gives too; a truthy value that is not text makes `build_link` raise
      when it reads the hint (`HintRaises`), and the extractors that pass
      such values test for that before building. */
  function TextHint(v: Value): (r: Option<string>)
    ensures v.Str? ==> r == Some(v.s)
    ensures !v.Str? ==> r.None?
  {
    if v.Str? then Some(v.s) else None
  }
}
