/**
 * The catalog records of lib/data.ts and the pure code around them: the price label, the total
 * mappers from stored documents to view records, slug resolution, the campaign list and the hero
 * slides with their built-in defaults.
 *
 * The document store is a set of in-memory sequences. The JavaScript runtime calls the mappers
 * make (`Number(...)`, `toLocaleString('tr-TR')`, `toISOString`, the clock behind `new Date()`)
 * are fields of a `Runtime` value the caller supplies.
 */
module Catalog {
  import opened Wrappers
  import Text
  import Seqs

  /** A loosely typed field of a stored document, as the store hands it over. */
  datatype Raw = Undefined | Null | Str(s: string) | Num(n: real) | List(items: seq<string>) | Other

  /** The merchandising tag: 'HYPE', 'ONE_CIKAN' or 'YENI'. */
  datatype Tag = Hype | OneCikan | Yeni

  /** A product document; timestamps are milliseconds since the epoch, `None` when missing. */
  datatype StoredProduct = StoredProduct(
    id: string,
    brand: Option<string>,
    slug: string,
    brandName: string,
    name: string,
    category: string,
    price: Raw,
    currency: Raw,
    image: string,
    tag: Option<Tag>,
    productUrl: Raw,
    description: string,
    gallery: Raw,
    sizes: Raw,
    colors: Raw,
    features: Raw,
    createdAt: Option<nat>,
    updatedAt: Option<nat>)

  /** The product view record (`ProductDetail`). */
  datatype Product = Product(
    id: string,
    brandId: string,
    slug: string,
    brand: string,
    name: string,
    category: string,
    price: string,
    priceValue: real,
    currency: string,
    image: string,
    tag: Option<Tag>,
    productUrl: Option<string>,
    description: string,
    gallery: seq<string>,
    sizes: seq<string>,
    colors: seq<string>,
    features: seq<string>,
    createdAt: nat)

  /** The runtime services the mappers call: the clock, number coercion, locale formatting. */
  datatype Runtime = Runtime(
    now: nat,
    toNumber: Raw -> real,
    formatNumber: real -> string,
    isoDate: nat -> string)

  /** The symbol written after a price: `TL` for Turkish lira, the currency code otherwise. */
  function CurrencySymbol(currency: string): (symbol: string)
    ensures symbol == "TL" <==> currency == "TRY" || currency == "TL"
    ensures currency != "TRY" ==> symbol == currency
  {
    if currency == "TRY" then "TL" else currency
  }

  /**
   * `formatPrice`: the locale-formatted amount, one space, then the currency symbol. The
   * formatting of the amount itself is the runtime's.
   */
  function FormatPrice(value: real, currency: string, rt: Runtime): string
  {
    rt.formatNumber(value) + " " + CurrencySymbol(currency)
  }

  /** Splits a price label at its first space: the amount in front, the symbol behind. */
  function SplitAtFirstSpace(text: string): (string, string)
  {
    if text == [] then ("", "")
    else if text[0] == ' ' then ("", text[1..])
    else
      var (amount, symbol) := SplitAtFirstSpace(text[1..]);
      ([text[0]] + amount, symbol)
  }

  lemma {:induction false} SplitAtFirstSpaceAfter(amount: string, symbol: string)
    requires ' ' !in amount
    ensures SplitAtFirstSpace(amount + " " + symbol) == (amount, symbol)
    decreases |amount|
  {
    if amount == [] {
      assert amount + " " + symbol == [' '] + symbol;
    } else {
      assert (amount + " " + symbol)[1..] == amount[1..] + " " + symbol;
      SplitAtFirstSpaceAfter(amount[1..], symbol);
      assert [amount[0]] + amount[1..] == amount;
    }
  }

  /**
   * A price label is the formatted amount and the currency symbol separated by exactly one space:
   * as long as the formatted amount holds no space, both parts can be read back from the label.
   */
  lemma PriceLabelRoundTrip(value: real, currency: string, rt: Runtime)
    requires ' ' !in rt.formatNumber(value)
    ensures SplitAtFirstSpace(FormatPrice(value, currency, rt)) == (rt.formatNumber(value), CurrencySymbol(currency))
    ensures currency == "TRY" ==> FormatPrice(value, currency, rt)[|rt.formatNumber(value)|..] == " TL"
  {
    SplitAtFirstSpaceAfter(rt.formatNumber(value), CurrencySymbol(currency));
  }

  /** A list field: the stored array when it is one, otherwise empty. */
  function ListOrEmpty(field: Raw): seq<string>
  {
    if field.List? then field.items else []
  }

  /** The currency: the stored value when it is a string, otherwise Turkish lira. */
  function CurrencyOf(field: Raw): string
  {
    if field.Str? then field.s else "TRY"
  }

  /** `Number(doc.price ?? 0)` unless the stored price already is a number. */
  function PriceValueOf(field: Raw, rt: Runtime): real
  {
    match field
    case Num(n) => n
    case Undefined => 0.0
    case Null => 0.0
    case _ => rt.toNumber(field)
  }

  /** The external product link: the trimmed stored string, unset when it is not a non-blank string. */
  function ProductUrlOf(field: Raw): (url: Option<string>)
    ensures url.Some? <==> field.Str? && !Text.IsBlank(field.s)
    ensures url.Some? ==> url.value == Text.Trim(field.s) && url.value != "" && Text.IsTrimmed(url.value)
  {
    if field.Str? && Text.Trim(field.s) != "" then Some(Text.Trim(field.s)) else None
  }

  /** The stored fields a product view keeps as they are. */
  ghost predicate KeepsIdentity(doc: StoredProduct, p: Product)
  {
    && p.id == doc.id && p.slug == doc.slug && p.brand == doc.brandName && p.name == doc.name
    && p.category == doc.category && p.image == doc.image && p.tag == doc.tag
    && p.description == doc.description
  }

  /**
   * `mapProduct`, a total mapper: list fields default to empty, the currency to Turkish lira, the
   * brand reference to the empty string, a blank product link to unset, a missing creation time
   * to the current time; the price label is derived from the numeric price and the currency.
   */
  function MapProduct(doc: StoredProduct, rt: Runtime): (p: Product)
    ensures KeepsIdentity(doc, p)
    ensures p.createdAt == doc.createdAt.GetOr(rt.now)
  {
    var priceValue := PriceValueOf(doc.price, rt);
    var currency := CurrencyOf(doc.currency);
    Product(
      doc.id, doc.brand.GetOr(""), doc.slug, doc.brandName, doc.name, doc.category,
      FormatPrice(priceValue, currency, rt), priceValue, currency, doc.image, doc.tag,
      ProductUrlOf(doc.productUrl), doc.description,
      ListOrEmpty(doc.gallery), ListOrEmpty(doc.sizes), ListOrEmpty(doc.colors), ListOrEmpty(doc.features),
      doc.createdAt.GetOr(rt.now))
  }

  /** `docs.map(mapProduct)`. */
  function MapProducts(docs: seq<StoredProduct>, rt: Runtime): (ps: seq<Product>)
    ensures |ps| == |docs|
    ensures forall i :: 0 <= i < |docs| ==> ps[i] == MapProduct(docs[i], rt)
  {
    seq(|docs|, i requires 0 <= i < |docs| => MapProduct(docs[i], rt))
  }

  /**
   * The field-by-field contract of `mapProduct`: the brand reference, the currency, the price and
   * its label, the product link, the list fields, each with its default.
   */
  lemma MapProductFields(doc: StoredProduct, rt: Runtime)
    ensures var p := MapProduct(doc, rt);
      && p.brandId == doc.brand.GetOr("")
      && p.currency == (if doc.currency.Str? then doc.currency.s else "TRY")
      && p.price == FormatPrice(p.priceValue, p.currency, rt)
      && (doc.price.Num? ==> p.priceValue == doc.price.n)
      && (doc.price.Undefined? || doc.price.Null? ==> p.priceValue == 0.0)
      && p.productUrl == ProductUrlOf(doc.productUrl)
      && p.gallery == (if doc.gallery.List? then doc.gallery.items else [])
      && p.sizes == (if doc.sizes.List? then doc.sizes.items else [])
      && p.colors == (if doc.colors.List? then doc.colors.items else [])
      && p.features == (if doc.features.List? then doc.features.items else [])
  {
  }

  /** Mapping one more document appends its mapped record. */
  lemma MapProductsSnoc(docs: seq<StoredProduct>, doc: StoredProduct, rt: Runtime)
    ensures MapProducts(docs + [doc], rt) == MapProducts(docs, rt) + [MapProduct(doc, rt)]
  {
    var l, r := MapProducts(docs + [doc], rt), MapProducts(docs, rt) + [MapProduct(doc, rt)];
    assert |l| == |r|;
    forall i | 0 <= i < |l|
      ensures l[i] == r[i]
    {
      if i < |docs| {
        assert (docs + [doc])[i] == docs[i];
      }
    }
  }

  /** A document whose optional fields are all missing reads back with empty lists and defaults. */
  lemma MapProductDefaults(doc: StoredProduct, rt: Runtime)
    requires doc.gallery == Undefined && doc.sizes == Undefined && doc.colors == Undefined && doc.features == Undefined
    requires doc.currency == Undefined && doc.productUrl == Undefined && doc.price == Undefined
    ensures var p := MapProduct(doc, rt);
      && p.gallery == [] && p.sizes == [] && p.colors == [] && p.features == []
      && p.currency == "TRY" && p.productUrl == None && p.priceValue == 0.0
      && p.price == rt.formatNumber(0.0) + " TL"
  {
  }

  /** A view record the mapper could have produced: its label and link are in mapped form. */
  ghost predicate WellFormed(p: Product, rt: Runtime)
  {
    && p.price == FormatPrice(p.priceValue, p.currency, rt)
    && (p.productUrl.Some? ==> p.productUrl.value != "" && Text.IsTrimmed(p.productUrl.value))
  }

  /** How a view record is written back as a fully typed document. */
  function ToStored(p: Product): StoredProduct
  {
    StoredProduct(
      p.id, Some(p.brandId), p.slug, p.brand, p.name, p.category, Num(p.priceValue), Str(p.currency),
      p.image, p.tag, if p.productUrl.Some? then Str(p.productUrl.value) else Undefined, p.description,
      List(p.gallery), List(p.sizes), List(p.colors), List(p.features), Some(p.createdAt), Some(p.createdAt))
  }

  /** Mapping is lossless on fully typed documents: a well-formed record maps back to itself. */
  lemma MapProductRoundTrip(p: Product, rt: Runtime)
    requires WellFormed(p, rt)
    ensures MapProduct(ToStored(p), rt) == p
  {
    if p.productUrl.Some? {
      Text.TrimOfTrimmed(p.productUrl.value);
    }
  }

  /** Everything `mapProduct` produces is well formed. */
  lemma MapProductWellFormed(doc: StoredProduct, rt: Runtime)
    ensures WellFormed(MapProduct(doc, rt), rt)
  {
  }

  /** `findOne({ slug })`: the first document, in store order, with the slug. */
  function FindBySlug(docs: seq<StoredProduct>, slug: string): (found: Option<StoredProduct>)
    ensures found.None? <==> forall d :: d in docs ==> d.slug != slug
    ensures found.Some? ==> found.value in docs && found.value.slug == slug
    ensures found.Some? ==> found.value == docs[Seqs.IndexOf(Seqs.Map(docs, DocSlug), slug)]
  {
    var k := Seqs.IndexOf(Seqs.Map(docs, DocSlug), slug);
    if k < 0 then None else Some(docs[k])
  }

  /** The slug of a document. */
  function DocSlug(d: StoredProduct): string
  {
    d.slug
  }

  /** The slug of a product view. */
  function ViewSlug(p: Product): string
  {
    p.slug
  }

  /**
   * `new Map(docs.map(doc => [doc.slug, doc]))`: a later document replaces an earlier one with its
   * slug, so each slug maps to the last document that carries it.
   */
  function SlugIndex(docs: seq<StoredProduct>): (index: map<string, StoredProduct>)
    ensures index.Keys == set d | d in docs :: d.slug
    ensures forall k :: k in index ==> index[k].slug == k && index[k] in docs
    ensures forall i :: 0 <= i < |docs| && LastWithSlug(docs, i) ==> docs[i].slug in index && index[docs[i].slug] == docs[i]
  {
    if docs == [] then map[]
    else
      var init, last := docs[..|docs| - 1], docs[|docs| - 1];
      assert docs == init + [last];
      var prev := SlugIndex(init);
      assert forall i :: 0 <= i < |init| ==> init[i] == docs[i];
      SlugIndexLastWins(docs, prev);
      prev[last.slug := last]
  }

  /** No document after position `i` carries the slug of the one at `i`. */
  ghost predicate LastWithSlug(docs: seq<StoredProduct>, i: nat)
    requires i < |docs|
  {
    forall j :: i < j < |docs| ==> docs[j].slug != docs[i].slug
  }

  /** Indexing one more document keeps every slug's last document as its value. */
  lemma SlugIndexLastWins(docs: seq<StoredProduct>, prev: map<string, StoredProduct>)
    requires docs != []
    requires forall i :: 0 <= i < |docs| - 1 && LastWithSlug(docs[..|docs| - 1], i) ==>
      docs[i].slug in prev && prev[docs[i].slug] == docs[i]
    ensures var index := prev[docs[|docs| - 1].slug := docs[|docs| - 1]];
      forall i :: 0 <= i < |docs| && LastWithSlug(docs, i) ==> docs[i].slug in index && index[docs[i].slug] == docs[i]
  {
    var n := |docs| - 1;
    var init := docs[..n];
    forall i | 0 <= i < n && LastWithSlug(docs, i)
      ensures LastWithSlug(init, i) && docs[i].slug != docs[n].slug
    {
      forall j | i < j < n
        ensures init[j].slug != init[i].slug
      {
        assert init[j] == docs[j] && init[i] == docs[i];
      }
    }
  }

  /** Membership in `known`, as a filter condition. */
  function InSet(known: set<string>): string -> bool
  {
    (s: string) => s in known
  }

  /** The slugs some document of the store carries. */
  function KnownSlugs(docs: seq<StoredProduct>): set<string>
  {
    set d | d in docs :: d.slug
  }

  /** `slugs.map(slug => productMap.get(slug)).filter(Boolean)`. */
  function ResolveSlugs(slugs: seq<string>, index: map<string, StoredProduct>, rt: Runtime): seq<Product>
  {
    if slugs == [] then []
    else (if slugs[0] in index then [MapProduct(index[slugs[0]], rt)] else []) + ResolveSlugs(slugs[1..], index, rt)
  }

  /** `getProductsBySlugs`: the products for the slugs, in the order of the slugs. */
  function ProductsBySlugs(docs: seq<StoredProduct>, slugs: seq<string>, rt: Runtime): seq<Product>
  {
    if slugs == [] then []
    else
      var matching := Seqs.Filter(docs, (d: StoredProduct) => d.slug in slugs);
      ResolveSlugs(slugs, SlugIndex(matching), rt)
  }

  lemma {:induction false} ResolveSlugsOrder(slugs: seq<string>, index: map<string, StoredProduct>, known: set<string>, rt: Runtime)
    requires forall k :: k in index ==> index[k].slug == k
    requires forall s :: s in slugs ==> (s in index <==> s in known)
    ensures Seqs.Map(ResolveSlugs(slugs, index, rt), ViewSlug) == Seqs.Filter(slugs, InSet(known))
    decreases |slugs|
  {
    if slugs != [] {
      var keep := InSet(known);
      ResolveSlugsOrder(slugs[1..], index, known, rt);
      var tail := ResolveSlugs(slugs[1..], index, rt);
      var rest := Seqs.Filter(slugs[1..], keep);
      assert Seqs.Map(tail, ViewSlug) == rest;
      if slugs[0] in index {
        ResolveSlugsHead(slugs, index, rt);
        assert keep(slugs[0]);
        assert Seqs.Filter(slugs, keep) == [slugs[0]] + rest;
      } else {
        assert ResolveSlugs(slugs, index, rt) == tail;
        assert !keep(slugs[0]);
        assert Seqs.Filter(slugs, keep) == rest;
      }
    }
  }

  lemma {:induction false} ResolveSlugsHead(slugs: seq<string>, index: map<string, StoredProduct>, rt: Runtime)
    requires slugs != [] && slugs[0] in index && index[slugs[0]].slug == slugs[0]
    ensures Seqs.Map(ResolveSlugs(slugs, index, rt), ViewSlug) == [slugs[0]] + Seqs.Map(ResolveSlugs(slugs[1..], index, rt), ViewSlug)
  {
    var p := MapProduct(index[slugs[0]], rt);
    var tail := ResolveSlugs(slugs[1..], index, rt);
    assert ResolveSlugs(slugs, index, rt) == [p] + tail;
    Seqs.MapConcat([p], tail, ViewSlug);
    assert Seqs.Map([p], ViewSlug) == [slugs[0]];
  }

  /**
   * Slug resolution keeps the order of the requested slugs and drops the slugs no product
   * carries: the slugs of the result are exactly the known requested slugs, in request order.
   */
  lemma ProductsBySlugsOrder(docs: seq<StoredProduct>, slugs: seq<string>, rt: Runtime)
    ensures Seqs.Map(ProductsBySlugs(docs, slugs, rt), ViewSlug) == Seqs.Filter(slugs, InSet(KnownSlugs(docs)))
    ensures slugs == [] ==> ProductsBySlugs(docs, slugs, rt) == []
  {
    if slugs != [] {
      var matching := Seqs.Filter(docs, (d: StoredProduct) => d.slug in slugs);
      var index := SlugIndex(matching);
      forall s | s in slugs
        ensures s in index <==> s in KnownSlugs(docs)
      {
        if s in KnownSlugs(docs) {
          var d :| d in docs && d.slug == s;
          assert d in matching;
        }
      }
      ResolveSlugsOrder(slugs, index, KnownSlugs(docs), rt);
    }
  }

  /** Every resolved product is the mapping of a stored document with a requested slug. */
  lemma {:induction false} ResolveSlugsSources(slugs: seq<string>, index: map<string, StoredProduct>, rt: Runtime)
    ensures forall p :: p in ResolveSlugs(slugs, index, rt) ==>
      exists k :: k in slugs && k in index && p == MapProduct(index[k], rt)
    decreases |slugs|
  {
    if slugs != [] {
      ResolveSlugsSources(slugs[1..], index, rt);
    }
  }

  /** A campaign document. */
  datatype StoredCampaign = StoredCampaign(
    id: string,
    title: string,
    description: string,
    image: string,
    ctaLabel: Option<string>,
    ctaHref: Option<string>,
    createdAt: Option<nat>)

  /** The campaign view record; its creation time is an ISO 8601 string. */
  datatype Campaign = Campaign(
    id: string,
    title: string,
    description: string,
    image: string,
    ctaLabel: Option<string>,
    ctaHref: Option<string>,
    createdAt: Option<string>)

  /** `mapCampaign`: a missing call to action stays unset, a creation time is rendered as ISO text. */
  function MapCampaign(doc: StoredCampaign, rt: Runtime): (c: Campaign)
    ensures c.id == doc.id && c.title == doc.title && c.description == doc.description
    ensures c.image == doc.image && c.ctaLabel == doc.ctaLabel && c.ctaHref == doc.ctaHref
    ensures c.createdAt.Some? <==> doc.createdAt.Some?
    ensures doc.createdAt.Some? ==> c.createdAt == Some(rt.isoDate(doc.createdAt.value))
  {
    Campaign(doc.id, doc.title, doc.description, doc.image, doc.ctaLabel, doc.ctaHref,
      if doc.createdAt.Some? then Some(rt.isoDate(doc.createdAt.value)) else None)
  }

  /** The sort key of an optional timestamp: a missing one sorts below every present one. */
  function TimeKey(t: Option<nat>): int
  {
    if t.Some? then t.value else -1
  }

  /** `sort({ createdAt: -1 })` for campaigns. */
  predicate CampaignNewerFirst(a: StoredCampaign, b: StoredCampaign)
  {
    TimeKey(a.createdAt) >= TimeKey(b.createdAt)
  }

  /** The campaign documents, newest first. */
  function CampaignsNewestFirst(docs: seq<StoredCampaign>): seq<StoredCampaign>
  {
    Seqs.SortBy(docs, CampaignNewerFirst)
  }

  /** `getCampaigns(limit)`: the campaigns newest first, cut to `limit` when a number is given. */
  function GetCampaigns(docs: seq<StoredCampaign>, limit: Option<int>, rt: Runtime): (cs: seq<Campaign>)
    ensures |cs| <= |docs|
    ensures limit.None? ==> |cs| == |docs|
    ensures limit.Some? && limit.value >= 0 ==> |cs| == if limit.value < |docs| then limit.value else |docs|
    ensures forall i :: 0 <= i < |cs| ==> cs[i] == MapCampaign(CampaignsNewestFirst(docs)[i], rt)
  {
    var sorted := CampaignsNewestFirst(docs);
    var campaigns := seq(|sorted|, i requires 0 <= i < |sorted| => MapCampaign(sorted[i], rt));
    if limit.Some? then Seqs.Slice(campaigns, limit.value) else campaigns
  }

  /** The campaigns returned are a newest-first ordering of the stored campaigns. */
  lemma CampaignsNewestFirstOrdered(docs: seq<StoredCampaign>)
    ensures Seqs.SortedBy(CampaignsNewestFirst(docs), CampaignNewerFirst)
    ensures multiset(CampaignsNewestFirst(docs)) == multiset(docs)
  {
    Seqs.SortBySorted(docs, CampaignNewerFirst);
  }

  /** A hero slide document. */
  datatype StoredHeroSlide = StoredHeroSlide(
    id: string,
    title: string,
    subtitle: string,
    ctaLabel: string,
    ctaHref: string,
    image: string,
    order: int,
    createdAt: Option<nat>)

  /** The hero slide view record. */
  datatype HeroSlide = HeroSlide(id: string, title: string, subtitle: string, ctaLabel: string, ctaHref: string, image: string)

  /** `mapHeroSlide`. */
  function MapHeroSlide(doc: StoredHeroSlide): HeroSlide
  {
    HeroSlide(doc.id, doc.title, doc.subtitle, doc.ctaLabel, doc.ctaHref, doc.image)
  }

  /** The two built-in slides shown when the store holds none and defaults are asked for. */
  const DefaultHeroSlides: seq<HeroSlide> := [
    HeroSlide(
      "samba-release", "Samba Drop",
      "Sezonun en hype adidas Samba seçkisi şimdi Newilano vitrininde.",
      "Koleksiyonu Keşfet", "/vitrin",
      "https://images.unsplash.com/photo-1523380744952-b7fbffab9856?auto=format&fit=crop&w=1600&q=80"),
    HeroSlide(
      "nike-run", "Koşu Koleksiyonu",
      "Koşu antrenmanlarına hafiflik ve konfor katan Nike koşu koleksiyonu.",
      "Hemen İncele", "/kampanyalar",
      "https://images.unsplash.com/photo-1528701800489-20be3c0bd36c?auto=format&fit=crop&w=1600&q=80")
  ]

  /** `sort({ order: 1, createdAt: -1 })`. */
  predicate SlideFirst(a: StoredHeroSlide, b: StoredHeroSlide)
  {
    a.order < b.order || (a.order == b.order && TimeKey(a.createdAt) >= TimeKey(b.createdAt))
  }

  /** The slide documents in display order. */
  function SlidesInOrder(docs: seq<StoredHeroSlide>): seq<StoredHeroSlide>
  {
    Seqs.SortBy(docs, SlideFirst)
  }

  /**
   * `getHeroSlides`: the stored slides in display order; with none stored, the built-in slides
   * when defaults are asked for and nothing otherwise.
   */
  function GetHeroSlides(docs: seq<StoredHeroSlide>, includeDefaults: bool): (slides: seq<HeroSlide>)
    ensures docs == [] ==> slides == (if includeDefaults then DefaultHeroSlides else [])
    ensures docs != [] ==> |slides| == |docs|
    ensures docs != [] ==> forall i :: 0 <= i < |slides| ==> slides[i] == MapHeroSlide(SlidesInOrder(docs)[i])
  {
    if docs == [] then (if includeDefaults then DefaultHeroSlides else [])
    else
      var sorted := SlidesInOrder(docs);
      seq(|sorted|, i requires 0 <= i < |sorted| => MapHeroSlide(sorted[i]))
  }

  /** Stored slides are shown by ascending order key, the newest first among equal keys. */
  lemma SlidesInOrderOrdered(docs: seq<StoredHeroSlide>)
    ensures Seqs.SortedBy(SlidesInOrder(docs), SlideFirst)
    ensures multiset(SlidesInOrder(docs)) == multiset(docs)
  {
    assert Seqs.TotalPreorder(SlideFirst);
    Seqs.SortBySorted(docs, SlideFirst);
  }
}
