/**
 * The template catalog's pure logic: input normalisation, the record built by
 * create and by partial update, the list filters and the sort orders.
 */
module Catalog {
  import opened Common
  import opened Schema
  import opened Text
  import Sorting

  /**
   * `normalizePrice`: not-a-number and negative prices become 0; any other
   * price is rounded half up to whole cents (`Math.round(x * 100) / 100`).
   */
  function NormalizePrice(p: NumberInput): (cents: int)
    ensures cents >= 0
    ensures p.NotANumber? || p.value.num < 0 ==> cents == 0
    ensures p.Finite? && p.value.num >= 0 ==>
      2 * p.value.den * cents <= 200 * p.value.num + p.value.den < 2 * p.value.den * (cents + 1)
  {
    match p
    case NotANumber => 0
    case Finite(d) =>
      if d.num < 0 then 0
      else
        var x, y := 200 * d.num + d.den, 2 * d.den;
        assert x == (x / y) * y + x % y;
        x / y
  }

  /** A price that is already whole cents is kept exactly. */
  lemma NormalizePriceKeepsCents(c: nat)
    ensures NormalizePrice(Finite(Decimal(c, 100))) == c
  {
    var r := NormalizePrice(Finite(Decimal(c, 100)));
    assert 200 * r <= 200 * c + 100 < 200 * (r + 1);
  }

  /** Normalising twice is normalising once. */
  lemma NormalizePriceIdempotent(p: NumberInput)
    ensures NormalizePrice(Finite(Decimal(NormalizePrice(p), 100))) == NormalizePrice(p)
  {
    NormalizePriceKeepsCents(NormalizePrice(p));
  }

  /** 49.995 is stored as 50.00. */
  lemma NormalizePriceRoundsHalfUp()
    ensures NormalizePrice(Finite(Decimal(49995, 1000))) == 5000
  {
  }

  /** `normalizeTemplateStatus`: a valid status name is kept, anything else is "draft". */
  function NormalizeTemplateStatus(s: Option<string>): (r: TemplateStatus)
    ensures forall st :: s == Some(StatusName(st)) ==> r == st
    ensures (forall st :: s != Some(StatusName(st))) ==> r == Draft
  {
    match s
    case None => Draft
    case Some(name) =>
      if name == [] then Draft
      else
        match ParseStatus(name)
        case Some(st) => st
        case None => Draft
  }

  /** The trimmed, non-empty entries of `vs`, in order. */
  function TrimNonEmpty(vs: seq<string>): (r: seq<string>)
    ensures |r| <= |vs|
    ensures forall x :: x in r ==> x != [] && IsTrimmed(x)
  {
    if vs == [] then []
    else
      var t := Trim(vs[0]);
      var rest := TrimNonEmpty(vs[1..]);
      if t == [] then rest else [t] + rest
  }

  /** The entries kept are exactly the non-empty trimmed forms of the inputs. */
  lemma {:induction false} TrimNonEmptyMembers(vs: seq<string>)
    ensures forall t :: t in TrimNonEmpty(vs) <==> t != [] && exists v :: v in vs && Trim(v) == t
  {
    if vs != [] {
      var tail := vs[1..];
      TrimNonEmptyMembers(tail);
      var head := Trim(vs[0]);
      var rest := TrimNonEmpty(tail);
      var r := TrimNonEmpty(vs);
      assert r == if head == [] then rest else [head] + rest;
      forall t | t in r
        ensures t != [] && exists v :: v in vs && Trim(v) == t
      {
        if t != head {
          assert t in rest;
          var v :| v in tail && Trim(v) == t;
          assert v in vs;
        }
      }
      forall t | t != [] && exists v :: v in vs && Trim(v) == t
        ensures t in r
      {
        var v :| v in vs && Trim(v) == t;
        if v != vs[0] {
          assert v in tail;
        }
      }
    }
  }

  /** A single entry is kept trimmed, or dropped when it is only white space. */
  lemma TrimNonEmptySingle(v: string)
    ensures TrimNonEmpty([v]) == if Trim(v) == [] then [] else [Trim(v)]
  {
    assert [v][1..] == [];
  }

  /** Sanitising works entry by entry: order and repeated entries are kept. */
  lemma {:induction false} TrimNonEmptyConcat(a: seq<string>, b: seq<string>)
    ensures TrimNonEmpty(a + b) == TrimNonEmpty(a) + TrimNonEmpty(b)
  {
    if a == [] {
      assert a + b == b;
    } else {
      assert (a + b)[0] == a[0];
      assert (a + b)[1..] == a[1..] + b;
      TrimNonEmptyConcat(a[1..], b);
    }
  }

  /** `sanitizeStringArray`: a missing list is empty; entries are trimmed and empties dropped. */
  function SanitizeStringArray(values: Option<seq<string>>): (r: seq<string>)
    ensures values.None? ==> r == []
    ensures values.Some? ==> r == TrimNonEmpty(values.value)
  {
    match values
    case None => []
    case Some(vs) => TrimNonEmpty(vs)
  }

  /** Sanitising a sanitised list changes nothing. */
  lemma {:induction false} TrimNonEmptyIdempotent(vs: seq<string>)
    ensures TrimNonEmpty(TrimNonEmpty(vs)) == TrimNonEmpty(vs)
  {
    if vs != [] {
      TrimNonEmptyIdempotent(vs[1..]);
      var t := Trim(vs[0]);
      var rest := TrimNonEmpty(vs[1..]);
      if t != [] {
        TrimIdempotent(t);
        assert ([t] + rest)[0] == t;
        assert ([t] + rest)[1..] == rest;
      }
    }
  }

  /** `toTemplateSummary`. */
  function Summary(t: Template): TemplateSummary {
    TemplateSummary(t.id, t.slug, t.title, t.category, t.price, t.status, t.heroImage)
  }

  /** The hero image chosen at creation: the given one, else the first gallery image, else the default. */
  function CreatedHeroImage(given: Option<string>, gallery: seq<string>): string {
    match given
    case Some(h) => h
    case None => if gallery != [] then gallery[0] else DefaultTemplateImage
  }

  /**
   * The record `createTemplate` stores, for an already unique `slug`, a fresh
   * `id` and the creation time `now`.
   */
  function NewTemplate(data: InsertTemplate, id: string, slug: string, now: string): (t: Template)
    ensures t.id == id && t.slug == slug && t.createdAt == now && t.updatedAt == now
    ensures t.title == data.title && t.category == data.category && t.description == data.description
    ensures t.videoUrl == data.videoUrl && t.liveDemoUrl == data.liveDemoUrl && t.figmaUrl == data.figmaUrl
    ensures t.price >= 0 && t.price == NormalizePrice(data.price)
    ensures t.status == NormalizeTemplateStatus(data.status)
    ensures data.status.None? ==> t.status == Draft
    ensures t.tags == SanitizeStringArray(data.tags) && t.features == SanitizeStringArray(data.features)
    ensures forall x :: x in t.tags ==> x != [] && IsTrimmed(x)
    ensures forall x :: x in t.features ==> x != [] && IsTrimmed(x)
    ensures data.heroImage.Some? ==> t.heroImage == data.heroImage.value
    ensures data.heroImage.None? && data.galleryImages.Some? && TrimNonEmpty(data.galleryImages.value) != [] ==>
      t.heroImage == TrimNonEmpty(data.galleryImages.value)[0]
    ensures data.heroImage.None? && SanitizeStringArray(data.galleryImages) == [] ==> t.heroImage == DefaultTemplateImage
    ensures |t.galleryImages| > 0
    ensures SanitizeStringArray(data.galleryImages) != [] ==> t.galleryImages == SanitizeStringArray(data.galleryImages)
    ensures SanitizeStringArray(data.galleryImages) == [] ==> t.galleryImages == [t.heroImage]
  {
    var gallery := SanitizeStringArray(data.galleryImages);
    var hero := CreatedHeroImage(data.heroImage, gallery);
    Template(
      id := id,
      slug := slug,
      title := data.title,
      category := data.category,
      price := NormalizePrice(data.price),
      status := NormalizeTemplateStatus(data.status),
      description := data.description,
      heroImage := hero,
      galleryImages := if gallery != [] then gallery else [hero],
      videoUrl := data.videoUrl,
      liveDemoUrl := data.liveDemoUrl,
      figmaUrl := data.figmaUrl,
      tags := SanitizeStringArray(data.tags),
      features := SanitizeStringArray(data.features),
      createdAt := now,
      updatedAt := now)
  }

  /** The update that supplies no field. */
  const EmptyUpdate: UpdateTemplate :=
    UpdateTemplate(None, None, None, None, None, None, None, None, None, None, None, None, None)

  /** The gallery after an update that supplies a hero image or a gallery, before the fallback to the hero. */
  function UpdatedGallery(existing: Template, u: UpdateTemplate): seq<string> {
    if u.galleryImages.Some? then TrimNonEmpty(u.galleryImages.value) else existing.galleryImages
  }

  /**
   * The hero image after an update that supplies a hero image or a gallery:
   * the given hero, else the first image of the (new or kept) gallery, else
   * the old hero, and the default image instead of an empty one.
   */
  function UpdatedHero(existing: Template, u: UpdateTemplate): (hero: string)
    ensures hero != []
    ensures u.heroImage.Some? && u.heroImage.value != [] ==> hero == u.heroImage.value
    ensures u.heroImage == Some([]) ==> hero == DefaultTemplateImage
    ensures u.heroImage.None? && u.galleryImages.Some? && TrimNonEmpty(u.galleryImages.value) != [] ==>
      hero == TrimNonEmpty(u.galleryImages.value)[0]
    ensures u.heroImage.None? && u.galleryImages.None? && existing.galleryImages != [] ==>
      hero == if existing.galleryImages[0] != [] then existing.galleryImages[0] else DefaultTemplateImage
    ensures u.heroImage.None? && UpdatedGallery(existing, u) == [] ==>
      hero == if existing.heroImage != [] then existing.heroImage else DefaultTemplateImage
  {
    var gallery := UpdatedGallery(existing, u);
    var h :=
      match u.heroImage
      case Some(h) => h
      case None => if gallery != [] then gallery[0] else existing.heroImage;
    if h != [] then h else DefaultTemplateImage
  }

  /**
   * The fields `updateTemplate` merges unconditionally: every supplied field
   * replaces the old one after the same normalisation as at creation; every
   * absent field keeps its old value. Identity, slug and images are kept.
   */
  function MergeFields(existing: Template, u: UpdateTemplate, now: string): (t: Template)
    ensures t.id == existing.id && t.slug == existing.slug
    ensures t.createdAt == existing.createdAt && t.updatedAt == now
    ensures t.heroImage == existing.heroImage && t.galleryImages == existing.galleryImages
    ensures t.title == u.title.GetOr(existing.title)
  {
    Template(
      existing.id,
      existing.slug,
      u.title.GetOr(existing.title),
      u.category.GetOr(existing.category),
      if u.price.Some? then NormalizePrice(u.price.value) else existing.price,
      if u.status.Some? then NormalizeTemplateStatus(u.status) else existing.status,
      u.description.GetOr(existing.description),
      existing.heroImage,
      existing.galleryImages,
      if u.videoUrl.Some? then u.videoUrl else existing.videoUrl,
      if u.liveDemoUrl.Some? then u.liveDemoUrl else existing.liveDemoUrl,
      if u.figmaUrl.Some? then u.figmaUrl else existing.figmaUrl,
      if u.tags.Some? then SanitizeStringArray(u.tags) else existing.tags,
      if u.features.Some? then SanitizeStringArray(u.features) else existing.features,
      existing.createdAt,
      now)
  }

  /** A supplied field replaces the old one, after the same normalisation as at creation. */
  lemma MergeFieldsTakesSupplied(existing: Template, u: UpdateTemplate, now: string)
    ensures var t := MergeFields(existing, u, now);
      && t.category == u.category.GetOr(existing.category)
      && t.description == u.description.GetOr(existing.description)
      && (u.price.Some? ==> t.price == NormalizePrice(u.price.value))
      && (u.status.Some? ==> t.status == NormalizeTemplateStatus(u.status))
      && (u.videoUrl.Some? ==> t.videoUrl == u.videoUrl)
      && (u.liveDemoUrl.Some? ==> t.liveDemoUrl == u.liveDemoUrl)
      && (u.figmaUrl.Some? ==> t.figmaUrl == u.figmaUrl)
      && (u.tags.Some? ==> t.tags == TrimNonEmpty(u.tags.value))
      && (u.features.Some? ==> t.features == TrimNonEmpty(u.features.value))
  {
  }

  /** A field the update leaves out keeps its old value. */
  lemma MergeFieldsKeepsAbsent(existing: Template, u: UpdateTemplate, now: string)
    ensures var t := MergeFields(existing, u, now);
      && (u.price.None? ==> t.price == existing.price)
      && (u.status.None? ==> t.status == existing.status)
      && (u.videoUrl.None? ==> t.videoUrl == existing.videoUrl)
      && (u.liveDemoUrl.None? ==> t.liveDemoUrl == existing.liveDemoUrl)
      && (u.figmaUrl.None? ==> t.figmaUrl == existing.figmaUrl)
      && (u.tags.None? ==> t.tags == existing.tags)
      && (u.features.None? ==> t.features == existing.features)
  {
  }

  /**
   * The record `updateTemplate` builds before the slug is re-resolved: the
   * merged fields, and new images only when a hero image or a gallery is
   * supplied.
   */
  function MergeTemplate(existing: Template, u: UpdateTemplate, now: string): (t: Template)
    ensures t.id == existing.id && t.slug == existing.slug && t.title == u.title.GetOr(existing.title)
    ensures t.(heroImage := existing.heroImage, galleryImages := existing.galleryImages) == MergeFields(existing, u, now)
    ensures u.heroImage.None? && u.galleryImages.None? ==> t == MergeFields(existing, u, now)
    ensures u.heroImage.Some? || u.galleryImages.Some? ==> t.heroImage != [] && |t.galleryImages| > 0
    ensures u.heroImage.Some? && u.heroImage.value != [] ==> t.heroImage == u.heroImage.value
    ensures u.galleryImages.Some? && TrimNonEmpty(u.galleryImages.value) != [] ==>
      t.galleryImages == TrimNonEmpty(u.galleryImages.value)
    ensures u.galleryImages.None? && existing.galleryImages != [] ==> t.galleryImages == existing.galleryImages
    ensures u.heroImage.Some? || u.galleryImages.Some? ==> t.heroImage == UpdatedHero(existing, u)
    ensures u.galleryImages.Some? && TrimNonEmpty(u.galleryImages.value) == [] ==> t.galleryImages == [t.heroImage]
    ensures u.heroImage.Some? && u.galleryImages.None? && existing.galleryImages == [] ==>
      t.galleryImages == [t.heroImage]
  {
    var merged := MergeFields(existing, u, now);
    if u.galleryImages.Some? || u.heroImage.Some? then
      var hero := UpdatedHero(existing, u);
      var gallery := UpdatedGallery(existing, u);
      merged.(heroImage := hero, galleryImages := if gallery != [] then gallery else [hero])
    else
      merged
  }

  /** An update that supplies nothing only refreshes the modification time. */
  lemma MergeEmptyUpdate(existing: Template, now: string)
    ensures MergeTemplate(existing, EmptyUpdate, now) == existing.(updatedAt := now)
  {
  }

  datatype CategoryFilter = AnyCategory | OnlyCategory(category: Category)
  datatype StatusFilter = AnyStatus | OnlyStatus(status: TemplateStatus)
  datatype TemplateSort = Newest | Oldest | PriceAsc | PriceDesc | ByTitle

  /** The list filters; `None` is an absent filter. Price bounds are exact decimals. */
  datatype TemplateFilters = TemplateFilters(
    search: Option<string>,
    category: Option<CategoryFilter>,
    status: Option<StatusFilter>,
    minPrice: Option<Decimal>,
    maxPrice: Option<Decimal>,
    sort: Option<TemplateSort>)

  predicate MatchesCategory(t: Template, f: Option<CategoryFilter>) {
    match f
    case Some(OnlyCategory(c)) => t.category == c
    case _ => true
  }

  predicate MatchesStatus(t: Template, f: Option<StatusFilter>) {
    match f
    case Some(OnlyStatus(s)) => t.status == s
    case _ => true
  }

  /** The price in cents is not below the bound `num / den`. */
  predicate NotBelow(cents: int, bound: Option<Decimal>) {
    match bound
    case None => true
    case Some(d) => cents * d.den >= 100 * d.num
  }

  /** The price in cents is not above the bound `num / den`. */
  predicate NotAbove(cents: int, bound: Option<Decimal>) {
    match bound
    case None => true
    case Some(d) => cents * d.den <= 100 * d.num
  }

  /** The lower-cased query occurs in the title, the description, a tag or a feature. */
  predicate MatchesQuery(t: Template, query: string) {
    var q := Lower(query);
    || Includes(Lower(t.title), q)
    || Includes(Lower(t.description), q)
    || (exists tag :: tag in t.tags && Includes(Lower(tag), q))
    || (exists feature :: feature in t.features && Includes(Lower(feature), q))
  }

  /** An empty search does not filter. */
  predicate MatchesSearch(t: Template, search: Option<string>) {
    match search
    case Some(q) => q == [] || MatchesQuery(t, q)
    case None => true
  }

  /** `matchesTemplateFilters`; absent filters match everything. */
  predicate MatchesFilters(t: Template, filters: Option<TemplateFilters>) {
    match filters
    case None => true
    case Some(f) =>
      && MatchesCategory(t, f.category)
      && MatchesStatus(t, f.status)
      && NotBelow(t.price, f.minPrice)
      && NotAbove(t.price, f.maxPrice)
      && MatchesSearch(t, f.search)
  }

  /** Absent filters, the "all" choices and an empty search let every template through. */
  lemma OpenFiltersMatchAll(t: Template, f: TemplateFilters)
    requires f.category.None? || f.category == Some(AnyCategory)
    requires f.status.None? || f.status == Some(AnyStatus)
    requires f.minPrice.None? && f.maxPrice.None?
    requires f.search.None? || f.search == Some([])
    ensures MatchesFilters(t, Some(f))
  {
  }

  /** The search ignores the case of the query. */
  lemma SearchIgnoresQueryCase(t: Template, query: string)
    ensures MatchesQuery(t, query) == MatchesQuery(t, Lower(query))
  {
    LowerIdempotent(query);
  }

  /** The price bounds are inclusive: a bound equal to the price admits it. */
  lemma PriceBoundsInclusive(t: Template, f: TemplateFilters)
    requires f.category.None? && f.status.None? && f.search.None?
    requires f.minPrice == Some(Decimal(t.price, 100)) && f.maxPrice == Some(Decimal(t.price, 100))
    ensures MatchesFilters(t, Some(f))
  {
  }

  /** The templates of `ts` that pass the filters, in their original order. */
  function FilterTemplates(ts: seq<Template>, filters: Option<TemplateFilters>): (r: seq<Template>)
    ensures forall t :: multiset(r)[t] == if MatchesFilters(t, filters) then multiset(ts)[t] else 0
  {
    if ts == [] then []
    else
      var rest := FilterTemplates(ts[1..], filters);
      assert ts == [ts[0]] + ts[1..];
      if MatchesFilters(ts[0], filters) then [ts[0]] + rest else rest
  }

  /** `a` may come before `b` under the sort key. */
  predicate Precedes(key: TemplateSort, a: Template, b: Template) {
    match key
    case PriceAsc => a.price <= b.price
    case PriceDesc => b.price <= a.price
    case ByTitle => StrLe(a.title, b.title)
    case Oldest => StrLe(a.createdAt, b.createdAt)
    case Newest => StrLe(b.createdAt, a.createdAt)
  }

  function SortOrder(key: TemplateSort): (Template, Template) -> bool {
    (a: Template, b: Template) => Precedes(key, a, b)
  }

  lemma SortOrderIsTotalPreorder(key: TemplateSort)
    ensures Sorting.IsTotalPreorder(SortOrder(key))
  {
    var le := SortOrder(key);
    forall a: Template, b: Template
      ensures le(a, b) || le(b, a)
    {
      StrLeTotal(a.title, b.title);
      StrLeTotal(a.createdAt, b.createdAt);
    }
    forall a: Template, b: Template, c: Template | le(a, b) && le(b, c)
      ensures le(a, c)
    {
      match key
      case ByTitle => StrLeTransitive(a.title, b.title, c.title);
      case Oldest => StrLeTransitive(a.createdAt, b.createdAt, c.createdAt);
      case Newest => StrLeTransitive(c.createdAt, b.createdAt, a.createdAt);
      case _ =>
    }
  }

  /** `sortTemplates`: a reordering of `ts` by the chosen key, newest first by default. */
  function SortTemplates(ts: seq<Template>, sort: Option<TemplateSort>): (r: seq<Template>)
    ensures multiset(r) == multiset(ts)
    ensures forall i, j :: 0 <= i < j < |r| ==> Precedes(sort.GetOr(Newest), r[i], r[j])
  {
    var key := sort.GetOr(Newest);
    SortOrderIsTotalPreorder(key);
    Sorting.SortBy(SortOrder(key), ts)
  }
}
