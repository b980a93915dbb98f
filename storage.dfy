/**
 * `MemStorage`, the in-memory store: users, templates, carts and orders held
 * in maps. A JavaScript `Map` iterates in insertion order, which decides the
 * tie order of the listings and which record a lookup by value finds first,
 * so the key order of the users, templates and orders is kept beside each map.
 * Fresh ids (`randomUUID`) and timestamps (`new Date().toISOString()`) are
 * parameters.
 */
module Storage {
  import opened Common
  import opened Schema
  import opened Text
  import Slug
  import Catalog
  import CartLines
  import Orders

  predicate Distinct(ids: seq<string>) {
    forall i, j :: 0 <= i < j < |ids| ==> ids[i] != ids[j]
  }

  /** `ids` lists every key of `m` exactly once. */
  ghost predicate KeyOrder<T>(ids: seq<string>, m: map<string, T>) {
    Distinct(ids) && forall k :: k in m <==> k in ids
  }

  /** The records of `m` in the order of `ids` (`Array.from(map.values())`). */
  function Values<T>(ids: seq<string>, m: map<string, T>): (r: seq<T>)
    requires forall i :: 0 <= i < |ids| ==> ids[i] in m
    ensures |r| == |ids|
    ensures forall i :: 0 <= i < |ids| ==> r[i] == m[ids[i]]
  {
    if ids == [] then [] else [m[ids[0]]] + Values(ids[1..], m)
  }

  /** Listing a map by its key order yields exactly its records. */
  lemma ValuesMembers<T>(ids: seq<string>, m: map<string, T>)
    requires KeyOrder(ids, m)
    ensures forall v :: v in Values(ids, m) <==> v in m.Values
  {
    var r := Values(ids, m);
    forall v | v in m.Values
      ensures v in r
    {
      var k :| k in m && m[k] == v;
      var i :| 0 <= i < |ids| && ids[i] == k;
      assert r[i] == v;
    }
  }

  lemma {:induction false} DistinctSetSize(ids: seq<string>)
    requires Distinct(ids)
    ensures |(set x | x in ids)| == |ids|
  {
    if ids != [] {
      var rest := ids[1..];
      assert Distinct(rest) by {
        forall i, j | 0 <= i < j < |rest|
          ensures rest[i] != rest[j]
        {
          assert rest[i] == ids[i + 1] && rest[j] == ids[j + 1];
        }
      }
      DistinctSetSize(rest);
      assert (set x | x in ids) == (set x | x in rest) + {ids[0]};
      assert ids[0] !in (set x | x in rest);
    }
  }

  /** A map and its key order have the same size. */
  lemma KeyOrderSize<T>(ids: seq<string>, m: map<string, T>)
    requires KeyOrder(ids, m)
    ensures |m| == |ids|
  {
    DistinctSetSize(ids);
    assert m.Keys == set x | x in ids;
  }

  /** A key new to the map goes to the end of the key order. */
  lemma KeyOrderAppend<T>(ids: seq<string>, m: map<string, T>, k: string, v: T)
    requires KeyOrder(ids, m) && k !in m
    ensures KeyOrder(ids + [k], m[k := v])
    ensures Values(ids + [k], m[k := v]) == Values(ids, m) + [v]
  {
    assert forall i :: 0 <= i < |ids| ==> ids[i] in m;
  }

  /** `ids` without `k`, in the same order (`Map.delete`). */
  function RemoveKey(ids: seq<string>, k: string): (r: seq<string>)
    ensures forall x :: x in r <==> x in ids && x != k
    ensures Distinct(ids) ==> Distinct(r)
    ensures k !in ids ==> r == ids
    ensures forall i :: 0 <= i < |ids| && ids[i] == k && k !in ids[..i] && k !in ids[i + 1..] ==>
      r == ids[..i] + ids[i + 1..]
  {
    if ids == [] then []
    else
      var rest := RemoveKey(ids[1..], k);
      assert forall i, j :: 0 <= i < j < |ids[1..]| ==> ids[1..][i] == ids[i + 1] && ids[1..][j] == ids[j + 1];
      assert Distinct(ids) ==> ids[0] !in ids[1..];
      RemoveKeyOrder(ids, k, rest);
      if ids[0] == k then rest else [ids[0]] + rest
  }

  /** One step of `RemoveKey` keeps the order of the other keys. */
  lemma RemoveKeyOrder(ids: seq<string>, k: string, rest: seq<string>)
    requires ids != []
    requires k !in ids[1..] ==> rest == ids[1..]
    requires forall i :: 0 <= i < |ids[1..]| && ids[1..][i] == k && k !in ids[1..][..i] && k !in ids[1..][i + 1..] ==>
      rest == ids[1..][..i] + ids[1..][i + 1..]
    ensures k !in ids ==> [ids[0]] + rest == ids
    ensures forall i :: 0 <= i < |ids| && ids[i] == k && k !in ids[..i] && k !in ids[i + 1..] ==>
      (if ids[0] == k then rest else [ids[0]] + rest) == ids[..i] + ids[i + 1..]
  {
    if k !in ids {
      assert k !in ids[1..];
      assert ids == [ids[0]] + ids[1..];
    }
    forall i | 0 <= i < |ids| && ids[i] == k && k !in ids[..i] && k !in ids[i + 1..]
      ensures (if ids[0] == k then rest else [ids[0]] + rest) == ids[..i] + ids[i + 1..]
    {
      RemoveKeyStep(ids, k, i);
    }
  }

  /** The slicing facts behind one step of `RemoveKey`'s order clause. */
  lemma RemoveKeyStep(ids: seq<string>, k: string, i: int)
    requires 0 <= i < |ids| && ids[i] == k && k !in ids[..i] && k !in ids[i + 1..]
    ensures ids[0] == k ==> i == 0 && k !in ids[1..] && ids[..i] + ids[i + 1..] == ids[1..]
    ensures ids[0] != k ==>
      && 1 <= i
      && ids[1..][i - 1] == k && k !in ids[1..][..i - 1] && k !in ids[1..][i..]
      && ids[..i] + ids[i + 1..] == [ids[0]] + (ids[1..][..i - 1] + ids[1..][i..])
  {
    if ids[0] != k {
      assert ids[1..][..i - 1] == ids[1..i] && ids[1..][i..] == ids[i + 1..];
      assert ids[..i] == [ids[0]] + ids[1..i];
    }
  }

  ghost predicate UsersOk(ids: seq<string>, us: map<string, User>) {
    && KeyOrder(ids, us)
    && (forall id :: id in us ==> us[id].id == id)
    && (forall a, b :: a in us && b in us && a != b ==> Lower(us[a].username) != Lower(us[b].username))
  }

  ghost predicate TemplatesOk(ids: seq<string>, ts: map<string, Template>) {
    && KeyOrder(ids, ts)
    && (forall id :: id in ts ==> ts[id].id == id)
    && (forall a, b :: a in ts && b in ts && a != b ==> ts[a].slug != ts[b].slug)
  }

  /** A cart is filed under its id, its subtotal is the sum of its lines, and no two lines share a template or an id. */
  ghost predicate CartOk(id: string, c: Cart) {
    && c.id == id
    && c.subtotal == CartLines.LinesTotal(c.items)
    && CartLines.DistinctTemplates(c.items)
    && CartLines.DistinctIds(c.items)
  }

  ghost predicate CartsOk(cs: map<string, Cart>) {
    forall id :: id in cs ==> CartOk(id, cs[id])
  }

  /** Every order is a paid, non-empty snapshot whose total is the sum of its lines. */
  ghost predicate OrdersOk(ids: seq<string>, os: map<string, Order>) {
    && KeyOrder(ids, os)
    && (forall id :: id in os ==> os[id].id == id && os[id].status == Paid)
    && (forall id :: id in os ==> os[id].items != [] && os[id].total == CartLines.LinesTotal(os[id].items))
  }

  /** Filing a new user whose name is free ignoring case keeps the users consistent. */
  lemma UsersOkInsert(ids: seq<string>, us: map<string, User>, u: User)
    requires UsersOk(ids, us) && u.id !in us
    requires forall v :: v in us.Values ==> Lower(v.username) != Lower(u.username)
    ensures UsersOk(ids + [u.id], us[u.id := u])
  {
    KeyOrderAppend(ids, us, u.id, u);
    forall a | a in us
      ensures Lower(us[a].username) != Lower(u.username)
    {
      assert us[a] in us.Values;
    }
  }

  /** Filing a new template under a slug nobody holds keeps the slugs unique. */
  lemma TemplatesOkInsert(ids: seq<string>, ts: map<string, Template>, t: Template)
    requires TemplatesOk(ids, ts) && t.id !in ts
    requires forall a :: a in ts ==> ts[a].slug != t.slug
    ensures TemplatesOk(ids + [t.id], ts[t.id := t])
  {
    KeyOrderAppend(ids, ts, t.id, t);
  }

  /** Replacing a template by one whose slug no other template holds keeps the slugs unique. */
  lemma TemplatesOkReplace(ids: seq<string>, ts: map<string, Template>, t: Template)
    requires TemplatesOk(ids, ts) && t.id in ts
    requires forall a :: a in ts && a != t.id ==> ts[a].slug != t.slug
    ensures TemplatesOk(ids, ts[t.id := t])
  {
  }

  lemma TemplatesOkRemove(ids: seq<string>, ts: map<string, Template>, id: string)
    requires TemplatesOk(ids, ts)
    ensures TemplatesOk(RemoveKey(ids, id), ts - {id})
  {
  }

  lemma CartsOkUpdate(cs: map<string, Cart>, id: string, c: Cart)
    requires CartsOk(cs) && CartOk(id, c)
    ensures CartsOk(cs[id := c])
  {
  }

  /** Filing a new paid order keeps the orders consistent and raises the revenue by its total. */
  lemma OrdersOkInsert(ids: seq<string>, os: map<string, Order>, o: Order)
    requires OrdersOk(ids, os) && o.id !in os
    requires o.status == Paid && o.items != [] && o.total == CartLines.LinesTotal(o.items)
    ensures OrdersOk(ids + [o.id], os[o.id := o])
    ensures Orders.Revenue(Values(ids + [o.id], os[o.id := o])) == Orders.Revenue(Values(ids, os)) + o.total
  {
    KeyOrderAppend(ids, os, o.id, o);
    var os' := os[o.id := o];
    forall id | id in os'
      ensures os'[id].id == id && os'[id].status == Paid
      ensures os'[id].items != [] && os'[id].total == CartLines.LinesTotal(os'[id].items)
    {
      if id != o.id {
        assert os'[id] == os[id];
      }
    }
    Orders.RevenueAppendPaid(Values(ids, os), o);
  }

  /** The slugs of the templates whose id is not `ignoreId`. */
  ghost function SlugsExcept(ts: map<string, Template>, ignoreId: Option<string>): set<string> {
    set id | id in ts && Some(ts[id].id) != ignoreId :: ts[id].slug
  }

  /** Every template other than the ignored one holds a slug of `SlugsExcept`. */
  lemma SlugsExceptHolds(ts: map<string, Template>, ignoreId: Option<string>)
    requires forall id :: id in ts ==> ts[id].id == id
    ensures forall id :: id in ts && Some(id) != ignoreId ==> ts[id].slug in SlugsExcept(ts, ignoreId)
  {
  }

  /** The lines of cart `id`, none when it does not exist yet. */
  function ItemsOf(cs: map<string, Cart>, id: string): seq<CartItem> {
    if id in cs then cs[id].items else []
  }

  /** The carts after `getCartRecord(id)`: an empty cart is filed under an unknown id. */
  function WithCart(cs: map<string, Cart>, id: string): (r: map<string, Cart>)
    ensures id in r && r[id].items == ItemsOf(cs, id)
    ensures forall k :: k != id ==> (k in r <==> k in cs) && (k in cs ==> r[k] == cs[k])
  {
    if id in cs then cs else cs[id := Cart(id, [], 0)]
  }

  /** The first user whose name equals `name` ignoring case. */
  function FindUsername(us: seq<User>, name: string): (r: Option<User>)
    ensures r.None? <==> forall i :: 0 <= i < |us| ==> Lower(us[i].username) != Lower(name)
    ensures r.Some? ==> r.value in us && Lower(r.value.username) == Lower(name)
  {
    if us == [] then None
    else if Lower(us[0].username) == Lower(name) then Some(us[0])
    else
      assert forall i :: 1 <= i < |us| ==> us[i] == us[1..][i - 1];
      FindUsername(us[1..], name)
  }

  /** The first template whose slug is `slug`. */
  function FindSlug(ts: seq<Template>, slug: string): (r: Option<Template>)
    ensures r.None? <==> forall i :: 0 <= i < |ts| ==> ts[i].slug != slug
    ensures r.Some? ==> r.value in ts && r.value.slug == slug
  {
    if ts == [] then None
    else if ts[0].slug == slug then Some(ts[0])
    else
      assert forall i :: 1 <= i < |ts| ==> ts[i] == ts[1..][i - 1];
      FindSlug(ts[1..], slug)
  }

  /** The sort key of a listing: `filters?.sort`. */
  function SortKey(filters: Option<Catalog.TemplateFilters>): Option<Catalog.TemplateSort> {
    match filters
    case None => None
    case Some(f) => f.sort
  }

  class MemStorage {
    var users: map<string, User>
    var userIds: seq<string>
    var templates: map<string, Template>
    var templateIds: seq<string>
    var carts: map<string, Cart>
    var orders: map<string, Order>
    var orderIds: seq<string>

    ghost predicate Valid()
      reads this
    {
      && UsersOk(userIds, users)
      && TemplatesOk(templateIds, templates)
      && CartsOk(carts)
      && OrdersOk(orderIds, orders)
    }

    /** An empty store. */
    constructor()
      ensures Valid()
      ensures users == map[] && templates == map[] && carts == map[] && orders == map[]
      ensures userIds == [] && templateIds == [] && orderIds == []
    {
      users, userIds := map[], [];
      templates, templateIds := map[], [];
      carts := map[];
      orders, orderIds := map[], [];
    }

    /** The users in insertion order. */
    function UserList(): (r: seq<User>)
      reads this
      requires Valid()
      ensures |r| == |userIds| && forall i :: 0 <= i < |r| ==> r[i] == users[userIds[i]]
      ensures forall u :: u in r <==> u in users.Values
    {
      ValuesMembers(userIds, users);
      Values(userIds, users)
    }

    /** The templates in insertion order. */
    function TemplateList(): (r: seq<Template>)
      reads this
      requires Valid()
      ensures |r| == |templateIds| && forall i :: 0 <= i < |r| ==> r[i] == templates[templateIds[i]]
      ensures forall t :: t in r <==> t in templates.Values
    {
      ValuesMembers(templateIds, templates);
      Values(templateIds, templates)
    }

    /** The orders in insertion order. */
    function OrderList(): (r: seq<Order>)
      reads this
      requires Valid()
      ensures |r| == |orderIds| && forall i :: 0 <= i < |r| ==> r[i] == orders[orderIds[i]]
      ensures forall o :: o in r <==> o in orders.Values
    {
      ValuesMembers(orderIds, orders);
      Values(orderIds, orders)
    }

    // Users

    function GetUser(id: string): (r: Option<User>)
      reads this
      requires Valid()
      ensures r.Some? <==> id in users
      ensures r.Some? ==> r.value == users[id] && r.value.id == id
    {
      if id in users then Some(users[id]) else None
    }

    /** The user whose name equals `username` ignoring case. */
    function GetUserByUsername(username: string): (r: Option<User>)
      reads this
      requires Valid()
      ensures r.None? <==> forall u :: u in users.Values ==> Lower(u.username) != Lower(username)
      ensures r.Some? ==> r.value in users.Values && Lower(r.value.username) == Lower(username)
    {
      var us := UserList();
      assert forall u :: u in us <==> exists i :: 0 <= i < |us| && us[i] == u;
      FindUsername(us, username)
    }

    /**
     * `createUser`: refused when the name is taken ignoring case; otherwise the
     * user is stored under the fresh `id` with the already hashed password.
     */
    method CreateUser(username: string, passwordHash: string, id: string) returns (r: Result<User>)
      modifies this
      requires Valid() && id !in users
      ensures Valid()
      ensures templates == old(templates) && templateIds == old(templateIds) && carts == old(carts)
      ensures orders == old(orders) && orderIds == old(orderIds)
      ensures r.Err? <==> exists u :: u in old(users).Values && Lower(u.username) == Lower(username)
      ensures r.Err? ==> r.error == UsernameTaken && users == old(users) && userIds == old(userIds)
      ensures r.Ok? ==> r.value == User(id, username, passwordHash)
      ensures r.Ok? ==> users == old(users)[id := r.value] && userIds == old(userIds) + [id]
    {
      var existing := GetUserByUsername(username);
      if existing.Some? {
        return Err(UsernameTaken);
      }
      var user := User(id, username, passwordHash);
      FileNewUser(user);
      r := Ok(user);
    }

    /** `this.users.set` for a new user whose name no other user has, ignoring case. */
    method FileNewUser(u: User)
      modifies this
      requires Valid() && u.id !in users
      requires forall v :: v in users.Values ==> Lower(v.username) != Lower(u.username)
      ensures Valid()
      ensures templates == old(templates) && templateIds == old(templateIds) && carts == old(carts)
      ensures orders == old(orders) && orderIds == old(orderIds)
      ensures users == old(users)[u.id := u] && userIds == old(userIds) + [u.id]
    {
      UsersOkInsert(userIds, users, u);
      users := users[u.id := u];
      userIds := userIds + [u.id];
    }

    // Templates

    function GetTemplate(id: string): (r: Option<Template>)
      reads this
      requires Valid()
      ensures r.Some? <==> id in templates
      ensures r.Some? ==> r.value == templates[id] && r.value.id == id
    {
      if id in templates then Some(templates[id]) else None
    }

    /** The template whose slug is the lower-cased `slug`; slugs are unique, so there is at most one. */
    function GetTemplateBySlug(slug: string): (r: Option<Template>)
      reads this
      requires Valid()
      ensures r.None? <==> forall t :: t in templates.Values ==> t.slug != Lower(slug)
      ensures r.Some? ==> r.value in templates.Values && r.value.slug == Lower(slug)
      ensures r.Some? ==> forall t :: t in templates.Values && t.slug == Lower(slug) ==> t == r.value
    {
      var ts := TemplateList();
      assert forall t :: t in ts <==> exists i :: 0 <= i < |ts| && ts[i] == t;
      FindSlug(ts, Lower(slug))
    }

    /**
     * `listTemplates`: every template that passes the filters, each as often
     * as it is stored, ordered by the chosen key (newest first by default).
     */
    function ListTemplates(filters: Option<Catalog.TemplateFilters>): (r: seq<Template>)
      reads this
      requires Valid()
      ensures forall t :: t in r <==> t in templates.Values && Catalog.MatchesFilters(t, filters)
      ensures forall t :: multiset(r)[t] == if Catalog.MatchesFilters(t, filters) then multiset(TemplateList())[t] else 0
      ensures forall i, j :: 0 <= i < j < |r| ==> Catalog.Precedes(SortKey(filters).GetOr(Catalog.Newest), r[i], r[j])
    {
      var ts := TemplateList();
      var r := Catalog.SortTemplates(Catalog.FilterTemplates(ts, filters), SortKey(filters));
      assert forall t :: t in r <==> multiset(r)[t] > 0;
      assert forall t :: t in ts <==> multiset(ts)[t] > 0;
      r
    }

    /** The slugs held by templates other than `ignoreId`. */
    ghost function TakenSlugs(ignoreId: Option<string>): set<string>
      reads this
    {
      SlugsExcept(templates, ignoreId)
    }

    /** `isSlugTaken` inside `ensureUniqueSlug`. */
    function IsSlugTaken(candidate: string, ignoreId: Option<string>): (r: bool)
      reads this
      ensures r <==> candidate in TakenSlugs(ignoreId)
    {
      exists id :: id in templates && templates[id].slug == candidate && Some(templates[id].id) != ignoreId
    }

    /**
     * `ensureUniqueSlug`: the lower-cased base if no other template holds it,
     * otherwise `base-k` for the least `k >= 1` that is free.
     */
    method EnsureUniqueSlug(base: string, ignoreId: Option<string>) returns (slug: string)
      ensures Slug.IsFirstFree(TakenSlugs(ignoreId), Lower(base), slug)
      ensures slug !in TakenSlugs(ignoreId)
    {
      var normalized := Lower(base);
      ghost var taken := TakenSlugs(ignoreId);
      slug := normalized;
      var counter: nat := 1;
      while IsSlugTaken(slug, ignoreId)
        invariant counter >= 1
        invariant slug == Slug.Candidate(normalized, counter - 1)
        invariant Slug.AllTakenBelow(taken, normalized, counter - 1)
        invariant Slug.Tried(normalized, counter - 1) <= taken
        decreases |taken - Slug.Tried(normalized, counter - 1)|
      {
        Slug.TriedStep(taken, normalized, counter - 1);
        slug := normalized + "-" + ShowNat(counter);
        counter := counter + 1;
      }
      Slug.FirstFreeIntro(taken, normalized, counter - 1);
    }

    /** The slug `createTemplate` gives a new template: the first free candidate for the slugified slug or title. */
    method CreatedSlug(data: InsertTemplate) returns (slug: string)
      requires Valid()
      ensures Slug.IsFirstFree(TakenSlugs(None), Lower(Slug.Slugify(data.slug.GetOr(data.title))), slug)
      ensures forall a :: a in templates ==> templates[a].slug != slug
    {
      slug := EnsureUniqueSlug(Slug.Slugify(data.slug.GetOr(data.title)), None);
      SlugsExceptHolds(templates, None);
    }

    /**
     * `createTemplate`: the slug is the first free candidate for the slugified
     * slug or title; the record is built by `NewTemplate` and filed under the
     * fresh `id`.
     */
    method CreateTemplate(data: InsertTemplate, id: string, now: string) returns (t: Template)
      modifies this
      requires Valid() && id !in templates
      ensures Valid()
      ensures users == old(users) && userIds == old(userIds) && carts == old(carts)
      ensures orders == old(orders) && orderIds == old(orderIds)
      ensures templates == old(templates)[id := t] && templateIds == old(templateIds) + [id]
      ensures t == Catalog.NewTemplate(data, id, t.slug, now)
      ensures Slug.IsFirstFree(old(TakenSlugs(None)), Lower(Slug.Slugify(data.slug.GetOr(data.title))), t.slug)
      ensures forall other :: other in old(templates) ==> old(templates)[other].slug != t.slug
    {
      var slug := CreatedSlug(data);
      t := Catalog.NewTemplate(data, id, slug, now);
      FileNewTemplate(t);
    }

    /** `this.templates.set` for a new template whose slug no other template holds. */
    method FileNewTemplate(t: Template)
      modifies this
      requires Valid() && t.id !in templates
      requires forall a :: a in templates ==> templates[a].slug != t.slug
      ensures Valid()
      ensures users == old(users) && userIds == old(userIds) && carts == old(carts)
      ensures orders == old(orders) && orderIds == old(orderIds)
      ensures templates == old(templates)[t.id := t] && templateIds == old(templateIds) + [t.id]
    {
      TemplatesOkInsert(templateIds, templates, t);
      templates := templates[t.id := t];
      templateIds := templateIds + [t.id];
    }

    /**
     * The slug `updateTemplate` gives template `id`: re-resolved from the
     * supplied slug or the new title when either is supplied, otherwise kept.
     */
    method UpdatedSlug(id: string, u: UpdateTemplate, title: string) returns (slug: string)
      requires Valid() && id in templates
      ensures u.slug.None? && u.title.None? ==> slug == templates[id].slug
      ensures u.slug.Some? || u.title.Some? ==>
        Slug.IsFirstFree(TakenSlugs(Some(id)), Lower(Slug.Slugify(u.slug.GetOr(title))), slug)
      ensures forall a :: a in templates && a != id ==> templates[a].slug != slug
    {
      slug := templates[id].slug;
      if u.slug.Some? || u.title.Some? {
        slug := EnsureUniqueSlug(Slug.Slugify(u.slug.GetOr(title)), Some(id));
        SlugsExceptHolds(templates, Some(id));
      }
    }

    /**
     * `updateTemplate`: nothing for an unknown id; otherwise the merged record,
     * whose slug is re-resolved (ignoring the template itself) only when a
     * slug or a title is supplied.
     */
    method UpdateTemplate(id: string, u: UpdateTemplate, now: string) returns (r: Option<Template>)
      modifies this
      requires Valid()
      ensures Valid()
      ensures users == old(users) && userIds == old(userIds) && carts == old(carts)
      ensures orders == old(orders) && orderIds == old(orderIds) && templateIds == old(templateIds)
      ensures r.None? <==> id !in old(templates)
      ensures r.None? ==> templates == old(templates)
      ensures r.Some? ==> templates == old(templates)[id := r.value]
      ensures r.Some? ==> r.value.(slug := old(templates)[id].slug) == Catalog.MergeTemplate(old(templates)[id], u, now)
      ensures r.Some? && u.slug.None? && u.title.None? ==> r.value.slug == old(templates)[id].slug
      ensures r.Some? && (u.slug.Some? || u.title.Some?) ==>
        Slug.IsFirstFree(old(TakenSlugs(Some(id))), Lower(Slug.Slugify(u.slug.GetOr(r.value.title))), r.value.slug)
    {
      if id !in templates {
        return None;
      }
      var existing := templates[id];
      var merged := Catalog.MergeTemplate(existing, u, now);
      var slug := UpdatedSlug(id, u, merged.title);
      var updated := merged.(slug := slug);
      assert updated.(slug := existing.slug) == merged;
      TemplatesOkReplace(templateIds, templates, updated);
      templates := templates[id := updated];
      r := Some(updated);
    }

    /** `deleteTemplate`: reports whether the id was present and removes it. */
    method DeleteTemplate(id: string) returns (deleted: bool)
      modifies this
      requires Valid()
      ensures Valid()
      ensures users == old(users) && userIds == old(userIds) && carts == old(carts)
      ensures orders == old(orders) && orderIds == old(orderIds)
      ensures deleted <==> id in old(templates)
      ensures templates == old(templates) - {id}
      ensures templateIds == RemoveKey(old(templateIds), id)
    {
      deleted := id in templates;
      TemplatesOkRemove(templateIds, templates, id);
      templates := templates - {id};
      templateIds := RemoveKey(templateIds, id);
    }

    // Carts

    /**
     * `getOrCreateCart`: an existing cart for a non-empty id is returned as it
     * is; otherwise an empty cart is filed under the given id (even the empty
     * one) or, without an id, under `freshId`.
     */
    method GetOrCreateCart(cartId: Option<string>, freshId: string) returns (c: Cart)
      modifies this
      requires Valid()
      requires cartId.None? ==> freshId !in carts
      ensures Valid()
      ensures users == old(users) && userIds == old(userIds) && templates == old(templates)
      ensures templateIds == old(templateIds) && orders == old(orders) && orderIds == old(orderIds)
      ensures c.id == cartId.GetOr(freshId) && c.id in carts && carts[c.id] == c
      ensures cartId.Some? && cartId.value != [] && cartId.value in old(carts) ==>
        c == old(carts)[cartId.value] && carts == old(carts)
      ensures !(cartId.Some? && cartId.value != [] && cartId.value in old(carts)) ==>
        c == Cart(c.id, [], 0) && carts == old(carts)[c.id := c]
    {
      if cartId.Some? && cartId.value != [] && cartId.value in carts {
        return carts[cartId.value];
      }
      c := Cart(cartId.GetOr(freshId), [], 0);
      carts := carts[c.id := c];
    }

    /** `getCartRecord`: files an empty cart under an unknown id. */
    method GetCartRecord(cartId: string)
      modifies this
      requires Valid()
      ensures Valid()
      ensures users == old(users) && userIds == old(userIds) && templates == old(templates)
      ensures templateIds == old(templateIds) && orders == old(orders) && orderIds == old(orderIds)
      ensures carts == WithCart(old(carts), cartId)
    {
      if cartId !in carts {
        carts := carts[cartId := Cart(cartId, [], 0)];
      }
    }

    /**
     * `addCartItem`: the cart is created first; an unknown template fails with
     * "Template not found"; otherwise the template is merged into the lines
     * (default quantity 1) and the subtotal recomputed.
     */
    method AddCartItem(cartId: string, templateId: string, quantity: Option<int>, lineId: string, now: string)
      returns (r: Result<Cart>)
      modifies this
      requires Valid()
      requires forall i :: 0 <= i < |ItemsOf(carts, cartId)| ==> ItemsOf(carts, cartId)[i].id != lineId
      ensures Valid()
      ensures users == old(users) && userIds == old(userIds) && templates == old(templates)
      ensures templateIds == old(templateIds) && orders == old(orders) && orderIds == old(orderIds)
      ensures r.Err? <==> templateId !in old(templates)
      ensures r.Err? ==> r.error == TemplateNotFound && carts == WithCart(old(carts), cartId)
      ensures r.Ok? ==> carts == old(carts)[cartId := r.value] && r.value.id == cartId
      ensures r.Ok? ==>
        r.value.items == CartLines.AddLine(ItemsOf(old(carts), cartId), old(templates)[templateId], quantity.GetOr(1), lineId, now)
      ensures r.Ok? ==> r.value.subtotal == CartLines.LinesTotal(r.value.items)
    {
      GetCartRecord(cartId);
      if templateId !in templates {
        return Err(TemplateNotFound);
      }
      var template := templates[templateId];
      var items := CartLines.AddLine(carts[cartId].items, template, quantity.GetOr(1), lineId, now);
      CartLines.AddLineKeepsDistinctTemplates(carts[cartId].items, template, quantity.GetOr(1), lineId, now);
      CartLines.AddLineKeepsDistinctIds(carts[cartId].items, template, quantity.GetOr(1), lineId, now);
      var cart := Cart(cartId, items, CartLines.LinesTotal(items));
      carts := carts[cartId := cart];
      r := Ok(cart);
    }

    /**
     * `updateCartItem`: the cart is created first; an unknown line fails with
     * "Cart item not found"; a quantity of at most 0 deletes the line, any
     * other sets its quantity; the subtotal is recomputed.
     */
    method UpdateCartItem(cartId: string, itemId: string, quantity: int) returns (r: Result<Cart>)
      modifies this
      requires Valid()
      ensures Valid()
      ensures users == old(users) && userIds == old(userIds) && templates == old(templates)
      ensures templateIds == old(templateIds) && orders == old(orders) && orderIds == old(orderIds)
      ensures r.Err? <==> forall i :: 0 <= i < |ItemsOf(old(carts), cartId)| ==> ItemsOf(old(carts), cartId)[i].id != itemId
      ensures r.Err? ==> r.error == CartItemNotFound && carts == WithCart(old(carts), cartId)
      ensures r.Ok? ==> carts == old(carts)[cartId := r.value] && r.value.id == cartId
      ensures r.Ok? ==> r.value.subtotal == CartLines.LinesTotal(r.value.items)
      ensures r.Ok? ==>
        var before := ItemsOf(old(carts), cartId);
        var i := CartLines.FindById(before, itemId).value;
        && (quantity <= 0 ==> r.value.items == before[..i] + before[i + 1..])
        && (quantity > 0 ==> r.value.items == before[i := before[i].(quantity := quantity)])
    {
      GetCartRecord(cartId);
      var items := carts[cartId].items;
      match CartLines.FindById(items, itemId) {
        case None =>
          return Err(CartItemNotFound);
        case Some(i) =>
          var updated;
          if quantity <= 0 {
            CartLines.RemoveByIdDeletesLine(items, i);
            CartLines.DeleteKeepsDistinct(items, i);
            updated := CartLines.RemoveById(items, itemId);
          } else {
            CartLines.SetQuantityKeepsDistinct(items, i, quantity);
            updated := items[i := items[i].(quantity := quantity)];
          }
          var cart := Cart(cartId, updated, CartLines.LinesTotal(updated));
          CartsOkUpdate(carts, cartId, cart);
          carts := carts[cartId := cart];
          r := Ok(cart);
      }
    }

    /** `removeCartItem`: drops every line with that id (none is fine) and recomputes the subtotal. */
    method RemoveCartItem(cartId: string, itemId: string) returns (c: Cart)
      modifies this
      requires Valid()
      ensures Valid()
      ensures users == old(users) && userIds == old(userIds) && templates == old(templates)
      ensures templateIds == old(templateIds) && orders == old(orders) && orderIds == old(orderIds)
      ensures carts == old(carts)[cartId := c] && c.id == cartId
      ensures c.subtotal == CartLines.LinesTotal(c.items)
      ensures c.items == CartLines.RemoveById(ItemsOf(old(carts), cartId), itemId)
      ensures forall x :: x in c.items <==> x in ItemsOf(old(carts), cartId) && x.id != itemId
      ensures (forall i :: 0 <= i < |ItemsOf(old(carts), cartId)| ==> ItemsOf(old(carts), cartId)[i].id != itemId) ==>
        c.items == ItemsOf(old(carts), cartId)
    {
      GetCartRecord(cartId);
      var items := carts[cartId].items;
      var remaining := CartLines.RemoveById(items, itemId);
      CartLines.RemoveByIdMembers(items, itemId);
      match CartLines.FindById(items, itemId) {
        case None =>
        case Some(i) =>
          CartLines.RemoveByIdDeletesLine(items, i);
          CartLines.DeleteKeepsDistinct(items, i);
      }
      c := Cart(cartId, remaining, CartLines.LinesTotal(remaining));
      carts := carts[cartId := c];
    }

    /** `clearCart`: the cart has no lines and subtotal 0. */
    method ClearCart(cartId: string) returns (c: Cart)
      modifies this
      requires Valid()
      ensures Valid()
      ensures users == old(users) && userIds == old(userIds) && templates == old(templates)
      ensures templateIds == old(templateIds) && orders == old(orders) && orderIds == old(orderIds)
      ensures c == Cart(cartId, [], 0) && carts == old(carts)[cartId := c]
    {
      GetCartRecord(cartId);
      c := Cart(cartId, [], 0);
      carts := carts[cartId := c];
    }

    // Orders

    /**
     * `createOrderFromCart`: the cart is created first; an empty cart fails
     * with "Cart is empty" and adds no order; otherwise one paid order
     * snapshots the lines and the subtotal, and the cart is emptied.
     */
    method CreateOrderFromCart(cartId: string, orderId: string, now: string) returns (r: Result<Order>)
      modifies this
      requires Valid() && orderId !in orders
      ensures Valid()
      ensures users == old(users) && userIds == old(userIds) && templates == old(templates)
      ensures templateIds == old(templateIds)
      ensures r.Err? <==> ItemsOf(old(carts), cartId) == []
      ensures r.Err? ==> r.error == CartIsEmpty && carts == WithCart(old(carts), cartId)
      ensures r.Err? ==> orders == old(orders) && orderIds == old(orderIds)
      ensures r.Ok? ==>
        r.value == Order(orderId, cartId, ItemsOf(old(carts), cartId),
                         CartLines.LinesTotal(ItemsOf(old(carts), cartId)), Paid, now)
      ensures r.Ok? ==> orders == old(orders)[orderId := r.value] && orderIds == old(orderIds) + [orderId]
      ensures r.Ok? ==> carts == old(carts)[cartId := Cart(cartId, [], 0)]
      ensures r.Ok? ==> Orders.Revenue(OrderList()) == old(Orders.Revenue(OrderList())) + r.value.total
    {
      GetCartRecord(cartId);
      var cart := carts[cartId];
      if cart.items == [] {
        return Err(CartIsEmpty);
      }
      var order := Order(orderId, cartId, cart.items, cart.subtotal, Paid, now);
      OrdersOkInsert(orderIds, orders, order);
      CartsOkUpdate(carts, cartId, Cart(cartId, [], 0));
      orders := orders[orderId := order];
      orderIds := orderIds + [orderId];
      carts := carts[cartId := Cart(cartId, [], 0)];
      r := Ok(order);
    }

    /** `listOrders`: every order, newest first. */
    function ListOrders(): (r: seq<Order>)
      reads this
      requires Valid()
      ensures multiset(r) == multiset(OrderList())
      ensures |r| == |orders|
      ensures forall o :: o in r <==> o in orders.Values
      ensures forall i, j :: 0 <= i < j < |r| ==> StrLe(r[j].createdAt, r[i].createdAt)
    {
      KeyOrderSize(orderIds, orders);
      var r := Orders.SortNewestFirst(OrderList());
      assert |r| == |multiset(r)| == |OrderList()|;
      assert forall o :: o in r <==> o in multiset(OrderList());
      r
    }

    /** `getAdminStats` over the stored templates and orders. */
    function GetAdminStats(): (r: AdminStats)
      reads this
      requires Valid()
      ensures r == Orders.Stats(TemplateList(), OrderList())
      ensures r.totalTemplates == |templates| && r.publishedTemplates <= r.totalTemplates
      ensures r.publishedTemplates == Orders.CountPublished(TemplateList())
      ensures r.totalOrders == |orders|
      ensures r.totalRevenue == Orders.Revenue(OrderList())
      ensures |r.recentOrders| == Orders.Min(Orders.RecentOrderCount, |orders|)
      ensures forall i, j :: 0 <= i < j < |r.recentOrders| ==>
        StrLe(r.recentOrders[j].createdAt, r.recentOrders[i].createdAt)
      ensures forall k :: 0 <= k < |r.recentOrders| ==>
        exists o :: o in orders.Values && r.recentOrders[k] == Orders.Recent(o)
    {
      KeyOrderSize(templateIds, templates);
      KeyOrderSize(orderIds, orders);
      Orders.Stats(TemplateList(), OrderList())
    }
  }
}
