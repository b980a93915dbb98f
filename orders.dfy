/**
 * The read-only order views: newest-first listing, paid revenue and the
 * admin statistics.
 */
module Orders {
  import opened Schema
  import opened Text
  import Sorting

  /** The revenue counted by the statistics: the totals of the paid orders, in cents. */
  function Revenue(os: seq<Order>): int {
    if os == [] then 0
    else (if os[0].status == Paid then os[0].total else 0) + Revenue(os[1..])
  }

  lemma {:induction false} RevenueConcat(a: seq<Order>, b: seq<Order>)
    ensures Revenue(a + b) == Revenue(a) + Revenue(b)
  {
    if a == [] {
      assert a + b == b;
    } else {
      assert (a + b)[0] == a[0];
      assert (a + b)[1..] == a[1..] + b;
      RevenueConcat(a[1..], b);
    }
  }

  /** A new paid order raises the revenue by its total. */
  lemma RevenueAppendPaid(os: seq<Order>, o: Order)
    requires o.status == Paid
    ensures Revenue(os + [o]) == Revenue(os) + o.total
  {
    RevenueConcat(os, [o]);
  }

  /** An order that is not paid adds nothing to the revenue. */
  lemma RevenueIgnoresUnpaid(os: seq<Order>, o: Order)
    requires o.status != Paid
    ensures Revenue(os + [o]) == Revenue(os)
  {
    RevenueConcat(os, [o]);
  }

  /** Revenue does not depend on the order of the orders. */
  lemma {:induction false} RevenuePermutation(a: seq<Order>, b: seq<Order>)
    requires multiset(a) == multiset(b)
    ensures Revenue(a) == Revenue(b)
    decreases |a|
  {
    if a != [] {
      var x, tail := a[0], a[1..];
      var k := Sorting.PermutationRemove(a, b);
      var pre, post := b[..k], b[k + 1..];
      RevenuePermutation(tail, pre + post);
      assert Revenue(b) == Revenue(pre) + Revenue([x]) + Revenue(post) by {
        assert b == pre + [x] + post;
        RevenueConcat(pre + [x], post);
        RevenueConcat(pre, [x]);
      }
      assert Revenue(pre + post) == Revenue(pre) + Revenue(post) by {
        RevenueConcat(pre, post);
      }
      assert Revenue(a) == Revenue([x]) + Revenue(tail) by {
        assert a == [x] + tail;
        RevenueConcat([x], tail);
      }
    }
  }

  /** `a` may be listed before `b`: it is not older (`b.createdAt.localeCompare(a.createdAt)`). */
  predicate NewerFirst(a: Order, b: Order) {
    StrLe(b.createdAt, a.createdAt)
  }

  lemma NewerFirstIsTotalPreorder()
    ensures Sorting.IsTotalPreorder((a: Order, b: Order) => NewerFirst(a, b))
  {
    forall a: Order, b: Order
      ensures NewerFirst(a, b) || NewerFirst(b, a)
    {
      StrLeTotal(a.createdAt, b.createdAt);
    }
    forall a: Order, b: Order, c: Order | NewerFirst(a, b) && NewerFirst(b, c)
      ensures NewerFirst(a, c)
    {
      StrLeTransitive(c.createdAt, b.createdAt, a.createdAt);
    }
  }

  /** `listOrders`: all orders, newest first. */
  function SortNewestFirst(os: seq<Order>): (r: seq<Order>)
    ensures multiset(r) == multiset(os)
    ensures forall i, j :: 0 <= i < j < |r| ==> NewerFirst(r[i], r[j])
  {
    NewerFirstIsTotalPreorder();
    Sorting.SortBy((a: Order, b: Order) => NewerFirst(a, b), os)
  }

  function Recent(o: Order): RecentOrder {
    RecentOrder(o.id, o.total, o.status, o.createdAt)
  }

  const RecentOrderCount: nat := 5

  function Min(a: nat, b: nat): nat {
    if a <= b then a else b
  }

  /** The projections of the first `n` orders of `os`. */
  function Project(os: seq<Order>, n: nat): (r: seq<RecentOrder>)
    requires n <= |os|
    ensures |r| == n
    ensures forall k :: 0 <= k < n ==> r[k] == Recent(os[k])
  {
    if n == 0 then [] else Project(os, n - 1) + [Recent(os[n - 1])]
  }

  /** The number of published templates. */
  function CountPublished(ts: seq<Template>): (n: nat)
    ensures n <= |ts|
    ensures n == |ts| <==> forall i :: 0 <= i < |ts| ==> ts[i].status == Published
    ensures n == 0 <==> forall i :: 0 <= i < |ts| ==> ts[i].status != Published
  {
    if ts == [] then 0
    else
      assert forall i :: 1 <= i < |ts| ==> ts[i] == ts[1..][i - 1];
      (if ts[0].status == Published then 1 else 0) + CountPublished(ts[1..])
  }

  /** The indices of the published templates of `ts`. */
  ghost function PublishedIndices(ts: seq<Template>): set<int> {
    set i | 0 <= i < |ts| && ts[i].status == Published
  }

  lemma {:induction false} CountPublishedAppend(ts: seq<Template>, t: Template)
    ensures CountPublished(ts + [t]) == CountPublished(ts) + if t.status == Published then 1 else 0
  {
    if ts != [] {
      assert (ts + [t])[0] == ts[0];
      assert (ts + [t])[1..] == ts[1..] + [t];
      CountPublishedAppend(ts[1..], t);
    } else {
      assert ts + [t] == [t];
      assert [t][1..] == [];
    }
  }

  lemma PublishedIndicesAppend(ts: seq<Template>, t: Template)
    ensures PublishedIndices(ts + [t])
      == PublishedIndices(ts) + if t.status == Published then {|ts|} else {}
  {
    var s := ts + [t];
    assert forall i :: 0 <= i < |ts| ==> s[i] == ts[i];
    assert s[|ts|] == t;
  }

  /** `CountPublished` is the number of templates whose status is published. */
  lemma {:induction false} CountPublishedCounts(ts: seq<Template>)
    ensures CountPublished(ts) == |PublishedIndices(ts)|
  {
    if ts == [] {
      assert PublishedIndices(ts) == {};
    } else {
      var init, last := ts[..|ts| - 1], ts[|ts| - 1];
      assert ts == init + [last];
      CountPublishedCounts(init);
      CountPublishedAppend(init, last);
      PublishedIndicesAppend(init, last);
      assert |init| !in PublishedIndices(init);
    }
  }

  /** The five newest orders, newest first, as their projections. */
  function RecentOrders(os: seq<Order>): (r: seq<RecentOrder>)
    ensures |r| == Min(RecentOrderCount, |os|)
    ensures forall i, j :: 0 <= i < j < |r| ==> StrLe(r[j].createdAt, r[i].createdAt)
    ensures forall k :: 0 <= k < |r| ==> exists o :: o in os && r[k] == Recent(o)
  {
    var sorted := SortNewestFirst(os);
    var n := Min(RecentOrderCount, |os|);
    ProjectNewestFirst(os, sorted, n);
    Project(sorted, n)
  }

  /**
   * The recent orders are the first five of a newest-first reordering of
   * `os`, so no order is shown twice unless it is stored twice.
   */
  lemma RecentOrdersArePrefix(os: seq<Order>)
    ensures exists s: seq<Order> ::
      && multiset(s) == multiset(os)
      && (forall i, j :: 0 <= i < j < |s| ==> NewerFirst(s[i], s[j]))
      && |RecentOrders(os)| <= |s| && RecentOrders(os) == Project(s, |RecentOrders(os)|)
  {
    var sorted := SortNewestFirst(os);
    assert RecentOrders(os) == Project(sorted, Min(RecentOrderCount, |os|));
  }

  /** The projections of a prefix of the sorted orders are newest first and each of an order of `os`. */
  lemma ProjectNewestFirst(os: seq<Order>, sorted: seq<Order>, n: nat)
    requires n <= |sorted| && multiset(sorted) == multiset(os)
    requires forall i, j :: 0 <= i < j < |sorted| ==> NewerFirst(sorted[i], sorted[j])
    ensures forall i, j :: 0 <= i < j < n ==> StrLe(Project(sorted, n)[j].createdAt, Project(sorted, n)[i].createdAt)
    ensures forall k :: 0 <= k < n ==> exists o :: o in os && Project(sorted, n)[k] == Recent(o)
  {
    var r := Project(sorted, n);
    forall i, j | 0 <= i < j < n
      ensures StrLe(r[j].createdAt, r[i].createdAt)
    {
      assert r[i] == Recent(sorted[i]) && r[j] == Recent(sorted[j]);
      assert NewerFirst(sorted[i], sorted[j]);
    }
    forall k | 0 <= k < n
      ensures exists o :: o in os && r[k] == Recent(o)
    {
      assert sorted[k] in multiset(os);
      assert r[k] == Recent(sorted[k]);
    }
  }

  /**
   * `getAdminStats` over the store's templates and orders: the counts, the
   * paid revenue, and the five newest orders, newest first.
   */
  function Stats(ts: seq<Template>, os: seq<Order>): (r: AdminStats)
    ensures r.totalTemplates == |ts| && r.publishedTemplates <= r.totalTemplates
    ensures r.publishedTemplates == CountPublished(ts)
    ensures r.totalOrders == |os|
    ensures r.totalRevenue == Revenue(os)
    ensures r.recentOrders == RecentOrders(os)
  {
    var sorted := SortNewestFirst(os);
    RevenuePermutation(sorted, os);
    AdminStats(|ts|, CountPublished(ts), |os|, Revenue(sorted), RecentOrders(os))
  }

  /** No order missing from a prefix of the newest-first orders is newer than one in it. */
  lemma ProjectShowsNewest(sorted: seq<Order>, n: nat, o: Order, k: nat)
    requires n <= |sorted| && k < n
    requires forall i, j :: 0 <= i < j < |sorted| ==> NewerFirst(sorted[i], sorted[j])
    requires o in sorted && Recent(o) !in Project(sorted, n)
    ensures StrLe(o.createdAt, Project(sorted, n)[k].createdAt)
  {
    var j :| 0 <= j < |sorted| && sorted[j] == o;
    if j < n {
      assert false;
    }
    assert NewerFirst(sorted[k], sorted[j]);
  }

  /** No order left out of the recent orders is newer than any order shown. */
  lemma StatsShowNewest(ts: seq<Template>, os: seq<Order>, o: Order, k: nat)
    requires o in os && Recent(o) !in Stats(ts, os).recentOrders
    requires k < |Stats(ts, os).recentOrders|
    ensures StrLe(o.createdAt, Stats(ts, os).recentOrders[k].createdAt)
  {
    var sorted := SortNewestFirst(os);
    var n := Min(RecentOrderCount, |os|);
    assert Stats(ts, os).recentOrders == Project(sorted, n);
    assert o in multiset(sorted);
    ProjectShowsNewest(sorted, n, o, k);
  }
}
