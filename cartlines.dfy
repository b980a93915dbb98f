/**
 * The line-level logic of a cart: the subtotal, the two lookups, the merge
 * of an added template into the lines and the removal of a line.
 */
module CartLines {
  import opened Common
  import opened Schema
  import Catalog

  function LineAmount(item: CartItem): int {
    item.unitPrice * item.quantity
  }

  /** The sum `recalculateCart` stores: unit price times quantity over all lines, in cents. */
  function LinesTotal(items: seq<CartItem>): int {
    if items == [] then 0 else LineAmount(items[0]) + LinesTotal(items[1..])
  }

  lemma {:induction false} LinesTotalConcat(a: seq<CartItem>, b: seq<CartItem>)
    ensures LinesTotal(a + b) == LinesTotal(a) + LinesTotal(b)
  {
    if a != [] {
      assert (a + b)[1..] == a[1..] + b;
      LinesTotalConcat(a[1..], b);
    } else {
      assert a + b == b;
    }
  }

  /** Appending a line adds its amount. */
  lemma LinesTotalAppend(items: seq<CartItem>, x: CartItem)
    ensures LinesTotal(items + [x]) == LinesTotal(items) + LineAmount(x)
  {
    LinesTotalConcat(items, [x]);
  }

  /** Replacing one line changes the total by the difference of the two amounts. */
  lemma LinesTotalUpdate(items: seq<CartItem>, i: nat, x: CartItem)
    requires i < |items|
    ensures LinesTotal(items[i := x]) == LinesTotal(items) - LineAmount(items[i]) + LineAmount(x)
  {
    var pre, post := items[..i], items[i + 1..];
    assert LinesTotal(items) == LinesTotal(pre) + LineAmount(items[i]) + LinesTotal(post) by {
      SplitAt(items, i);
    }
    assert LinesTotal(items[i := x]) == LinesTotal(pre) + LineAmount(x) + LinesTotal(post) by {
      assert items[i := x][..i] == pre && items[i := x][i + 1..] == post;
      SplitAt(items[i := x], i);
    }
  }

  /** Deleting one line subtracts its amount. */
  lemma LinesTotalDelete(items: seq<CartItem>, i: nat)
    requires i < |items|
    ensures LinesTotal(items[..i] + items[i + 1..]) == LinesTotal(items) - LineAmount(items[i])
  {
    var pre, post := items[..i], items[i + 1..];
    assert LinesTotal(items) == LinesTotal(pre) + LineAmount(items[i]) + LinesTotal(post) by {
      SplitAt(items, i);
    }
    LinesTotalConcat(pre, post);
  }

  /** The total of `items` split around line `i`. */
  lemma SplitAt(items: seq<CartItem>, i: nat)
    requires i < |items|
    ensures LinesTotal(items) == LinesTotal(items[..i]) + LineAmount(items[i]) + LinesTotal(items[i + 1..])
  {
    var pre, post := items[..i], items[i + 1..];
    assert items == (pre + [items[i]]) + post;
    LinesTotalConcat(pre + [items[i]], post);
    LinesTotalAppend(pre, items[i]);
  }

  /** No two lines are for the same template. */
  predicate DistinctTemplates(items: seq<CartItem>) {
    forall i, j :: 0 <= i < j < |items| ==> items[i].templateId != items[j].templateId
  }

  /** No two lines share a line id. */
  predicate DistinctIds(items: seq<CartItem>) {
    forall i, j :: 0 <= i < j < |items| ==> items[i].id != items[j].id
  }

  /** Every line has a positive quantity. */
  predicate PositiveQuantities(items: seq<CartItem>) {
    forall i :: 0 <= i < |items| ==> items[i].quantity >= 1
  }

  /** The first line for `templateId`, as `find` returns it. */
  function FindByTemplate(items: seq<CartItem>, templateId: string): (r: Option<nat>)
    ensures r.None? <==> forall i :: 0 <= i < |items| ==> items[i].templateId != templateId
    ensures r.Some? ==> r.value < |items| && items[r.value].templateId == templateId
    ensures r.Some? ==> forall j :: 0 <= j < r.value ==> items[j].templateId != templateId
  {
    if items == [] then None
    else if items[0].templateId == templateId then Some(0)
    else
      match FindByTemplate(items[1..], templateId)
      case None => None
      case Some(i) => Some(i + 1)
  }

  /** The first line with id `itemId`. */
  function FindById(items: seq<CartItem>, itemId: string): (r: Option<nat>)
    ensures r.None? <==> forall i :: 0 <= i < |items| ==> items[i].id != itemId
    ensures r.Some? ==> r.value < |items| && items[r.value].id == itemId
    ensures r.Some? ==> forall j :: 0 <= j < r.value ==> items[j].id != itemId
  {
    if items == [] then None
    else if items[0].id == itemId then Some(0)
    else
      match FindById(items[1..], itemId)
      case None => None
      case Some(i) => Some(i + 1)
  }

  /**
   * The lines after `addCartItem` found `template`: the line for it gets the
   * added quantity and the template's current price and summary; without such
   * a line, a new one is appended.
   */
  function AddLine(items: seq<CartItem>, template: Template, quantity: int, lineId: string, now: string)
    : (r: seq<CartItem>)
    ensures FindByTemplate(items, template.id).None? ==>
      r == items + [CartItem(lineId, template.id, quantity, template.price, now, Catalog.Summary(template))]
    ensures FindByTemplate(items, template.id).Some? ==>
      var i := FindByTemplate(items, template.id).value;
      && |r| == |items|
      && r[i].id == items[i].id && r[i].addedAt == items[i].addedAt && r[i].templateId == template.id
      && r[i].quantity == items[i].quantity + quantity
      && r[i].unitPrice == template.price && r[i].template == Catalog.Summary(template)
      && forall j :: 0 <= j < |items| && j != i ==> r[j] == items[j]
  {
    match FindByTemplate(items, template.id)
    case None =>
      items + [CartItem(lineId, template.id, quantity, template.price, now, Catalog.Summary(template))]
    case Some(i) =>
      items[i := items[i].(
        quantity := items[i].quantity + quantity,
        unitPrice := template.price,
        template := Catalog.Summary(template))]
  }

  /** Adding never gives two lines for one template. */
  lemma AddLineKeepsDistinctTemplates(items: seq<CartItem>, template: Template, quantity: int, lineId: string, now: string)
    requires DistinctTemplates(items)
    ensures DistinctTemplates(AddLine(items, template, quantity, lineId, now))
  {
  }

  /** A new line gets a fresh id, so the line ids stay distinct. */
  lemma AddLineKeepsDistinctIds(items: seq<CartItem>, template: Template, quantity: int, lineId: string, now: string)
    requires DistinctIds(items)
    requires forall i :: 0 <= i < |items| ==> items[i].id != lineId
    ensures DistinctIds(AddLine(items, template, quantity, lineId, now))
  {
  }

  /** Adding a positive quantity keeps every quantity positive. */
  lemma AddLineKeepsPositive(items: seq<CartItem>, template: Template, quantity: int, lineId: string, now: string)
    requires PositiveQuantities(items) && quantity >= 1
    ensures PositiveQuantities(AddLine(items, template, quantity, lineId, now))
  {
  }

  /** Afterwards exactly one line is for the template. */
  lemma AddLineHasOneLine(items: seq<CartItem>, template: Template, quantity: int, lineId: string, now: string)
    requires DistinctTemplates(items)
    ensures FindByTemplate(AddLine(items, template, quantity, lineId, now), template.id).Some?
    ensures DistinctTemplates(AddLine(items, template, quantity, lineId, now))
  {
    var r := AddLine(items, template, quantity, lineId, now);
    match FindByTemplate(items, template.id)
    case None => assert r[|items|].templateId == template.id;
    case Some(i) => assert r[i].templateId == template.id;
  }

  /** The subtotal after an add: the old subtotal, less the old amount of the merged line, plus its new amount. */
  lemma AddLineTotal(items: seq<CartItem>, template: Template, quantity: int, lineId: string, now: string)
    ensures FindByTemplate(items, template.id).None? ==>
      LinesTotal(AddLine(items, template, quantity, lineId, now)) == LinesTotal(items) + template.price * quantity
    ensures FindByTemplate(items, template.id).Some? ==>
      var old_ := items[FindByTemplate(items, template.id).value];
      LinesTotal(AddLine(items, template, quantity, lineId, now))
        == LinesTotal(items) - LineAmount(old_) + template.price * (old_.quantity + quantity)
  {
    match FindByTemplate(items, template.id)
    case None =>
      LinesTotalAppend(items, CartItem(lineId, template.id, quantity, template.price, now, Catalog.Summary(template)));
    case Some(i) =>
      LinesTotalUpdate(items, i, AddLine(items, template, quantity, lineId, now)[i]);
      assert AddLine(items, template, quantity, lineId, now) == items[i := AddLine(items, template, quantity, lineId, now)[i]];
  }

  /** The lines without those whose id is `itemId`, in their original order (`filter`). */
  function RemoveById(items: seq<CartItem>, itemId: string): (r: seq<CartItem>)
    ensures |r| <= |items|
    ensures (forall i :: 0 <= i < |items| ==> items[i].id != itemId) ==> r == items
  {
    if items == [] then []
    else
      var rest := RemoveById(items[1..], itemId);
      assert items == [items[0]] + items[1..];
      if items[0].id == itemId then rest else [items[0]] + rest
  }

  /** The remaining lines are exactly the lines without that id. */
  lemma {:induction false} RemoveByIdMembers(items: seq<CartItem>, itemId: string)
    ensures forall x :: x in RemoveById(items, itemId) <==> x in items && x.id != itemId
  {
    if items != [] {
      RemoveByIdMembers(items[1..], itemId);
      assert items == [items[0]] + items[1..];
    }
  }

  /** Removing the same id twice is removing it once. */
  lemma RemoveByIdIdempotent(items: seq<CartItem>, itemId: string)
    ensures RemoveById(RemoveById(items, itemId), itemId) == RemoveById(items, itemId)
  {
    var r := RemoveById(items, itemId);
    RemoveByIdMembers(items, itemId);
    assert forall i :: 0 <= i < |r| ==> r[i] in r;
  }

  lemma {:induction false} RemoveByIdConcat(a: seq<CartItem>, b: seq<CartItem>, itemId: string)
    ensures RemoveById(a + b, itemId) == RemoveById(a, itemId) + RemoveById(b, itemId)
  {
    if a == [] {
      assert a + b == b;
    } else {
      assert (a + b)[0] == a[0];
      assert (a + b)[1..] == a[1..] + b;
      RemoveByIdConcat(a[1..], b, itemId);
    }
  }

  /** With distinct ids, removing the id of line `i` deletes exactly that line. */
  lemma {:induction false} RemoveByIdDeletesLine(items: seq<CartItem>, i: nat)
    requires DistinctIds(items) && i < |items|
    ensures RemoveById(items, items[i].id) == items[..i] + items[i + 1..]
  {
    var id := items[i].id;
    var tail := items[1..];
    if i == 0 {
      assert RemoveById(tail, id) == tail by {
        DistinctIdsTail(items);
      }
    } else {
      assert RemoveById(tail, id) == tail[..i - 1] + tail[i..] by {
        DistinctIdsTail(items);
        assert tail[i - 1] == items[i];
        RemoveByIdDeletesLine(tail, i - 1);
      }
      assert items[..i] + items[i + 1..] == [items[0]] + (tail[..i - 1] + tail[i..]) by {
        ConsDelete(items, i);
      }
    }
  }

  /** The lines after the first keep distinct ids, and none has the first line's id. */
  lemma DistinctIdsTail(items: seq<CartItem>)
    requires DistinctIds(items) && items != []
    ensures DistinctIds(items[1..])
    ensures forall k :: 0 <= k < |items| - 1 ==> items[1..][k].id != items[0].id
  {
    var tail := items[1..];
    forall a, b | 0 <= a < b < |tail|
      ensures tail[a].id != tail[b].id
    {
      assert tail[a] == items[a + 1] && tail[b] == items[b + 1];
    }
    forall k | 0 <= k < |tail|
      ensures tail[k].id != items[0].id
    {
      assert tail[k] == items[k + 1];
    }
  }

  /** Deleting line `i > 0` keeps the first line in front of the tail with line `i - 1` deleted. */
  lemma ConsDelete(items: seq<CartItem>, i: nat)
    requires 0 < i < |items|
    ensures items[..i] + items[i + 1..] == [items[0]] + (items[1..][..i - 1] + items[1..][i..])
  {
    var tail := items[1..];
    assert items[..i] == [items[0]] + tail[..i - 1];
    assert items[i + 1..] == tail[i..];
  }

  /** Setting one line's quantity keeps the lines pairwise distinct. */
  lemma SetQuantityKeepsDistinct(items: seq<CartItem>, i: nat, quantity: int)
    requires i < |items|
    ensures DistinctIds(items) ==> DistinctIds(items[i := items[i].(quantity := quantity)])
    ensures DistinctTemplates(items) ==> DistinctTemplates(items[i := items[i].(quantity := quantity)])
  {
    var u := items[i := items[i].(quantity := quantity)];
    assert forall a :: 0 <= a < |u| ==> u[a].id == items[a].id && u[a].templateId == items[a].templateId;
  }

  /** Deleting a line keeps the remaining lines pairwise distinct. */
  lemma DeleteKeepsDistinct(items: seq<CartItem>, i: nat)
    requires i < |items|
    ensures DistinctIds(items) ==> DistinctIds(items[..i] + items[i + 1..])
    ensures DistinctTemplates(items) ==> DistinctTemplates(items[..i] + items[i + 1..])
    ensures PositiveQuantities(items) ==> PositiveQuantities(items[..i] + items[i + 1..])
  {
    var d := items[..i] + items[i + 1..];
    forall a | 0 <= a < |d|
      ensures d[a] == items[if a < i then a else a + 1]
    {
    }
    if DistinctIds(items) {
      forall a, b | 0 <= a < b < |d|
        ensures d[a].id != d[b].id
      {
        assert d[b] == items[if b < i then b else b + 1];
      }
    }
    if DistinctTemplates(items) {
      forall a, b | 0 <= a < b < |d|
        ensures d[a].templateId != d[b].templateId
      {
        assert d[b] == items[if b < i then b else b + 1];
      }
    }
  }
}
