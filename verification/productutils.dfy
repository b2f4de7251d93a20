/** The product-list algebra of `src/utils/product.utils.ts`: next position,
    dense renumbering, replacement by id, move-to-end and the shift-based
    reorder. */
module ProductUtils {
  import opened Wrappers
  import opened Seqs
  import opened Products
  import opened Sorting

  /** The largest order value of a non-empty list (`Math.max`; `null` counts as 0). */
  function MaxOrder(s: seq<Product>): (m: int)
    requires |s| > 0
    ensures forall p :: p in s ==> OrderValue(p) <= m
    ensures exists p :: p in s && OrderValue(p) == m
    decreases |s|
  {
    if |s| == 1 then OrderValue(s[0])
    else
      var rest := MaxOrder(s[1..]);
      assert forall p :: p in s[1..] ==> p in s;
      assert forall p :: p in s ==> p == s[0] || p in s[1..];
      if OrderValue(s[0]) >= rest then OrderValue(s[0]) else rest
  }

  /** The 1-based "visual" position offered for a new product: one past the
      hundreds of the largest stored order, or 1 for an empty list. Every
      stored order lies below `100 * r` and some stored order reaches
      `100 * (r - 1)`. */
  function NextOrderSellout(s: seq<Product>): (r: int)
    ensures |s| == 0 ==> r == 1
    ensures forall p :: p in s ==> OrderValue(p) < 100 * r
    ensures |s| > 0 ==> exists p :: p in s && 100 * (r - 1) <= OrderValue(p)
    ensures (forall p :: p in s ==> OrderValue(p) >= 0) ==> r >= 1
  {
    if |s| == 0 then 1
    else MaxOrder(s) / 100 + 1
  }

  /** Every product gets its 1-based position as order, nothing else changes. */
  function Renumber(t: seq<Product>): (r: seq<Product>)
    ensures |r| == |t|
    ensures forall i :: 0 <= i < |t| ==> r[i] == t[i].(orderSellout := Some(i + 1))
  {
    seq(|t|, i requires 0 <= i < |t| => t[i].(orderSellout := Some(i + 1)))
  }

  /** `reorderOrderSellout`: sort ascending by order (stably) and renumber 1..n. */
  function Reorder(s: seq<Product>): (r: seq<Product>)
    ensures |r| == |s|
    ensures forall i :: 0 <= i < |r| ==> r[i].orderSellout == Some(i + 1)
  {
    Renumber(SortByOrder(s))
  }

  /** Orders form a permutation of 1..n: each is present, within 1..n, and no
      two products share one (by counting, this is exactly a permutation). */
  predicate DenseOrders(s: seq<Product>) {
    && (forall i :: 0 <= i < |s| ==> s[i].orderSellout.Some? && 1 <= s[i].orderSellout.value <= |s|)
    && (forall i, j :: 0 <= i < j < |s| ==> s[i].orderSellout != s[j].orderSellout)
  }

  /** What `reorderOrderSellout` computes: the k-th output is the k-th product
      of the stable ascending sort of the input, renumbered to k. */
  lemma ReorderSortsStably(s: seq<Product>)
    ensures var t := SortByOrder(s);
      && SortedByOrder(t)
      && multiset(t) == multiset(s)
      && (forall k :: Filter(t, HasOrder(k)) == Filter(s, HasOrder(k)))
      && (forall i :: 0 <= i < |s| ==> Reorder(s)[i] == t[i].(orderSellout := Some(i + 1)))
  {
    var t := SortByOrder(s);
    SortSorted(s);
    forall k ensures Filter(t, HasOrder(k)) == Filter(s, HasOrder(k)) {
      SortStable(s, k);
    }
  }

  /** `reorderOrderSellout` keeps the multiset of ids, its orders are a
      permutation of 1..n, and each output is an input product renumbered. */
  lemma ReorderPermutes(s: seq<Product>)
    ensures multiset(Ids(Reorder(s))) == multiset(Ids(s))
    ensures DenseOrders(Reorder(s))
    ensures forall i :: 0 <= i < |s| ==> exists p :: p in s && Reorder(s)[i] == p.(orderSellout := Some(i + 1))
  {
    var t := SortByOrder(s);
    var r := Reorder(s);
    SortIds(s);
    assert Ids(r) == Ids(t);
    forall i | 0 <= i < |s|
      ensures exists p :: p in s && r[i] == p.(orderSellout := Some(i + 1))
    {
      assert t[i] in multiset(s);
    }
  }

  /** Renumbering keeps the hidden flag, so the reorder of a visible list is visible. */
  lemma ReorderVisible(s: seq<Product>)
    ensures forall p :: p in Reorder(Visible(s)) ==> !p.isProductHidden
  {
    ReorderPermutes(Visible(s));
  }

  /** `updateAllProducts`: every product whose id matches is replaced by `p`. */
  function UpdateAll(s: seq<Product>, id: string, p: Product): (r: seq<Product>)
    ensures |r| == |s|
    ensures forall i :: 0 <= i < |s| ==> r[i] == if s[i].id == id then p else s[i]
  {
    seq(|s|, i requires 0 <= i < |s| => if s[i].id == id then p else s[i])
  }

  /** Replacing by an id no product carries changes nothing; replacing twice is
      replacing once. */
  lemma UpdateAllLaws(s: seq<Product>, id: string, p: Product)
    ensures id !in Ids(s) ==> UpdateAll(s, id, p) == s
    ensures UpdateAll(UpdateAll(s, id, p), id, p) == UpdateAll(s, id, p)
  {
  }

  /** The test "does not carry this id". */
  function NotId(id: string): Product -> bool {
    (p: Product) => p.id != id
  }

  /** The list without any product carrying `id`, order kept. */
  function RemoveId(s: seq<Product>, id: string): (r: seq<Product>)
    ensures forall p :: p in r <==> p in s && p.id != id
    ensures id !in Ids(r)
  {
    Filter(s, NotId(id))
  }

  /** Removing by id drops exactly the products with that id, keeps the order
      of the others, and a second removal changes nothing. */
  lemma {:induction false} RemoveIdLaws(s: seq<Product>, id: string)
    ensures |RemoveId(s, id)| == |s| - Count(Ids(s), id)
    ensures RemoveId(RemoveId(s, id), id) == RemoveId(s, id)
    ensures id !in Ids(s) ==> RemoveId(s, id) == s
    decreases |s|
  {
    FilterIdempotent(s, NotId(id));
    if id !in Ids(s) {
      FilterAll(s, NotId(id));
    }
    if |s| > 0 {
      RemoveIdLaws(s[1..], id);
      assert Ids(s[1..]) == Ids(s)[1..];
    }
  }

  /** `moveProductToEnd`: drop every product carrying `id`, then append `p`. */
  function MoveToEnd(s: seq<Product>, id: string, p: Product): (r: seq<Product>)
    ensures |r| >= 1 && r[|r| - 1] == p
    ensures r[..|r| - 1] == RemoveId(s, id)
    ensures forall i :: 0 <= i < |r| - 1 ==> r[i].id != id
  {
    RemoveId(s, id) + [p]
  }

  /** The test "carries the given id". */
  function HasId(id: string): Product -> bool {
    (p: Product) => p.id == id
  }

  /** The first product carrying `id` (`Array.prototype.find`). */
  function FindById(s: seq<Product>, id: string): (r: Option<Product>)
    ensures r.None? <==> id !in Ids(s)
    ensures r.Some? ==> exists i :: 0 <= i < |s| && s[i] == r.value && r.value.id == id
                          && forall j :: 0 <= j < i ==> s[j].id != id
  {
    var k := FirstWhere(s, HasId(id));
    if k < |s| then Some(s[k]) else None
  }

  /** `updateVisibleOrderInAllProducts`: each product whose id occurs in
      `ordered` is replaced by the first such entry of `ordered`. */
  function UpdateVisibleOrderInAll(all: seq<Product>, ordered: seq<Product>): (r: seq<Product>)
    ensures |r| == |all|
    ensures forall i :: 0 <= i < |all| && all[i].id !in Ids(ordered) ==> r[i] == all[i]
    ensures forall i :: 0 <= i < |all| && all[i].id in Ids(ordered) ==>
              r[i] in ordered && r[i].id == all[i].id
              && exists k :: 0 <= k < |ordered| && ordered[k] == r[i]
                   && forall j :: 0 <= j < k ==> ordered[j].id != all[i].id
  {
    seq(|all|, i requires 0 <= i < |all| =>
      if all[i].id in Ids(ordered) then FindById(ordered, all[i].id).GetOr(all[i]) else all[i])
  }

  /** One product under `adjustOrderSellout`. */
  function AdjustOne(p: Product, targetId: string, oldOrder: int, newOrder: int): Product {
    var movingUp := newOrder < oldOrder;
    if p.id == targetId then p.(orderSellout := Some(newOrder))
    else if movingUp && OrderValue(p) >= newOrder && OrderValue(p) < oldOrder then
      p.(orderSellout := Some(OrderValue(p) + 1))
    else if !movingUp && OrderValue(p) > oldOrder && OrderValue(p) <= newOrder then
      p.(orderSellout := Some(OrderValue(p) - 1))
    else p
  }

  /** `adjustOrderSellout`: the target takes `newOrder`; moving up, the others in
      [newOrder, oldOrder) shift down one place (+1); moving down, those in
      (oldOrder, newOrder] shift up one place (-1); everything else is kept. */
  function AdjustOrder(s: seq<Product>, targetId: string, oldOrder: int, newOrder: int): (r: seq<Product>)
    ensures |r| == |s|
    ensures forall i :: 0 <= i < |s| && s[i].id == targetId ==> r[i] == s[i].(orderSellout := Some(newOrder))
    ensures forall i :: 0 <= i < |s| && s[i].id != targetId ==>
      var v := OrderValue(s[i]);
      && (newOrder < oldOrder && newOrder <= v < oldOrder ==> r[i] == s[i].(orderSellout := Some(v + 1)))
      && (newOrder > oldOrder && oldOrder < v <= newOrder ==> r[i] == s[i].(orderSellout := Some(v - 1)))
      && (!(newOrder < oldOrder && newOrder <= v < oldOrder) && !(newOrder > oldOrder && oldOrder < v <= newOrder)
          ==> r[i] == s[i])
  {
    seq(|s|, i requires 0 <= i < |s| => AdjustOne(s[i], targetId, oldOrder, newOrder))
  }

  /** Moving the only product with `targetId` from position `oldOrder` to any
      position 1..n of a dense list leaves the orders a permutation of 1..n. */
  lemma AdjustKeepsDense(s: seq<Product>, t: nat, targetId: string, oldOrder: int, newOrder: int)
    requires DenseOrders(s)
    requires t < |s| && s[t].id == targetId && s[t].orderSellout == Some(oldOrder)
    requires forall j :: 0 <= j < |s| && j != t ==> s[j].id != targetId
    requires 1 <= newOrder <= |s|
    ensures DenseOrders(AdjustOrder(s, targetId, oldOrder, newOrder))
  {
    var r := AdjustOrder(s, targetId, oldOrder, newOrder);
    forall i, j | 0 <= i < j < |s|
      ensures r[i].orderSellout != r[j].orderSellout
    {
      assert s[i].orderSellout != s[j].orderSellout;
      if i != t && j != t {
        assert s[i].orderSellout != Some(oldOrder) && s[j].orderSellout != Some(oldOrder);
      } else if i == t {
        assert s[j].orderSellout != Some(oldOrder);
      } else {
        assert s[i].orderSellout != Some(oldOrder);
      }
    }
  }

  /** Moving a product to the order it already holds changes nothing. */
  lemma AdjustToSameOrder(s: seq<Product>, targetId: string, order: int)
    requires forall i :: 0 <= i < |s| && s[i].id == targetId ==> s[i].orderSellout == Some(order)
    ensures AdjustOrder(s, targetId, order, order) == s
  {
  }
}
