/** The catalogue entry and the visible/hidden projection of a product list. */
module Products {
  import opened Wrappers
  import opened Seqs

  /** A row of the product table. `id` is the store-assigned key; the empty
      string stands for the missing (falsy) id the handlers reject.
      `orderSellout` is `None` for the `null` a hidden row carries. */
  datatype Product = Product(
    id: string,
    orderSellout: Option<int>,
    category: seq<string>,
    title: string,
    urlProduct: string,
    urlImage: string,
    startDate: string,
    endDate: string,
    offerState: Option<string>,
    isProductHidden: bool)

  /** The two dashboard views: the visible listing and the hidden products. */
  datatype View = Listado | Ocultos

  /** The number JavaScript arithmetic and comparison see for `orderSellout`:
      `null` behaves as 0. */
  function OrderValue(p: Product): int {
    p.orderSellout.GetOr(0)
  }

  predicate IsVisible(p: Product) {
    !p.isProductHidden
  }

  predicate IsHidden(p: Product) {
    p.isProductHidden
  }

  /** The products not marked hidden, in list order. */
  function Visible(s: seq<Product>): (r: seq<Product>)
    ensures forall p :: p in r <==> p in s && !p.isProductHidden
  {
    Filter(s, IsVisible)
  }

  /** The products marked hidden, in list order. */
  function Hidden(s: seq<Product>): (r: seq<Product>)
    ensures forall p :: p in r <==> p in s && p.isProductHidden
  {
    Filter(s, IsHidden)
  }

  /** The displayed list of a view: visible products for the listing,
      hidden ones otherwise. */
  function Project(s: seq<Product>, view: View): (r: seq<Product>)
    ensures view == Listado ==> r == Visible(s)
    ensures view == Ocultos ==> r == Hidden(s)
  {
    if view == Listado then Visible(s) else Hidden(s)
  }

  /** The ids of a list, position by position. */
  function Ids(s: seq<Product>): (r: seq<string>)
    ensures |r| == |s|
    ensures forall i :: 0 <= i < |s| ==> r[i] == s[i].id
  {
    seq(|s|, i requires 0 <= i < |s| => s[i].id)
  }

  /** The visible and hidden projections split a list: every product goes to
      exactly one side, the lengths and the multisets add up, and each side is
      computed element by element so concatenation is respected (order kept). */
  lemma {:induction false} PartitionVisibleHidden(s: seq<Product>)
    ensures |Visible(s)| + |Hidden(s)| == |s|
    ensures multiset(Visible(s)) + multiset(Hidden(s)) == multiset(s)
    ensures forall p :: p in s ==> (p in Visible(s) <==> p !in Hidden(s))
    decreases |s|
  {
    if |s| > 0 {
      PartitionVisibleHidden(s[1..]);
      assert s == [s[0]] + s[1..];
    }
  }

  /** Both projections keep relative order: they distribute over concatenation. */
  lemma ProjectionsKeepOrder(a: seq<Product>, b: seq<Product>)
    ensures Visible(a + b) == Visible(a) + Visible(b)
    ensures Hidden(a + b) == Hidden(a) + Hidden(b)
  {
    FilterConcat(a, b, IsVisible);
    FilterConcat(a, b, IsHidden);
  }
}
