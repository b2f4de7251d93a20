/** The product table's columns: the position cell and the row filters of
    the category and offer-state columns. */
module Columns {
  import opened Wrappers
  import opened Products
  import opened ProductUtils

  /** The position cell shows the row's 1-based place in the table data, not
      the stored order. */
  function OrderCell(rowIndex: nat): (n: int)
    ensures n >= 1
  {
    rowIndex + 1
  }

  /** On a renumbered listing the position cell agrees with the stored order. */
  lemma OrderCellOnRenumbered(s: seq<Product>, i: nat)
    requires i < |s|
    ensures Reorder(s)[i].orderSellout == Some(OrderCell(i))
  {
  }

  /** `categories.some(cat => filterValue.includes(cat))`, element by element. */
  function CategoryFilter(categories: seq<string>, filterValue: seq<string>): (accepted: bool)
    ensures accepted <==> exists i :: 0 <= i < |categories| && categories[i] in filterValue
    decreases |categories|
  {
    |categories| > 0 && (categories[0] in filterValue || CategoryFilter(categories[1..], filterValue))
  }

  /** The category filter accepts a row exactly when one of its categories is
      among the filter values. */
  lemma {:induction false} CategoryFilterSpec(categories: seq<string>, filterValue: seq<string>)
    ensures CategoryFilter(categories, filterValue) <==> exists c :: c in categories && c in filterValue
    decreases |categories|
  {
    if |categories| > 0 {
      CategoryFilterSpec(categories[1..], filterValue);
      if CategoryFilter(categories, filterValue) && categories[0] !in filterValue {
        var c :| c in categories[1..] && c in filterValue;
        assert c in categories;
      }
      if exists c :: c in categories && c in filterValue {
        var c :| c in categories && c in filterValue;
        if c != categories[0] {
          assert c in categories[1..];
        }
      }
    }
  }

  /** An empty filter list or a row without categories is rejected, and
      adding filter values never rejects a row that was accepted. */
  lemma CategoryFilterMonotone(categories: seq<string>, small: seq<string>, large: seq<string>)
    requires forall v :: v in small ==> v in large
    ensures !CategoryFilter(categories, [])
    ensures !CategoryFilter([], small)
    ensures CategoryFilter(categories, small) ==> CategoryFilter(categories, large)
  {
    CategoryFilterSpec(categories, small);
    CategoryFilterSpec(categories, large);
    CategoryFilterSpec(categories, []);
  }

  /** `filterValue.includes(offerState)`: a row with no offer state is never
      accepted, since the filter holds strings only. */
  function OfferStateFilter(offerState: Option<string>, filterValue: seq<string>): (accepted: bool)
    ensures accepted <==> exists i :: 0 <= i < |filterValue| && offerState == Some(filterValue[i])
    ensures offerState.None? ==> !accepted
  {
    offerState.Some? && offerState.value in filterValue
  }
}
