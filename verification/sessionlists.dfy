/** The list computations that `useProductsProvider` and `useProductActions`
    share: the add payload, and the canonical/displayed lists after a delete,
    a hide and an unhide. */
module SessionLists {
  import opened Wrappers
  import opened Seqs
  import opened Products
  import opened ProductUtils
  import opened Backend

  /** The row sent by an add: the form with order `maxOrder + 1`. */
  function AppendPayload(form: Product, maxOrder: int): (p: Product)
    ensures p.orderSellout == Some(maxOrder + 1)
    ensures p.(orderSellout := form.orderSellout) == form
  {
    form.(orderSellout := Some(maxOrder + 1))
  }

  /** Given the backend maximum, the add payload lands strictly after every
      visible product. */
  lemma AppendPayloadAfterVisible(rows: seq<Product>, form: Product)
    ensures forall q :: q in rows && !q.isProductHidden ==>
              OrderValue(q) < OrderValue(AppendPayload(form, MaxVisibleOrder(rows)))
  {
  }

  /** The canonical list with its visible part renumbered, and that renumbered
      visible part (the displayed listing). */
  datatype Renumbered = Renumbered(merged: seq<Product>, ordered: seq<Product>)

  /** Renumber the visible products 1..n in order of their stored order, and
      write the new numbers back into the canonical list by id. */
  function RenumberVisible(list: seq<Product>): (r: Renumbered)
    ensures r.ordered == Reorder(Visible(list))
    ensures r.merged == UpdateVisibleOrderInAll(list, r.ordered)
    ensures DenseOrders(r.ordered) && |r.ordered| == |Visible(list)|
    ensures forall p :: p in r.ordered ==> !p.isProductHidden
    ensures |r.merged| == |list|
  {
    ReorderPermutes(Visible(list));
    ReorderVisible(list);
    var ordered := Reorder(Visible(list));
    Renumbered(UpdateVisibleOrderInAll(list, ordered), ordered)
  }

  /** An id of a product on the list is among the list's ids. */
  lemma IdOfMember(s: seq<Product>, p: Product)
    requires p in s
    ensures p.id in Ids(s)
  {
    var k :| 0 <= k < |s| && s[k] == p;
    assert Ids(s)[k] == p.id;
  }

  /** After renumbering: the listing is visible-only, numbered 1..n and holds
      exactly the visible ids; the canonical list keeps its length and
      positions, each visible product is replaced by its renumbered copy, and
      a hidden product sharing no id with a visible one is untouched. */
  lemma RenumberVisibleSpec(list: seq<Product>)
    ensures var r := RenumberVisible(list);
      && DenseOrders(r.ordered)
      && (forall p :: p in r.ordered ==> !p.isProductHidden)
      && multiset(Ids(r.ordered)) == multiset(Ids(Visible(list)))
      && |r.merged| == |list|
      && (forall i :: 0 <= i < |list| && !list[i].isProductHidden ==>
            r.merged[i] in r.ordered && r.merged[i].id == list[i].id)
      && (forall i :: 0 <= i < |list| && list[i].id !in Ids(Visible(list)) ==> r.merged[i] == list[i])
  {
    var r := RenumberVisible(list);
    ReorderPermutes(Visible(list));
    ReorderVisible(list);
    forall i | 0 <= i < |list| && !list[i].isProductHidden
      ensures r.merged[i] in r.ordered && r.merged[i].id == list[i].id
    {
      IdOfMember(Visible(list), list[i]);
      assert list[i].id in multiset(Ids(r.ordered));
    }
    forall i | 0 <= i < |list| && list[i].id !in Ids(Visible(list))
      ensures r.merged[i] == list[i]
    {
      assert list[i].id !in multiset(Ids(Visible(list)));
      assert list[i].id !in Ids(r.ordered);
    }
  }

  /** Delete in the listing: the deleted id is gone from both lists, the
      listing is the visible rest numbered 1..n, and every visible survivor
      is in the canonical list as its renumbered copy. */
  lemma DeleteInListing(all: seq<Product>, id: string)
    ensures var rest := RemoveId(all, id);
      var r := RenumberVisible(rest);
      && id !in Ids(r.merged)
      && |r.merged| == |rest|
      && DenseOrders(r.ordered)
      && (forall p :: p in r.ordered ==> !p.isProductHidden && p.id != id)
      && multiset(Ids(r.ordered)) == multiset(Ids(Visible(rest)))
      && (forall i :: 0 <= i < |rest| && !rest[i].isProductHidden ==> r.merged[i] in r.ordered)
  {
    var rest := RemoveId(all, id);
    var r := RenumberVisible(rest);
    RenumberVisibleSpec(rest);
    forall p | p in r.ordered ensures p.id != id {
      IdOfMember(r.ordered, p);
      assert p.id in multiset(Ids(Visible(rest)));
      assert p.id in Ids(Visible(rest));
    }
    forall k | 0 <= k < |r.merged| ensures Ids(r.merged)[k] != id {
      assert rest[k] in rest;
    }
  }

  /** Hide with a backend row for `id` marked hidden: every entry that carried
      `id` becomes that row in the canonical list, no listing entry carries
      `id`, and the listing is numbered 1..n. */
  lemma HideSpec(all: seq<Product>, id: string, row: Product)
    requires row.id == id && row.isProductHidden
    ensures var updated := UpdateAll(all, id, row);
      var r := RenumberVisible(updated);
      && |r.merged| == |all|
      && (forall i :: 0 <= i < |all| && all[i].id == id ==> r.merged[i] == row)
      && (forall p :: p in r.ordered ==> p.id != id && !p.isProductHidden)
      && DenseOrders(r.ordered)
      && (forall i :: 0 <= i < |all| && all[i].id != id && !all[i].isProductHidden ==>
            r.merged[i] in r.ordered && r.merged[i].id == all[i].id)
  {
    var updated := UpdateAll(all, id, row);
    var r := RenumberVisible(updated);
    RenumberVisibleSpec(updated);
    assert id !in Ids(Visible(updated));
    forall p | p in r.ordered ensures p.id != id {
      IdOfMember(r.ordered, p);
      assert p.id in multiset(Ids(Visible(updated)));
    }
  }

  /** Unhide with a visible backend row for `id`: the row ends the canonical
      list, and the listing is the visible rest followed by the row. */
  lemma UnhideSpec(all: seq<Product>, id: string, row: Product)
    requires !row.isProductHidden
    ensures var moved := MoveToEnd(all, id, row);
      && moved[|moved| - 1] == row
      && Visible(moved) == Visible(RemoveId(all, id)) + [row]
  {
    ProjectionsKeepOrder(RemoveId(all, id), [row]);
  }

  /** The canonical list and the displayed list of a session. */
  datatype Lists = Lists(all: seq<Product>, products: seq<Product>)

  /** `handleDeleteProduct`, identical in both session hooks. A missing id is
      refused. After the row is deleted, the canonical list loses every entry
      with the id; in the listing its visible part is renumbered, merged back
      and upserted, and only a successful upsert updates the displayed list
      (the canonical list is already written by then); in the hidden view the
      displayed list becomes the hidden rest, without renumbering. */
  function DeleteProduct(l: Lists, view: View, id: string, deleted: Outcome, upserted: Outcome): (r: Step<Lists>)
    ensures id == "" ==> r == Step(l, [Failure("ID inválido")], [])
    ensures id != "" ==> |r.requests| >= 1 && r.requests[0] == DeleteRow(id)
    ensures id != "" && deleted.Failed? ==>
      r == Step(l, [Failure("Error al eliminar el producto")], [DeleteRow(id)])
    ensures id != "" && deleted.Done? && view == Ocultos ==>
      r == Step(Lists(RemoveId(l.all, id), Hidden(RemoveId(l.all, id))),
                [Success("Producto eliminado correctamente")], [DeleteRow(id)])
    ensures id != "" && deleted.Done? && view == Listado ==>
      var rn := RenumberVisible(RemoveId(l.all, id));
      && r.requests == [DeleteRow(id), UpsertRows(rn.ordered)]
      && r.state.all == rn.merged
      && (upserted.Done? ==> r.state.products == rn.ordered
                             && r.notices == [Success("Producto eliminado correctamente")])
      && (upserted.Failed? ==> r.state.products == l.products
                               && r.notices == [Failure("Error al eliminar el producto")])
  {
    if id == "" then Step(l, [Failure("ID inválido")], [])
    else if deleted.Failed? then Step(l, [Failure("Error al eliminar el producto")], [DeleteRow(id)])
    else
      var rest := RemoveId(l.all, id);
      match view
      case Ocultos =>
        Step(Lists(rest, Hidden(rest)), [Success("Producto eliminado correctamente")], [DeleteRow(id)])
      case Listado =>
        var rn := RenumberVisible(rest);
        var reqs := [DeleteRow(id), UpsertRows(rn.ordered)];
        if upserted.Done? then
          Step(Lists(rn.merged, rn.ordered), [Success("Producto eliminado correctamente")], reqs)
        else
          Step(Lists(rn.merged, l.products), [Failure("Error al eliminar el producto")], reqs)
  }

  /** What a successful delete leaves behind: the id is in neither list; in
      the listing the displayed products are the visible survivors numbered
      1..n; in the hidden view they are exactly the hidden survivors. */
  lemma DeleteProductSpec(l: Lists, view: View, id: string)
    requires id != ""
    ensures var r := DeleteProduct(l, view, id, Done, Done);
      && id !in Ids(r.state.all)
      && (forall p :: p in r.state.products ==> p.id != id)
      && (view == Listado ==>
            && DenseOrders(r.state.products)
            && (forall p :: p in r.state.products ==> !p.isProductHidden)
            && multiset(Ids(r.state.products)) == multiset(Ids(Visible(RemoveId(l.all, id)))))
      && (view == Ocultos ==>
            forall p :: p in r.state.products <==> p in l.all && p.id != id && p.isProductHidden)
  {
    DeleteInListing(l.all, id);
  }

  /** `handleHideProduct`, identical in both session hooks and independent of
      the view. A missing id is refused. The backend row replaces every entry
      with the id, the visible part is renumbered and upserted, and only then
      are both lists written; any failure leaves both lists as they were. */
  function HideProduct(l: Lists, id: string, hidden: Result<Product, Fault>, upserted: Outcome): (r: Step<Lists>)
    ensures id == "" ==> r == Step(l, [Failure("No hay producto seleccionado para ocultar")], [])
    ensures id != "" && hidden.Err? ==>
      r == Step(l, [Failure("Error al ocultar el producto")], [HideRow(id)])
    ensures id != "" && hidden.Ok? ==>
      var rn := RenumberVisible(UpdateAll(l.all, id, hidden.value));
      && r.requests == [HideRow(id), UpsertRows(rn.ordered)]
      && (upserted.Done? ==> r == Step(Lists(rn.merged, rn.ordered), [Success("Producto ocultado correctamente")], r.requests))
      && (upserted.Failed? ==> r.state == l && r.notices == [Failure("Error al ocultar el producto")])
  {
    if id == "" then Step(l, [Failure("No hay producto seleccionado para ocultar")], [])
    else
      match hidden
      case Err(_) => Step(l, [Failure("Error al ocultar el producto")], [HideRow(id)])
      case Ok(row) =>
        var rn := RenumberVisible(UpdateAll(l.all, id, row));
        var reqs := [HideRow(id), UpsertRows(rn.ordered)];
        if upserted.Done? then Step(Lists(rn.merged, rn.ordered), [Success("Producto ocultado correctamente")], reqs)
        else Step(l, [Failure("Error al ocultar el producto")], reqs)
  }

  /** What a successful hide leaves behind, given the backend row the hide
      call returns (the id, marked hidden): the product is that row in the
      canonical list, absent from the displayed list, and the displayed
      products are the other visible products numbered 1..n. */
  lemma HideProductSpec(l: Lists, id: string, row: Product)
    requires id != "" && row.id == id && row.isProductHidden
    ensures var r := HideProduct(l, id, Ok(row), Done);
      && |r.state.all| == |l.all|
      && (forall i :: 0 <= i < |l.all| && l.all[i].id == id ==> r.state.all[i] == row)
      && (forall p :: p in r.state.products ==> p.id != id && !p.isProductHidden)
      && DenseOrders(r.state.products)
      && (forall i :: 0 <= i < |l.all| && l.all[i].id != id && !l.all[i].isProductHidden ==>
            r.state.all[i] in r.state.products && r.state.all[i].id == l.all[i].id)
  {
    HideSpec(l.all, id, row);
  }

  /** When the id is not in the canonical list the hide replaces nothing, so
      the row the backend returns does not matter (an empty reply included). */
  lemma HideOfAbsentIdIgnoresRow(l: Lists, id: string, a: Product, b: Product, upserted: Outcome)
    requires forall i :: 0 <= i < |l.all| ==> l.all[i].id != id
    ensures HideProduct(l, id, Ok(a), upserted) == HideProduct(l, id, Ok(b), upserted)
  {
    assert UpdateAll(l.all, id, a) == l.all == UpdateAll(l.all, id, b);
  }

  /** Whether an unhide gets through every step (the session then switches
      to the listing). */
  predicate UnhideSucceeds(id: string, max: Result<int, Fault>, unhidden: Result<Product, Fault>) {
    id != "" && max.Ok? && unhidden.Ok?
  }

  /** `handleUnhideProduct`, identical in both session hooks. A missing id is
      refused. The backend maximum is read, the row is unhidden at one past
      it, moved to the end of the canonical list, and the displayed list
      becomes the visible products; any failure leaves both lists alone. */
  function UnhideProduct(l: Lists, id: string, max: Result<int, Fault>, unhidden: Result<Product, Fault>): (r: Step<Lists>)
    ensures id == "" ==> r == Step(l, [Failure("No hay producto seleccionado para desocultar")], [])
    ensures id != "" && max.Err? ==>
      r == Step(l, [Failure("Error al desocultar el producto")], [GetMaxOrder])
    ensures id != "" && max.Ok? ==> r.requests == [GetMaxOrder, UnhideRow(max.value, id)]
    ensures id != "" && max.Ok? && unhidden.Err? ==>
      r.state == l && r.notices == [Failure("Error al desocultar el producto")]
    ensures UnhideSucceeds(id, max, unhidden) ==>
      var moved := MoveToEnd(l.all, id, unhidden.value);
      r.state == Lists(moved, Visible(moved)) && r.notices == [Success("Producto desocultado correctamente")]
  {
    if id == "" then Step(l, [Failure("No hay producto seleccionado para desocultar")], [])
    else
      match max
      case Err(_) => Step(l, [Failure("Error al desocultar el producto")], [GetMaxOrder])
      case Ok(m) =>
        var reqs := [GetMaxOrder, UnhideRow(m, id)];
        match unhidden
        case Err(_) => Step(l, [Failure("Error al desocultar el producto")], reqs)
        case Ok(row) =>
          var moved := MoveToEnd(l.all, id, row);
          Step(Lists(moved, Visible(moved)), [Success("Producto desocultado correctamente")], reqs)
  }

  /** What a successful unhide leaves behind, given a visible backend row: the
      row ends the canonical list, no other entry carries its id, and the
      displayed list is the previous visible products without the id followed
      by the row. */
  lemma UnhideProductSpec(l: Lists, id: string, m: int, row: Product)
    requires id != "" && !row.isProductHidden
    ensures var r := UnhideProduct(l, id, Ok(m), Ok(row));
      && r.state.all[|r.state.all| - 1] == row
      && id !in Ids(r.state.all[..|r.state.all| - 1])
      && r.state.products == Visible(RemoveId(l.all, id)) + [row]
  {
    UnhideSpec(l.all, id, row);
  }

  /** A missing id is refused by delete, hide and unhide alike: one error
      toast, no backend call, no list touched. */
  lemma MissingIdChangesNothing(l: Lists, view: View, d: Outcome, u: Outcome,
                                h: Result<Product, Fault>, max: Result<int, Fault>)
    ensures var r := DeleteProduct(l, view, "", d, u); r.state == l && r.requests == [] && |r.notices| == 1
    ensures var r := HideProduct(l, "", h, u); r.state == l && r.requests == [] && |r.notices| == 1
    ensures var r := UnhideProduct(l, "", max, h); r.state == l && r.requests == [] && |r.notices| == 1
  {
  }
}
