/** The session state of `useProductActions`: the same product actions as
    the provider, except that add appends the inserted row to both lists
    itself and edit sends only the changed fields, refusing an edit that
    changes nothing. The changed-field computation is an input. */
module ActionsSession {
  import opened Wrappers
  import opened Seqs
  import opened Products
  import opened ProductUtils
  import opened Backend
  import opened SessionLists

  /** The hook's state; a `null` product id is the empty string. */
  datatype ActionsState = ActionsState(
    lists: Lists,
    isModalOpen: bool,
    openDrawer: bool,
    idProductToEdit: string,
    formEditingIsOpen: bool,
    activeButton: View,
    original: Option<Product>)

  /** The add payload as the hook builds it: the form at the backend maximum
      itself, with no step past it. */
  function AddPayloadAsWritten(form: Product, maxOrder: int): (p: Product)
    ensures p.orderSellout == Some(maxOrder)
    ensures p.(orderSellout := form.orderSellout) == form
  {
    form.(orderSellout := Some(maxOrder))
  }

  /** As written, whenever a visible product exists the new row takes the
      position of the last visible product instead of the one after it. */
  lemma AddPayloadAsWrittenCollides(rows: seq<Product>, form: Product)
    requires Visible(rows) != []
    ensures exists q :: q in rows && !q.isProductHidden
                        && OrderValue(q) == OrderValue(AddPayloadAsWritten(form, MaxVisibleOrder(rows)))
  {
    var m := MaxVisibleOrder(rows);
    var q :| q in rows && !q.isProductHidden && OrderValue(q) == m;
    assert OrderValue(AddPayloadAsWritten(form, m)) == m;
  }

  /** A concrete instance: one visible product at position 3; the hook sends
      position 3 again, where one past the maximum is 4. */
  lemma AddPayloadAsWrittenExample(form: Product)
    ensures var rows := [form.(orderSellout := Some(3), isProductHidden := false)];
      && MaxVisibleOrder(rows) == 3
      && AddPayloadAsWritten(form, MaxVisibleOrder(rows)).orderSellout == rows[0].orderSellout
      && AppendPayload(form, MaxVisibleOrder(rows)).orderSellout == Some(4)
  {
    var rows := [form.(orderSellout := Some(3), isProductHidden := false)];
    assert Visible(rows) == rows by {
      assert rows[0] in Visible(rows);
    }
  }

  /** An element of a list as the hook's add builds it: a product, or the
      whole array an insert returned, held as one element. */
  datatype Entry = Row(product: Product) | Batch(rows: seq<Product>)

  /** A list of products as list elements. */
  function Rows(s: seq<Product>): (r: seq<Entry>)
    ensures |r| == |s|
    ensures forall i :: 0 <= i < |s| ==> r[i] == Row(s[i])
  {
    seq(|s|, i requires 0 <= i < |s| => Row(s[i]))
  }

  /** `[...prev, addedProduct]` as written: `addProduct` returns the array of
      inserted rows (`data || []`), and that array becomes a single element. */
  function AppendAsWritten(prev: seq<Product>, returned: seq<Product>): (r: seq<Entry>)
    ensures |r| == |prev| + 1
    ensures r[..|prev|] == Rows(prev) && r[|prev|] == Batch(returned)
  {
    Rows(prev) + [Batch(returned)]
  }

  /** As written, whatever the insert returns, the list gains an element that
      is not a product, and it is never the list with the inserted rows
      appended. */
  lemma AppendAsWrittenNotRows(prev: seq<Product>, returned: seq<Product>)
    ensures exists i :: 0 <= i < |AppendAsWritten(prev, returned)| && AppendAsWritten(prev, returned)[i].Batch?
    ensures AppendAsWritten(prev, returned) != Rows(prev + returned)
  {
    var r := AppendAsWritten(prev, returned);
    assert r[|prev|].Batch?;
    if |returned| > 0 {
      assert Rows(prev + returned)[|prev|] == Row(returned[0]);
    }
  }

  /** `handleAddProduct` with both defects corrected: the position is one
      past the backend maximum, and the rows the insert returns are appended
      to both lists (`[...prev, ...addedProduct]`); the modal and drawer
      close. A unique violation is reported, other failures are only
      logged, and a failure changes no state. */
  function HandleAdd(s: ActionsState, form: Product, max: Result<int, Fault>,
                     inserted: Result<seq<Product>, Fault>): (r: Step<ActionsState>)
    ensures max.Err? ==> r == Step(s, AddFailureNotices(max.error), [GetMaxOrder])
    ensures max.Ok? ==> r.requests == [GetMaxOrder, InsertRow(AppendPayload(form, max.value))]
    ensures max.Ok? && inserted.Ok? ==>
      && r.state.lists == Lists(s.lists.all + inserted.value, s.lists.products + inserted.value)
      && Rows(r.state.lists.all) == Rows(s.lists.all) + Rows(inserted.value)
      && !r.state.isModalOpen && !r.state.openDrawer
      && r.notices == [Success("Producto agregado correctamente")]
    ensures max.Ok? && inserted.Err? ==> r.state == s && r.notices == AddFailureNotices(inserted.error)
  {
    match max
    case Err(f) => Step(s, AddFailureNotices(f), [GetMaxOrder])
    case Ok(m) =>
      var reqs := [GetMaxOrder, InsertRow(AppendPayload(form, m))];
      match inserted
      case Err(f) => Step(s, AddFailureNotices(f), reqs)
      case Ok(rows) =>
        var l := Lists(s.lists.all + rows, s.lists.products + rows);
        assert Rows(l.all) == Rows(s.lists.all) + Rows(rows);
        Step(s.(lists := l, isModalOpen := false, openDrawer := false),
             [Success("Producto agregado correctamente")], reqs)
  }

  /** With the corrected position, the row sent lands strictly after every
      visible product, so it cannot take an occupied visible position. */
  lemma AddPayloadCorrected(s: ActionsState, form: Product, rows: seq<Product>, inserted: Result<seq<Product>, Fault>)
    ensures var r := HandleAdd(s, form, Ok(MaxVisibleOrder(rows)), inserted);
      && r.requests[1].InsertRow?
      && (forall q :: q in rows && !q.isProductHidden ==> OrderValue(q) < OrderValue(r.requests[1].row))
      && (forall q :: q in rows && !q.isProductHidden ==> q.orderSellout != r.requests[1].row.orderSellout)
  {
    AppendPayloadAfterVisible(rows, form);
  }

  /** `handlePrepareEditForm`: remember the product and its id and open the
      edit form; the drawer opens only when the product has an id. */
  function PrepareEditForm(s: ActionsState, p: Product): (r: ActionsState)
    ensures r.formEditingIsOpen && r.idProductToEdit == p.id && r.original == Some(p)
    ensures r.openDrawer == (p.id != "" || s.openDrawer)
    ensures r.lists == s.lists
  {
    var r := s.(formEditingIsOpen := true, idProductToEdit := p.id, original := Some(p));
    if p.id == "" then r else r.(openDrawer := true)
  }

  /** `handleEditProduct`: with no product selected or no original kept, an
      error toast. An empty set of changed fields warns and stops before any
      backend call. Otherwise only the changed fields are sent; the returned
      row replaces the entries with the edited id in both lists and the form
      is closed and forgotten. A failure changes no state. */
  function HandleEdit(s: ActionsState, changed: set<string>, edited: Result<Product, Fault>): (r: Step<ActionsState>)
    ensures s.idProductToEdit == "" || s.original.None? ==>
      r == Step(s, [Failure("No hay producto seleccionado para editar")], [])
    ensures s.idProductToEdit != "" && s.original.Some? && changed == {} ==>
      r == Step(s, [Warning("No se detectaron cambios")], [])
    ensures s.idProductToEdit != "" && s.original.Some? && changed != {} ==>
      r.requests == [PatchRow(s.idProductToEdit, changed)]
    ensures s.idProductToEdit != "" && s.original.Some? && changed != {} && edited.Err? ==>
      r.state == s && r.notices == [Failure("Ocurrió un error al editar el producto")]
    ensures s.idProductToEdit != "" && s.original.Some? && changed != {} && edited.Ok? ==>
      && r.state.lists == Lists(UpdateAll(s.lists.all, s.idProductToEdit, edited.value),
                                UpdateAll(s.lists.products, s.idProductToEdit, edited.value))
      && !r.state.formEditingIsOpen && !r.state.openDrawer
      && r.state.idProductToEdit == "" && r.state.original.None?
      && r.notices == [Success("Producto actualizado correctamente")]
  {
    var id := s.idProductToEdit;
    if id == "" || s.original.None? then Step(s, [Failure("No hay producto seleccionado para editar")], [])
    else if changed == {} then Step(s, [Warning("No se detectaron cambios")], [])
    else
      match edited
      case Err(_) => Step(s, [Failure("Ocurrió un error al editar el producto")], [PatchRow(id, changed)])
      case Ok(row) =>
        var l := Lists(UpdateAll(s.lists.all, id, row), UpdateAll(s.lists.products, id, row));
        Step(s.(lists := l, formEditingIsOpen := false, openDrawer := false, idProductToEdit := "", original := None),
             [Success("Producto actualizado correctamente")], [PatchRow(id, changed)])
  }

  /** An edit prepared for a product with an id is never refused as "nothing
      selected": it either warns about no changes or reaches the backend. */
  lemma PreparedEditGetsThrough(s: ActionsState, p: Product, changed: set<string>, edited: Result<Product, Fault>)
    requires p.id != ""
    ensures var r := HandleEdit(PrepareEditForm(s, p), changed, edited);
      && (changed == {} <==> r.requests == [])
      && (changed != {} ==> r.requests == [PatchRow(p.id, changed)])
  {
  }

  /** A successful edit keeps both lists' lengths and positions, changes only
      entries with the edited id, and repeating it changes nothing more. */
  lemma EditReplacesOnlyEdited(s: ActionsState, changed: set<string>, row: Product)
    requires s.idProductToEdit != "" && s.original.Some? && changed != {}
    ensures var r := HandleEdit(s, changed, Ok(row));
      && |r.state.lists.all| == |s.lists.all| && |r.state.lists.products| == |s.lists.products|
      && (forall i :: 0 <= i < |s.lists.all| && s.lists.all[i].id != s.idProductToEdit ==>
            r.state.lists.all[i] == s.lists.all[i])
      && (forall i :: 0 <= i < |s.lists.products| && s.lists.products[i].id != s.idProductToEdit ==>
            r.state.lists.products[i] == s.lists.products[i])
      && UpdateAll(r.state.lists.all, s.idProductToEdit, row) == r.state.lists.all
  {
    UpdateAllLaws(s.lists.all, s.idProductToEdit, row);
  }

  /** `handleDeleteProduct` on the hook's state. */
  function HandleDelete(s: ActionsState, id: string, deleted: Outcome, upserted: Outcome): (r: Step<ActionsState>)
    ensures var d := DeleteProduct(s.lists, s.activeButton, id, deleted, upserted);
      r == Step(s.(lists := d.state), d.notices, d.requests)
  {
    var d := DeleteProduct(s.lists, s.activeButton, id, deleted, upserted);
    Step(s.(lists := d.state), d.notices, d.requests)
  }

  /** `handleHideProduct` on the hook's state. */
  function HandleHide(s: ActionsState, id: string, hidden: Result<Product, Fault>, upserted: Outcome): (r: Step<ActionsState>)
    ensures var h := HideProduct(s.lists, id, hidden, upserted);
      r == Step(s.(lists := h.state), h.notices, h.requests)
  {
    var h := HideProduct(s.lists, id, hidden, upserted);
    Step(s.(lists := h.state), h.notices, h.requests)
  }

  /** `handleUnhideProduct` on the hook's state: a successful unhide also
      switches to the listing. */
  function HandleUnhide(s: ActionsState, id: string, max: Result<int, Fault>, unhidden: Result<Product, Fault>): (r: Step<ActionsState>)
    ensures r.state.lists == UnhideProduct(s.lists, id, max, unhidden).state
    ensures r.state.activeButton == (if UnhideSucceeds(id, max, unhidden) then Listado else s.activeButton)
    ensures r.requests == UnhideProduct(s.lists, id, max, unhidden).requests
    ensures r.notices == UnhideProduct(s.lists, id, max, unhidden).notices
  {
    var u := UnhideProduct(s.lists, id, max, unhidden);
    var view := if UnhideSucceeds(id, max, unhidden) then Listado else s.activeButton;
    Step(s.(lists := u.state, activeButton := view), u.notices, u.requests)
  }

  /** Delete and hide in the listing leave the displayed products numbered
      1..n, visible, and merged back into the canonical list by id. */
  lemma ListingStaysNumbered(s: ActionsState, id: string, row: Product)
    requires s.activeButton == Listado && id != "" && row.id == id && row.isProductHidden
    ensures var r := HandleDelete(s, id, Done, Done);
      && DenseOrders(r.state.lists.products)
      && (forall p :: p in r.state.lists.products ==> !p.isProductHidden && p.id != id)
    ensures var r := HandleHide(s, id, Ok(row), Done);
      && DenseOrders(r.state.lists.products)
      && (forall p :: p in r.state.lists.products ==> !p.isProductHidden && p.id != id)
      && (forall i :: 0 <= i < |s.lists.all| && s.lists.all[i].id != id && !s.lists.all[i].isProductHidden ==>
            r.state.lists.all[i] in r.state.lists.products)
  {
    DeleteProductSpec(s.lists, Listado, id);
    HideProductSpec(s.lists, id, row);
  }
}
