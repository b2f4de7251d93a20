/** The session state of `useProductsProvider` and the handlers that act on
    it: the initial load, add, edit, delete, hide, unhide, form routing, the
    drawer backdrop, the inline change-feed reducer, and the two view buttons
    of the header together with the add button of the table header. Backend
    replies are inputs; the toasts and backend calls are outputs. */
module ProviderSession {
  import opened Wrappers
  import opened Seqs
  import opened Products
  import opened ProductUtils
  import opened Backend
  import opened SessionLists
  import opened Realtime
  import opened Pagination

  /** What the product form was last reset to. */
  datatype FormValues =
    | Blank                          // the empty form
    | AddDefaults(orderSellout: int) // the add form, prefilled with a position
    | EditOf(product: Product)       // the edit form of a product

  /** The provider's state; a `null` product id is the empty string. */
  datatype ProviderState = ProviderState(
    lists: Lists,
    isModalOpen: bool,
    openDrawer: bool,
    formEditingIsOpen: bool,
    idProductToEdit: string,
    showConfirmDialog: bool,
    activeButton: View,
    paging: Paging,
    isFormOrderSelloutOpen: bool,
    formIsDirty: bool,
    form: FormValues)

  /** The state before the first load: no products, the listing, page 1 of 25. */
  function Initial(): (s: ProviderState)
    ensures s.lists == Lists([], []) && s.activeButton == Listado
    ensures s.paging == Paging(0, DefaultPageSize)
    ensures !s.openDrawer && !s.formEditingIsOpen && s.idProductToEdit == "" && s.form == Blank
  {
    ProviderState(Lists([], []), false, false, false, "", false, Listado,
                  Paging(0, DefaultPageSize), false, false, Blank)
  }

  /** The first load: on success the canonical list is the whole table and
      the displayed list its visible part; a failure is only logged. */
  function InitialLoad(s: ProviderState, fetched: Result<seq<Product>, Fault>): (r: Step<ProviderState>)
    ensures r.requests == [FetchAll] && r.notices == []
    ensures fetched.Ok? ==> r.state == s.(lists := Lists(fetched.value, Visible(fetched.value)))
    ensures fetched.Err? ==> r.state == s
  {
    match fetched
    case Ok(data) => Step(s.(lists := Lists(data, Visible(data))), [], [FetchAll])
    case Err(_) => Step(s, [], [FetchAll])
  }

  /** `handleAddProduct`: read the backend maximum and insert the form at one
      past it. Success closes the modal and the drawer; the lists are left to
      the change feed. A unique violation is reported, other failures are
      only logged, and a failure changes no state. */
  function HandleAdd(s: ProviderState, form: Product, max: Result<int, Fault>, inserted: Outcome): (r: Step<ProviderState>)
    ensures r.state.lists == s.lists
    ensures max.Err? ==> r == Step(s, AddFailureNotices(max.error), [GetMaxOrder])
    ensures max.Ok? ==> r.requests == [GetMaxOrder, InsertRow(AppendPayload(form, max.value))]
    ensures max.Ok? && inserted.Done? ==>
      r.state == s.(isModalOpen := false, openDrawer := false)
      && r.notices == [Success("Producto agregado correctamente")]
    ensures max.Ok? && inserted.Failed? ==> r.state == s && r.notices == AddFailureNotices(inserted.fault)
  {
    match max
    case Err(f) => Step(s, AddFailureNotices(f), [GetMaxOrder])
    case Ok(m) =>
      var reqs := [GetMaxOrder, InsertRow(AppendPayload(form, m))];
      match inserted
      case Done => Step(s.(isModalOpen := false, openDrawer := false), [Success("Producto agregado correctamente")], reqs)
      case Failed(f) => Step(s, AddFailureNotices(f), reqs)
  }

  /** Given the true backend maximum, the inserted row is placed strictly
      after every visible product. */
  lemma AddPlacesAfterVisible(s: ProviderState, form: Product, rows: seq<Product>, inserted: Outcome)
    ensures var r := HandleAdd(s, form, Ok(MaxVisibleOrder(rows)), inserted);
      && r.requests[1].InsertRow?
      && (forall q :: q in rows && !q.isProductHidden ==> OrderValue(q) < OrderValue(r.requests[1].row))
  {
    AppendPayloadAfterVisible(rows, form);
  }

  /** `handlePrepareEditForm`: open the drawer on the edit form of `p`. */
  function PrepareEditForm(s: ProviderState, p: Product): (r: ProviderState)
    ensures r.formEditingIsOpen && r.openDrawer && r.idProductToEdit == p.id && r.form == EditOf(p)
    ensures r.lists == s.lists && r.activeButton == s.activeButton
  {
    s.(formEditingIsOpen := true, idProductToEdit := p.id, form := EditOf(p), openDrawer := true)
  }

  /** `handleEditProduct`: with no product selected, an error toast and
      nothing else. Otherwise the whole form is sent; the returned row
      replaces the entries with the edited id in the displayed list only, and
      the form is closed and cleared. A failure changes no state. */
  function HandleEdit(s: ProviderState, form: Product, edited: Result<Product, Fault>): (r: Step<ProviderState>)
    ensures r.state.lists.all == s.lists.all
    ensures s.idProductToEdit == "" ==>
      r == Step(s, [Failure("No hay producto seleccionado para editar")], [])
    ensures s.idProductToEdit != "" ==> r.requests == [UpdateRow(s.idProductToEdit, form)]
    ensures s.idProductToEdit != "" && edited.Err? ==>
      r.state == s && r.notices == [Failure("Ocurrió un error al editar el producto")]
    ensures s.idProductToEdit != "" && edited.Ok? ==>
      && r.state.lists.products == UpdateAll(s.lists.products, s.idProductToEdit, edited.value)
      && !r.state.formEditingIsOpen && !r.state.openDrawer
      && r.state.idProductToEdit == "" && r.state.form == Blank
      && r.notices == [Success("Producto actualizado correctamente")]
  {
    var id := s.idProductToEdit;
    if id == "" then Step(s, [Failure("No hay producto seleccionado para editar")], [])
    else
      match edited
      case Err(_) => Step(s, [Failure("Ocurrió un error al editar el producto")], [UpdateRow(id, form)])
      case Ok(row) =>
        var l := s.lists.(products := UpdateAll(s.lists.products, id, row));
        Step(s.(lists := l, formEditingIsOpen := false, openDrawer := false, form := Blank, idProductToEdit := ""),
             [Success("Producto actualizado correctamente")], [UpdateRow(id, form)])
  }

  /** A successful edit moves no displayed product: lengths and positions are
      kept and only entries with the edited id change. */
  lemma EditKeepsPositions(s: ProviderState, form: Product, row: Product)
    requires s.idProductToEdit != ""
    ensures var r := HandleEdit(s, form, Ok(row));
      && |r.state.lists.products| == |s.lists.products|
      && (forall i :: 0 <= i < |s.lists.products| && s.lists.products[i].id != s.idProductToEdit ==>
            r.state.lists.products[i] == s.lists.products[i])
      && (s.idProductToEdit !in Ids(s.lists.products) ==> r.state.lists == s.lists)
  {
    UpdateAllLaws(s.lists.products, s.idProductToEdit, row);
  }

  /** `onSubmitForm`: the edit handler while the edit form is open, the add
      handler otherwise. */
  function OnSubmitForm(s: ProviderState, form: Product, max: Result<int, Fault>, inserted: Outcome,
                        edited: Result<Product, Fault>): (r: Step<ProviderState>)
    ensures s.formEditingIsOpen ==> r == HandleEdit(s, form, edited)
    ensures !s.formEditingIsOpen ==> r == HandleAdd(s, form, max, inserted)
  {
    if s.formEditingIsOpen then HandleEdit(s, form, edited) else HandleAdd(s, form, max, inserted)
  }

  /** Submitting issues an update exactly when the edit form is open and a
      product is selected, and an insert only from the add form. */
  lemma SubmitRoutes(s: ProviderState, form: Product, m: int, inserted: Outcome, edited: Result<Product, Fault>)
    ensures var r := OnSubmitForm(s, form, Ok(m), inserted, edited);
      && (r.requests == [UpdateRow(s.idProductToEdit, form)] <==> s.formEditingIsOpen && s.idProductToEdit != "")
      && ((exists k :: 0 <= k < |r.requests| && r.requests[k].InsertRow?) <==> !s.formEditingIsOpen)
  {
    var r := OnSubmitForm(s, form, Ok(m), inserted, edited);
    if !s.formEditingIsOpen {
      assert r.requests[1].InsertRow?;
    }
  }

  /** `handleDeleteProduct` on the session. */
  function HandleDelete(s: ProviderState, id: string, deleted: Outcome, upserted: Outcome): (r: Step<ProviderState>)
    ensures var d := DeleteProduct(s.lists, s.activeButton, id, deleted, upserted);
      r == Step(s.(lists := d.state), d.notices, d.requests)
  {
    var d := DeleteProduct(s.lists, s.activeButton, id, deleted, upserted);
    Step(s.(lists := d.state), d.notices, d.requests)
  }

  /** `handleHideProduct` on the session; the view is not consulted. */
  function HandleHide(s: ProviderState, id: string, hidden: Result<Product, Fault>, upserted: Outcome): (r: Step<ProviderState>)
    ensures var h := HideProduct(s.lists, id, hidden, upserted);
      r == Step(s.(lists := h.state), h.notices, h.requests)
  {
    var h := HideProduct(s.lists, id, hidden, upserted);
    Step(s.(lists := h.state), h.notices, h.requests)
  }

  /** `handleUnhideProduct` on the session: a successful unhide also switches
      to the listing. */
  function HandleUnhide(s: ProviderState, id: string, max: Result<int, Fault>, unhidden: Result<Product, Fault>): (r: Step<ProviderState>)
    ensures r.state.lists == UnhideProduct(s.lists, id, max, unhidden).state
    ensures r.state.activeButton == (if UnhideSucceeds(id, max, unhidden) then Listado else s.activeButton)
    ensures r.requests == UnhideProduct(s.lists, id, max, unhidden).requests
    ensures r.notices == UnhideProduct(s.lists, id, max, unhidden).notices
  {
    var u := UnhideProduct(s.lists, id, max, unhidden);
    var view := if UnhideSucceeds(id, max, unhidden) then Listado else s.activeButton;
    Step(s.(lists := u.state, activeButton := view), u.notices, u.requests)
  }

  /** After a successful unhide from the hidden view, the session shows the
      listing with the unhidden row last. */
  lemma UnhideShowsListing(s: ProviderState, id: string, m: int, row: Product)
    requires id != "" && !row.isProductHidden
    ensures var r := HandleUnhide(s, id, Ok(m), Ok(row));
      && r.state.activeButton == Listado
      && r.state.lists.products == Visible(RemoveId(s.lists.all, id)) + [row]
      && r.state.lists.products[|r.state.lists.products| - 1] == row
  {
    UnhideProductSpec(s.lists, id, m, row);
  }

  /** `handleBackdropDrawerClick`: a dirty form asks for confirmation;
      otherwise the drawer closes and the move form is dismissed. */
  function BackdropClick(s: ProviderState): (r: ProviderState)
    ensures s.formIsDirty ==> r == s.(showConfirmDialog := true)
    ensures !s.formIsDirty ==>
      r == s.(openDrawer := false, formIsDirty := false, isFormOrderSelloutOpen := false)
  {
    if s.formIsDirty then s.(showConfirmDialog := true)
    else s.(openDrawer := false, formIsDirty := false, isFormOrderSelloutOpen := false)
  }

  /** A backdrop click never loses unsaved input: the drawer closes only when
      the form is clean, and the confirmation is asked exactly when it is
      dirty. */
  lemma BackdropKeepsDirtyForm(s: ProviderState)
    ensures !BackdropClick(s).openDrawer <==> !s.formIsDirty || !s.openDrawer
    ensures BackdropClick(s).showConfirmDialog <==> s.formIsDirty || s.showConfirmDialog
  {
  }

  /** The change-feed reducer inlined in the provider, for the active view. */
  function OnRealtimeEvent(s: ProviderState, ev: ChangeEvent): (r: ProviderState)
    ensures r.lists.all == ApplyEvent(s.lists.all, ev)
    ensures r.lists.products == Project(r.lists.all, s.activeButton)
    ensures r == s.(lists := r.lists)
  {
    var f := OnEvent(s.lists.all, s.activeButton, ev);
    s.(lists := Lists(f.all, f.displayed))
  }

  /** The "listing" button of the header: show the visible products renumbered
      1..n in stored order, back on the first page. */
  function ShowListing(s: ProviderState): (r: ProviderState)
    ensures r.lists == Lists(s.lists.all, Reorder(Visible(s.lists.all)))
    ensures r.paging == Paging(0, s.paging.pageSize)
    ensures r.activeButton == Listado
  {
    s.(lists := s.lists.(products := Reorder(Visible(s.lists.all))),
       paging := s.paging.(pageIndex := 0), activeButton := Listado)
  }

  /** The "hidden" button of the header: show the hidden products as stored,
      back on the first page. */
  function ShowHidden(s: ProviderState): (r: ProviderState)
    ensures r.lists == Lists(s.lists.all, Hidden(s.lists.all))
    ensures r.paging == Paging(0, s.paging.pageSize)
    ensures r.activeButton == Ocultos
  {
    s.(lists := s.lists.(products := Hidden(s.lists.all)),
       paging := s.paging.(pageIndex := 0), activeButton := Ocultos)
  }

  /** Whether a header button is rendered active. */
  predicate IsActive(s: ProviderState, v: View) {
    s.activeButton == v
  }

  /** After a view switch exactly the clicked button is active; the listing
      shows only visible products numbered 1..n with the same ids as the
      visible products, the hidden view exactly the hidden products. */
  lemma ViewSwitchSpec(s: ProviderState)
    ensures var r := ShowListing(s);
      && IsActive(r, Listado) && !IsActive(r, Ocultos)
      && DenseOrders(r.lists.products)
      && (forall p :: p in r.lists.products ==> !p.isProductHidden)
      && multiset(Ids(r.lists.products)) == multiset(Ids(Visible(s.lists.all)))
    ensures var r := ShowHidden(s);
      && IsActive(r, Ocultos) && !IsActive(r, Listado)
      && (forall p :: p in r.lists.products <==> p in s.lists.all && p.isProductHidden)
  {
    ReorderPermutes(Visible(s.lists.all));
    ReorderVisible(s.lists.all);
  }

  /** The add button of the table header is offered in the listing only. */
  function AddButtonShown(s: ProviderState): (shown: bool)
    ensures shown <==> !IsActive(s, Ocultos)
  {
    s.activeButton == Listado
  }

  /** `handleAddProductClick`: prefill the add form with the next position
      after the displayed products and open it. */
  function AddProductClick(s: ProviderState): (r: ProviderState)
    ensures r.form == AddDefaults(NextOrderSellout(s.lists.products))
    ensures r.openDrawer && !r.formEditingIsOpen
    ensures r.lists == s.lists
  {
    s.(form := AddDefaults(NextOrderSellout(s.lists.products)), openDrawer := true, formEditingIsOpen := false)
  }

  /** The prefilled position of the add form lies past every displayed
      product's hundreds, and is 1 on an empty listing. */
  lemma AddClickPrefillsNext(s: ProviderState)
    ensures var n := AddProductClick(s).form.orderSellout;
      && (s.lists.products == [] ==> n == 1)
      && (forall p :: p in s.lists.products ==> OrderValue(p) < 100 * n)
  {
  }
}
