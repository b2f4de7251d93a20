# Product dashboard ordering and list state, in Dafny

This project models the core of a product dashboard for a landing page of
offers. Each product has a position (`orderSellout`) and a hidden flag. The
dashboard keeps two lists:

- a canonical list of every product (`allProducts`);
- a displayed list, which holds the visible products in the listing view
  and the hidden products in the hidden view.

The model covers:

- **Product list algebra**: the visible and hidden projections, the next
  position offered to a new product, dense 1..n renumbering after a stable
  sort, replace-by-id, move-to-end, merging renumbered products back by id,
  and the shift-based reorder.
- **Change-feed reducer**: it folds row-level INSERT, UPDATE and DELETE
  events into the canonical list and re-derives the displayed list for the
  current view.
- **Session actions** of the two session hooks and the header: add, edit,
  delete, hide, unhide, form routing, the drawer backdrop and the view
  switches. Each is a pure function from (state, backend replies) to
  (state, toasts, backend calls issued).
- **Staleness guard**: the full resync, which never runs twice at once, and
  its triggers (suspension timer, tab visibility, coming back online). Also
  the manual sync button and its throttle.
- **Pagination**: the page window with its ellipses, and the page/row
  bookkeeping under the table.
- **Filter state**: the category toggle, rewriting the column-filter list
  for categories and title search, the column row filters, the multi-select
  toggle in multi and single mode, and the split of category badges.
- **Form validation**: the acceptance rules of the product form and the
  move form, as predicates.

Inputs that the program reads from its environment are parameters of the
model:

- every backend reply (`Result`/`Outcome`);
- the clock (`now`);
- page visibility and the browser's online flag.

Each timer callback is its own transition: the two-second release of the
resync flag and the four-second release of the sync-button throttle. A
`null` id is the empty string, and a `null` position is `None`. Wherever
JavaScript arithmetic or comparison meets a `null` position, it is read as
0 (`OrderValue`).

Modules, in dependency order:

- `Wrappers`: `Option` and `Result`.
- `Seqs`: filter, count, duplicate-freedom and dedupe on sequences.
- `Products`: the product record and the two projections.
- `Sorting`: the stable sort by position.
- `ProductUtils`: the list algebra of `product.utils.ts`.
- `Backend`: backend calls as data, faults, toasts and the maximum-position
  query.
- `Realtime`: the change-feed reducer.
- `SessionLists`: the delete, hide and unhide handlers. Both session hooks
  share them, because the two hooks contain identical code for them.
- `ProviderSession` and `ActionsSession`: the two session hooks.
- `SyncManager` and `SyncButton`: the staleness guard.
- `Pagination`: the page window and table bookkeeping.
- `Filters`, `Columns`, `MultiSelect` and `CategoryBadges`: the filter
  state.
- `ProductSchema`: form validation.

Two properties of the change-feed reducer are worth stating plainly:

- **INSERT is not de-duplicated.** The reducer appends the new row
  unconditionally (useRealtimeSync.ts:49-51). `Realtime.InsertAppends`
  states that a repeated INSERT adds a second copy.
- **The listing is not re-sorted after an event.** The reducer filters
  without sorting (useRealtimeSync.ts:62-68).
  `Realtime.ReplayDisplaysProjection` states that the listing is the
  visible rows in list order.

## Model

| member | source | states |
|---|---|---|
| Products.PartitionVisibleHidden | src/utils/product.utils.ts:6-12 | the visible and hidden projections split the list: lengths and multisets add up to the input's, and every product is in exactly one of them |
| Products.Visible | src/utils/product.utils.ts:6-8 | a product is on the visible list iff it is on the input and not marked hidden |
| Products.Hidden | src/utils/product.utils.ts:10-12 | a product is on the hidden list iff it is on the input and marked hidden |
| Products.Project | src/hooks/useRealtimeSync.ts:62-68 | the displayed list of a view: the visible products for the listing, the hidden ones otherwise |
| Products.ProjectionsKeepOrder | src/utils/product.utils.ts:6-12 | both projections distribute over concatenation, so relative order is kept |
| ProductUtils.MaxOrder | src/utils/product.utils.ts:28 | the maximum position of a non-empty list bounds every position and is attained (a null position counts as 0) |
| ProductUtils.NextOrderSellout | src/utils/product.utils.ts:25-32 | 1 for an empty list; otherwise every position lies below 100·r and some position reaches 100·(r−1), i.e. r = floor(max/100)+1; r ≥ 1 when no position is negative |
| Sorting.SortByOrder | src/utils/product.utils.ts:81-82 | the sort keeps length and multiset of products |
| Sorting.SortSorted | src/utils/product.utils.ts:81-82 | the sort output is non-decreasing in position |
| Sorting.SortStable | src/utils/product.utils.ts:81-82 | for every position value, the products holding it keep their relative order (stability) |
| Sorting.SortIds | src/utils/product.utils.ts:81-82 | the sort keeps the multiset of ids |
| ProductUtils.Reorder | src/utils/product.utils.ts:80-84 | length kept and the k-th output carries position k (1-based) |
| ProductUtils.ReorderSortsStably | src/utils/product.utils.ts:80-84 | the k-th output is the k-th product of the stable ascending sort with its position set to k |
| ProductUtils.ReorderPermutes | src/utils/product.utils.ts:80-84 | the multiset of ids is kept, positions form a permutation of 1..n, and each output is an input product renumbered |
| ProductUtils.ReorderVisible | src/utils/product.utils.ts:80-84 | renumbering a visible list yields only visible products |
| ProductUtils.UpdateAll | src/utils/product.utils.ts:86-92 | length and positions kept; exactly the entries with the id become the given product |
| ProductUtils.UpdateAllLaws | src/utils/product.utils.ts:86-92 | replacing by an absent id is the identity, and replacing twice equals replacing once |
| ProductUtils.RemoveId | src/utils/product.utils.ts:99 | the result holds exactly the products without the id |
| ProductUtils.RemoveIdLaws | src/utils/product.utils.ts:99 | the length drops by the number of entries carrying the id; removal is idempotent and the identity for an absent id |
| ProductUtils.MoveToEnd | src/utils/product.utils.ts:94-101 | the last element is the updated product and everything before it is the input without the id, order kept, so no earlier entry carries the id |
| ProductUtils.FindById | src/utils/product.utils.ts:135 | none exactly when no product has the id; otherwise the first product carrying it |
| ProductUtils.UpdateVisibleOrderInAll | src/utils/product.utils.ts:128-140 | length and positions kept; an entry whose id is in the ordered list becomes the first ordered entry with that id, every other entry is unchanged |
| ProductUtils.AdjustOrder | src/utils/product.utils.ts:103-126 | the target takes the new position; moving up, others in [new, old) get +1; moving down, others in (old, new] get −1; all else is unchanged |
| ProductUtils.AdjustKeepsDense | src/utils/product.utils.ts:109-125 | on a list whose positions are a permutation of 1..n, moving the only target from its position to any 1..n keeps a permutation of 1..n |
| ProductUtils.AdjustToSameOrder | src/utils/product.utils.ts:109-125 | moving the target to the position it holds is the identity |
| Realtime.ApplyEvent | src/hooks/useRealtimeSync.ts:45-60 | INSERT appends; UPDATE replaces every entry with the new row's id in place; DELETE keeps exactly the entries without the old row's id; other events change nothing |
| Realtime.OnEvent | src/hooks/useRealtimeSync.ts:45-70 | the canonical list is the folded list and the displayed list is its visible part in the listing, its hidden part otherwise |
| Realtime.InsertAppends | src/hooks/useRealtimeSync.ts:49-51 | INSERT grows the list by exactly one with the row last, and adds a second copy of a row already present |
| Realtime.UpdateLaws | src/hooks/useRealtimeSync.ts:52-55 | UPDATE for an absent id is a no-op and a repeated UPDATE equals a single one |
| Realtime.DeleteLaws | src/hooks/useRealtimeSync.ts:57-58 | DELETE removes as many entries as carry the id, is idempotent, and keeps the order of the rest |
| Realtime.ReplayDisplaysProjection | src/hooks/useRealtimeSync.ts:62-68 | after any non-empty run of events the displayed list is exactly the view's projection of the canonical list |
| ProviderSession.OnRealtimeEvent | src/hooks/useProductsProvider.ts:322-348 | the inline reducer of the provider is the same fold and projection for the active view, touching nothing else |
| Backend.MaxVisibleOrder | src/api/products.ts:71-82 | 0 when no row is visible; otherwise an upper bound on the visible positions that some visible row attains |
| Backend.AddFailureNotices | src/hooks/useProductsProvider.ts:111-121 | a failed add shows the duplicate-position toast exactly for a unique violation (SQLSTATE 23505) and nothing otherwise |
| SessionLists.AppendPayload | src/hooks/useProductsProvider.ts:97-101 | the add payload is the form with position max+1 and every other field kept |
| SessionLists.RenumberVisible | src/hooks/useProductsProvider.ts:184-190 | the listing is the visible products sorted and numbered 1..n, as many as there are visible products and none hidden; the merged list keeps the input's length and takes the new numbers by id |
| SessionLists.RenumberVisibleSpec | src/hooks/useProductsProvider.ts:184-190 | the renumbered listing is visible-only, numbered 1..n with the visible ids; the merged list keeps its positions, each visible entry becomes its renumbered copy, entries sharing no visible id are untouched |
| SessionLists.DeleteInListing | src/hooks/useProductsProvider.ts:181-192 | after deleting in the listing the id is gone from the merged list, the listing is dense, visible and id-free, and every visible survivor appears in it |
| SessionLists.HideSpec | src/hooks/useProductsProvider.ts:221-230 | hiding with a hidden backend row puts that row at every entry of the id, keeps it out of the listing, and numbers the listing 1..n |
| SessionLists.UnhideSpec | src/hooks/useProductsProvider.ts:261-262 | unhiding with a visible row puts it last, and the listing is the visible rest followed by the row |
| SessionLists.DeleteProduct | src/hooks/useProductsProvider.ts:172-208 | refused for a missing id; a failed delete changes nothing; in the hidden view the lists become the rest and its hidden part; in the listing the canonical list is the renumbered merge even when the upsert then fails, and the listing is updated only on success |
| SessionLists.DeleteProductSpec | src/hooks/useProductsProvider.ts:181-196 | after a successful delete the id is in neither list; the listing is the visible survivors numbered 1..n, the hidden view exactly the hidden survivors |
| SessionLists.HideProduct | src/hooks/useProductsProvider.ts:210-246 | refused for a missing id; the upsert is awaited before any write, so any failure leaves both lists unchanged; success writes the merged list and the renumbered listing |
| SessionLists.HideOfAbsentIdIgnoresRow | src/hooks/useProductsProvider.ts:221-223 | for an id missing from the canonical list the hide step does not depend on the returned row |
| SessionLists.HideProductSpec | src/hooks/useProductsProvider.ts:221-233 | after a successful hide the product is the backend row in the canonical list, absent from the listing, and the other visible products are numbered 1..n and present in the listing |
| SessionLists.UnhideProduct | src/hooks/useProductsProvider.ts:248-279 | refused for a missing id; the maximum is read and passed to the unhide call; success moves the row to the end and shows the visible products; any failure changes no list |
| SessionLists.UnhideProductSpec | src/hooks/useProductsProvider.ts:259-266 | after a successful unhide the row is last, no other entry carries its id, and the listing is the previous visible rest followed by the row |
| SessionLists.MissingIdChangesNothing | src/hooks/useProductsProvider.ts:172-256 | delete, hide and unhide with a missing id show one error toast, issue no backend call and change no list |
| ProviderSession.Initial | src/hooks/useProductsProvider.ts:32-52 | a session starts empty, in the listing, on page index 0 with 25 rows per page, with the drawer and edit form closed |
| ProviderSession.InitialLoad | src/hooks/useProductsProvider.ts:67-80 | a successful load sets the canonical list to the table and the displayed list to its visible part; a failure changes nothing |
| ProviderSession.HandleAdd | src/hooks/useProductsProvider.ts:94-125 | reads the maximum then inserts at max+1; success closes modal and drawer and leaves the lists to the change feed; failures change no state and toast only a unique violation |
| ProviderSession.AddPlacesAfterVisible | src/hooks/useProductsProvider.ts:97-101 | given the true backend maximum, the inserted row's position is above every visible product's |
| ProviderSession.PrepareEditForm | src/hooks/useProductsProvider.ts:127-132 | opens the drawer on the edit form of the product and selects its id |
| ProviderSession.HandleEdit | src/hooks/useProductsProvider.ts:134-170 | refused with no selection; success replaces the edited id in the displayed list only and closes the form; the canonical list is never written |
| ProviderSession.EditKeepsPositions | src/hooks/useProductsProvider.ts:151-155 | a successful edit keeps the displayed list's length and every entry without the edited id |
| ProviderSession.OnSubmitForm | src/hooks/useProductsProvider.ts:86-92 | routes to edit exactly when the edit form is open, otherwise to add |
| ProviderSession.SubmitRoutes | src/hooks/useProductsProvider.ts:86-92 | an update is issued exactly when the edit form is open with a selection, an insert exactly from the add form |
| ProviderSession.HandleDelete | src/hooks/useProductsProvider.ts:172-208 | the session's delete is the shared delete for the active view |
| ProviderSession.HandleHide | src/hooks/useProductsProvider.ts:210-246 | the session's hide is the shared hide, whatever the view |
| ProviderSession.HandleUnhide | src/hooks/useProductsProvider.ts:248-279 | the session's unhide is the shared unhide, and a successful one switches to the listing |
| ProviderSession.UnhideShowsListing | src/hooks/useProductsProvider.ts:259-266 | after a successful unhide the listing is active and shows the visible rest with the row last |
| ProviderSession.BackdropClick | src/hooks/useProductsProvider.ts:291-299 | a dirty form opens the confirmation; a clean one closes the drawer and the move form |
| ProviderSession.BackdropKeepsDirtyForm | src/hooks/useProductsProvider.ts:291-299 | the drawer is closed afterwards exactly when the form was clean or it was already closed |
| ProviderSession.ShowListing | src/components/Header.tsx:52-58 | the listing button shows the visible products renumbered, back to page index 0 with the page size kept |
| ProviderSession.ShowHidden | src/components/Header.tsx:64-69 | the hidden button shows the hidden products, back to page index 0 with the page size kept |
| ProviderSession.ViewSwitchSpec | src/components/Header.tsx:52-70 | exactly the clicked button is active; the listing is visible-only, numbered 1..n with the visible ids; the hidden view is exactly the hidden products |
| ProviderSession.AddProductClick | src/components/TableProductsHeader.tsx:26-31 | prefills the add form with the next position of the displayed products and opens it as an add form |
| ProviderSession.AddButtonShown | src/components/TableProductsHeader.tsx:66 | the add button is offered exactly while the hidden view is not active |
| ProviderSession.AddClickPrefillsNext | src/components/TableProductsHeader.tsx:26-31 | the prefilled position is 1 on an empty listing and lies above the hundreds of every displayed position |
| ActionsSession.AddPayloadAsWritten | src/hooks/useProductActions.ts:51-52 | the payload as written carries the backend maximum itself as position |
| ActionsSession.AddPayloadAsWrittenCollides | src/hooks/useProductActions.ts:51-52 | with any visible product present, the payload as written takes a position a visible product already holds |
| ActionsSession.AddPayloadAsWrittenExample | src/hooks/useProductActions.ts:51-52 | one visible product at position 3: the payload as written is at 3, the corrected one at 4 |
| ActionsSession.AppendAsWritten | src/hooks/useProductActions.ts:54-56 | as written, the list grows by exactly one element, and that element is the whole array the insert returned |
| ActionsSession.AppendAsWrittenNotRows | src/hooks/useProductActions.ts:54-56 | as written, for any reply the list gains an element that is not a product, and it never equals the list with the returned rows appended |
| ActionsSession.HandleAdd | src/hooks/useProductActions.ts:48-78 | corrected: the position is max+1 and success appends every returned row to both lists, then closes modal and drawer; a failure changes no state and toasts only a unique violation |
| ActionsSession.AddPayloadCorrected | src/hooks/useProductActions.ts:51-56 | with the corrected position the inserted row is strictly after, and distinct from, every visible position |
| ActionsSession.PrepareEditForm | src/hooks/useProductActions.ts:80-97 | remembers the product and its id; the drawer opens only for a product with an id |
| ActionsSession.HandleEdit | src/hooks/useProductActions.ts:99-148 | refused without a selection or original; no changed fields warns with no backend call; success patches only the changed fields and replaces the id in both lists |
| ActionsSession.PreparedEditGetsThrough | src/hooks/useProductActions.ts:80-122 | an edit prepared for a product with an id is never refused: it issues no call exactly when nothing changed, else the patch |
| ActionsSession.EditReplacesOnlyEdited | src/hooks/useProductActions.ts:130-131 | a successful edit keeps both lists' lengths and every entry without the id, and is idempotent |
| ActionsSession.HandleDelete | src/hooks/useProductActions.ts:150-184 | the hook's delete is the shared delete for the active view |
| ActionsSession.HandleHide | src/hooks/useProductActions.ts:186-217 | the hook's hide is the shared hide |
| ActionsSession.HandleUnhide | src/hooks/useProductActions.ts:219-250 | the hook's unhide is the shared unhide, and a successful one switches to the listing |
| ActionsSession.ListingStaysNumbered | src/hooks/useProductActions.ts:159-204 | delete and hide in the listing leave it visible-only, id-free and numbered 1..n, with the visible survivors merged back |
| SyncManager.Init | src/hooks/useSyncManager.ts:18-24 | both sync clocks start at mount time, the visibility clock at 0, no resync running |
| SyncManager.FullResync | src/hooks/useSyncManager.ts:30-67 | a no-op offline or while a resync runs; otherwise raises the flags and fetches; success replaces the canonical list and shows its view projection; failure keeps both lists and toasts an error; clocks untouched |
| SyncManager.ReleaseResync | src/hooks/useSyncManager.ts:61-66 | the release timer lowers both flags and nothing else |
| SyncManager.UpdateLastRealtimeEvent | src/hooks/useSyncManager.ts:73-75 | records the realtime clock and nothing else |
| SyncManager.CheckSuspension | src/hooks/useSyncManager.ts:82-88 | resyncs iff more than 300000 ms passed since the last sync, and always sets the last sync to now |
| SyncManager.HandleVisibilityChange | src/hooks/useSyncManager.ts:100-117 | ignored when hidden or within 60000 ms of the last visibility resync; otherwise last sync := now, and when the sync is over 60000 ms or realtime over 120000 ms old, last visibility := now and a resync is attempted |
| SyncManager.HandleOnline | src/hooks/useSyncManager.ts:129-132 | announces the restored connection and then attempts a silent resync |
| SyncManager.FireFetchesOnlyWhenIdle | src/hooks/useSyncManager.ts:32-38 | any single trigger fetches at most once, only from an idle state, and leaves the resync marked running |
| SyncManager.AtMostOneResyncUntilRelease | src/hooks/useSyncManager.ts:32-38 | over any run of triggers without a release at most one fetch is issued, and none while a resync already runs |
| SyncManager.ResyncShowsProjection | src/hooks/useSyncManager.ts:46-51 | after a successful resync the displayed list is the visible part of the fetch in the listing, the hidden part otherwise |
| SyncManager.VisibilityThrottled | src/hooks/useSyncManager.ts:103-113 | a second visibility change within 60000 ms of one that resynced is ignored |
| SyncButton.InitButton | src/components/SyncButton.tsx:9-11 | the button starts unthrottled with the browser's online flag |
| SyncButton.TooltipText | src/components/SyncButton.tsx:43-48 | tooltip priority: offline, then syncing, then throttled, then the invitation |
| SyncButton.IsDisabled | src/components/SyncButton.tsx:41 | the button is enabled exactly when the tooltip invites a sync, and, with state and ref in step, exactly when a press fires |
| SyncButton.HandleSync | src/components/SyncButton.tsx:26-39 | fires iff neither throttle flag is up, no sync runs and the browser is online; firing raises both throttle flags, otherwise nothing changes |
| SyncButton.ReleaseThrottle | src/components/SyncButton.tsx:35-38 | the release timer lowers both throttle flags |
| SyncButton.SetOnline | src/components/SyncButton.tsx:14-15 | the online and offline events set the online flag and touch nothing else |
| SyncButton.PressFiresIffEnabled | src/components/SyncButton.tsx:26-41 | every transition keeps the throttle state and ref equal, so a press fires exactly when the button is rendered enabled |
| SyncButton.TooltipMatchesDisabled | src/components/SyncButton.tsx:41-48 | the tooltip invites a sync exactly when the button is enabled |
| SyncButton.SecondPressThrottled | src/components/SyncButton.tsx:27-31 | a second press before the release does nothing |
| Pagination.Range | src/hooks/usePagination.ts:62 | the run lo..hi with length clamped at 0, element i being lo+i |
| Pagination.CenteredWindow | src/hooks/usePagination.ts:36-56 | the window stays within 1..total; touching page 1 it ends at the item count, touching the last page it starts item count − 1 pages before it |
| Pagination.UsePagination | src/hooks/usePagination.ts:27-62 | the ellipsis flags hold iff 2·(current−1) > items and 2·(total−current+1) > items; all pages when they fit; otherwise the window with one page given up per ellipsis; pages contiguous, within 1..total, at most the item count |
| Pagination.OnPageChange | src/components/Table.tsx:39-41 | the shown page becomes the requested page, page size kept |
| Pagination.PageChangeRoundTrip | src/components/Table.tsx:37-41 | selecting the shown page changes nothing |
| Pagination.OnPageSizeChange | src/components/Table.tsx:43-49 | sets the page size and returns to page index 0 |
| Pagination.TableFooter | src/components/Table.tsx:18-55 | omitted iff there are no products or no filtered rows; otherwise page number index+1, the rows run from index·size+1 to min((index+1)·size, filtered count), the total is the filtered count, and on a page holding rows the labels count exactly the rows of the page slice |
| Filters.Toggle | src/hooks/useFiltersProvider.ts:21 | a selected value is removed everywhere, an unselected one appended; other values keep their membership |
| Filters.ToggleTwice | src/hooks/useFiltersProvider.ts:21 | on a duplicate-free selection the toggle stays duplicate-free, and toggling twice restores the set (the very list when the value was absent) |
| Filters.ToggleCategory | src/hooks/useFiltersProvider.ts:20-25 | toggles the checkbox state of the value and returns to page index 0 with the page size kept |
| Filters.Checked | src/components/FilterButton.tsx:71 | a checkbox is checked iff its category is in the selection, i.e. iff toggling it would remove it |
| Filters.ReplaceFilter | src/hooks/useFiltersProvider.ts:30-36 | filters of other columns are kept in order; the column has no filter without a value, else exactly one, placed last |
| Filters.ReplaceFilterIdempotent | src/hooks/useFiltersProvider.ts:30-36 | rewriting a column twice equals rewriting it once |
| Filters.SyncCategoryFilter | src/components/FilterButton.tsx:49-57 | the category filter is absent for an empty selection, else unique, last and holding the selection; other filters kept in order |
| Filters.SyncCategoryIdempotent | src/hooks/useFiltersProvider.ts:29-37 | re-running the category sync changes nothing |
| Filters.OnSearchChange | src/components/TableProductsHeader.tsx:43-49 | typing keeps other filters in order and leaves one title filter with the text, or none for empty text |
| Filters.SearchValue | src/components/TableProductsHeader.tsx:33-35 | a non-empty search text is the text of the first title filter; when the first title filter holds a text, that text is shown; with no title filter the box is empty |
| Filters.ClearSearch | src/components/TableProductsHeader.tsx:56-58 | clearing removes every title filter and keeps the others in order |
| Filters.SearchRoundTrip | src/components/TableProductsHeader.tsx:33-58 | the search box shows exactly what was typed; after a clear it is empty and the clear button hidden |
| Columns.OrderCell | src/tables/productColumns.tsx:13 | the position cell is the 1-based row index |
| Columns.OrderCellOnRenumbered | src/tables/productColumns.tsx:13 | on a renumbered listing the cell equals the stored position |
| Columns.CategoryFilter | src/tables/productColumns.tsx:25-28 | a row passes iff some category of the row (by index) is among the filter values |
| Columns.CategoryFilterSpec | src/tables/productColumns.tsx:25-28 | the category filter accepts a row iff one of its categories is a filter value |
| Columns.CategoryFilterMonotone | src/tables/productColumns.tsx:27 | an empty filter or a row without categories is rejected, and adding filter values never rejects an accepted row |
| Columns.OfferStateFilter | src/tables/productColumns.tsx:80-82 | accepts iff the row's offer state is one of the filter values; a missing offer state is rejected |
| MultiSelect.ToggleMulti | src/components/ui/multi-select.tsx:90-96 | multi mode flips the value's membership, keeps every other value's and stays duplicate-free |
| MultiSelect.ToggleMultiTwice | src/components/ui/multi-select.tsx:90-96 | toggling a value twice in multi mode restores the set |
| MultiSelect.ToggleSingle | src/components/ui/multi-select.tsx:87-89 | single mode yields nothing if the value was selected, else exactly the value |
| MultiSelect.SelectedValues | src/components/ui/multi-select.tsx:80-82 | controlled values as a duplicate-free set with the same elements; otherwise the internal set |
| MultiSelect.ToggleValue | src/components/ui/multi-select.tsx:84-105 | the reported values are the new set; single mode closes the popover and holds at most one value; the toggled value's membership flips |
| MultiSelect.OnItemAdded | src/components/ui/multi-select.tsx:107-112 | the value maps to the label afterwards, every other entry is kept, and an unchanged label returns the same registry |
| CategoryBadges.SplitBadges | src/components/ProductCategoryBadges.tsx:12-14 | badges and overflow concatenate to the categories, with min(2, n) and max(0, n−2) elements |
| CategoryBadges.MoreBadge | src/components/ProductCategoryBadges.tsx:24-28 | the "+N" badge appears iff n > 2, with N = n − 2 |
| CategoryBadges.CategoryLabel | src/components/ProductCategoryBadges.tsx:9 | the label of the first table entry with the value, or the raw value when no entry has it |
| ProductSchema.Utf16Length | src/lib/schemas/product.schema.ts:8 | the JavaScript length of a string lies between its character count and twice that, and equals the count when every character is in the Basic Multilingual Plane |
| ProductSchema.AstralTitleLength | src/lib/schemas/product.schema.ts:8 | three characters outside the Basic Multilingual Plane measure 6 and make an acceptable title |
| ProductSchema.FormErrors | src/lib/schemas/product.schema.ts:4-29 | position reported iff not a number; category iff it is an array (what the multi-select writes) or empty text; title iff its JavaScript length is outside 5..50; each URL iff it does not start with "http"; start date iff missing; end date iff missing, or equal to the start date while no field has the wrong type (position a number, category a text) |
| ProductSchema.NaNPositionSkipsDateRule | src/lib/schemas/product.schema.ts:4-29 | with a position that is not a number and equal dates only the position is reported; with a number the end date is reported |
| ProductSchema.ValidProductForm | src/lib/schemas/product.schema.ts:4-29 | the form is accepted iff no field is reported; an accepted form has a title of at most 50 and two different dates |
| ProductSchema.ChosenCategoriesRejected | src/lib/schemas/product.schema.ts:7 | a category given as an array is always reported, the form is never accepted, and the end-date rule is not reached |
| ProductSchema.ValidIffNoErrors | src/lib/schemas/product.schema.ts:6-29 | the form is accepted iff no field is reported, and the offer state (nullable) and hidden flag never decide it |
| ProductSchema.ValidMove | src/lib/schemas/product.schema.ts:31-40 | an accepted move is a whole number in 1..999, and a whole number is accepted iff it lies in 1..999 |
| ProductSchema.ValidMoveSpec | src/lib/schemas/product.schema.ts:31-40 | the move form accepts exactly the whole numbers 1..999 |

## Left out

- Backend calls, the realtime channel subscription, timers, `Date.now`, `navigator.onLine` and document or window listeners are not modelled. Their results are parameters or separate transitions.
- The `isSync` flash after a realtime event and the loading flags (`isLoading`, `isloadingButton`) are not modelled. Neither affects the lists or the guards.
- Async interleaving is not modelled. Each handler runs to completion in one step, so a resync racing realtime events, or two handlers racing, is out of scope.
- `formatProductDates`, `getDefaultEditProductForm`, `getDefaultAddProductForm` and `getDefaultResetForm` are not modelled. They do date parsing, `parseInt` and float formatting, so the add and edit payloads keep the form's fields as they are. The form resets are recorded only as which form was loaded.
- `getChangedFields` and `getOrderSelloutForUI` are not part of this model, so the changed-field set is an input. For the same reason, the move form (`handleChangeOrderSelloutForm`, `handlePrepareChangeOrderSelloutForm`) is not modelled.
- Positions are whole numbers throughout. `product.utils.ts` holds no fractional position allocation or rebalancing, so neither is modelled.
- ActionsSession.HandleEdit: takes the first returned row. An empty reply array is not modelled, although the source (`productUpdated[0]`) would then write `undefined` into both lists.
- SyncManager.FullResync: the view test uses `VIEW_VISIBLEPRODUCTS`, while the session hooks and the header use `VIEW_LISTADO`. `src/constants/views` is not part of this model, so both constants are taken to name the listing. The icon lookup in `MenuButton.tsx` only works if they are equal. If they differ, a resync in the listing would show the hidden products; `SyncManager.ResyncShowsProjection` assumes they do not.
- ProviderSession.HandleEdit: takes the first returned row. An empty reply array is not modelled, although the source would then write `undefined` into the list.
- SessionLists.HideProduct: an empty reply to the hide call needs no case of its own. The `undefined` row it yields reaches `getVisibleProducts` (`product.utils.ts:7`), which throws inside the handler's `try`, so the source shows the hide error and writes neither list; that is the `hidden` failure branch. When the id is not in the canonical list, no entry is replaced and nothing throws; any returned row gives the same step then (SessionLists.HideOfAbsentIdIgnoresRow).
- SessionLists.UnhideProduct: an empty reply to the unhide call needs no case of its own. `moveProductToEnd` appends the `undefined` row and `getVisibleProducts` throws before either list is written, so the source shows the unhide error; that is the `unhidden` failure branch.
- Backend.MaxVisibleOrder: it treats a null position as 0 and so omits the database's ordering of nulls. Visible rows always carry a position in the flows modelled.
- Fault classification (`instanceof Error` and the Postgres error check) is the three-way `Fault` datatype. The runtime type inspection itself is not modelled.
- Zod's `.url()` check and the error messages are not modelled. Only the fields reported are: `startsWith("http")`, the lengths in UTF-16 code units, presence and the date rule. Which fields abort the parse follows Zod 3: a position that is not a number or a category that is an array does, and a failed length or prefix check does not.
- The table engine is not modelled. This covers sorting, the global filter, the page count and applying column filters to rows. Filters are modelled as the list the engine receives, and `PageSlice` restates the engine's page slice.
- Rendering, authentication, theme, login, the playwright tests and the contexts are not modelled.
- The in-place mutation by `Array.prototype.sort` is not modelled. Reorder is pure.
- ProviderSession.AddButtonShown: as written, `Table.tsx:24-29` renders the header with only `currentView`, `isDrawerOpen`, `setIsDrawerOpen` and `isFormOrderSelloutOpen` (the props of `types/table.d.ts:4-9`), while `TableProductsHeader.tsx:17-22` reads `activeButton`, `columnFilters` and `setColumnFilters`; so the add button is never shown and `columnFilters.find` runs on `undefined`. The model assumes the provider's view and the table's filter state reach the header, and the same assumption holds for Filters.SearchValue, Filters.OnSearchChange and Filters.ClearSearch.
- ProductSchema.FormErrors: follows the schema as written (`category: z.string().min(1)`), while the category multi-select (`Form.tsx:51-55`) and the edit defaults (`product.utils.ts:69`) put an array of values in that field; such a form is always rejected on the category (ProductSchema.ChosenCategoriesRejected). The intended array-valued category rule is not modelled.

## Findings

| source | as written | input that shows it | evidently intended | confidence | as-written member | corrected member |
|---|---|---|---|---|---|---|
| src/hooks/useProductActions.ts:51-52 | the add payload's position is `maxOrderSellout`, the current maximum visible position | one visible product at position 3: the new row is sent at position 3 again, which a unique constraint rejects (the handler's own duplicate message) | `maxOrderSellout + 1`, as the provider's add (useProductsProvider.ts:100) and the unhide call (api/products.ts:92) use | high, not executed | ActionsSession.AddPayloadAsWritten, ActionsSession.AddPayloadAsWrittenCollides, ActionsSession.AddPayloadAsWrittenExample | SessionLists.AppendPayload, ActionsSession.HandleAdd, ActionsSession.AddPayloadCorrected |
| src/hooks/useProductActions.ts:54-56 | `addProduct` returns the array of inserted rows (`data \|\| []`, api/products.ts:16), and `[...prev, addedProduct]` adds that array as one element of both lists | any successful add, e.g. a one-row reply `[row]`: the lists gain the element `[row]` instead of `row` | spread the reply, `[...prev, ...addedProduct]`, so that the inserted rows themselves are appended | high, not executed | ActionsSession.AppendAsWritten, ActionsSession.AppendAsWrittenNotRows | ActionsSession.HandleAdd |
