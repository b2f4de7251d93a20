/** The filter state around the products table: the category selection and
    its toggle, the column-filter list that the category selection and the
    title search are written into, and the search box derived from it. */
module Filters {
  import opened Wrappers
  import opened Seqs
  import opened Pagination

  /** A column filter's value: the search text, or a list of accepted values. */
  datatype FilterValue = Text(text: string) | Values(values: seq<string>)

  /** One entry of the table's column-filter list. */
  datatype ColumnFilter = ColumnFilter(id: string, value: FilterValue)

  /** The id of the category column and of the title column. */
  const CategoryColumn: string := "category"
  const TitleColumn: string := "title"

  /** The test "is not the given value". */
  function IsNot(v: string): string -> bool {
    (x: string) => x != v
  }

  /** The selection toggle shared by `toggleCategory` and `toggleSelection`:
      a selected value is removed everywhere it occurs, an unselected one is
      appended at the end. */
  function Toggle(list: seq<string>, v: string): (r: seq<string>)
    ensures v in list ==> r == Filter(list, IsNot(v))
    ensures v !in list ==> r == list + [v]
    ensures forall x :: x != v ==> (x in r <==> x in list)
    ensures v in r <==> v !in list
  {
    if v in list then Filter(list, IsNot(v)) else list + [v]
  }

  /** On a duplicate-free selection the toggle keeps it duplicate-free, and
      toggling the same value twice gives back the same set of values; when
      the value was not selected it gives back the very same list. */
  lemma {:induction false} ToggleTwice(list: seq<string>, v: string)
    requires NoDup(list)
    ensures NoDup(Toggle(list, v))
    ensures Elements(Toggle(Toggle(list, v), v)) == Elements(list)
    ensures v !in list ==> Toggle(Toggle(list, v), v) == list
  {
    if v in list {
      FilterNoDup(list, IsNot(v));
      assert NoDup(Toggle(list, v));
    } else {
      FilterConcat(list, [v], IsNot(v));
      FilterAll(list, IsNot(v));
      assert Filter([v], IsNot(v)) == [];
      assert NoDup(list + [v]) by {
        forall i, j | 0 <= i < j < |list + [v]| ensures (list + [v])[i] != (list + [v])[j] {
          if j == |list| {
            assert (list + [v])[i] == list[i];
            assert list[i] in list;
          }
        }
      }
    }
  }

  /** A category checkbox is checked exactly when its category is selected. */
  function Checked(selection: seq<string>, category: string): (c: bool)
    ensures c <==> exists i :: 0 <= i < |selection| && selection[i] == category
    ensures c <==> category !in Toggle(selection, category)
  {
    category in selection
  }

  /** `toggleCategory`: toggle the value and go back to the first page,
      keeping the page size. */
  function ToggleCategory(selection: seq<string>, p: Paging, v: string): (r: (seq<string>, Paging))
    ensures r.0 == Toggle(selection, v)
    ensures r.1 == Paging(0, p.pageSize)
    ensures Checked(r.0, v) <==> !Checked(selection, v)
  {
    (Toggle(selection, v), p.(pageIndex := 0))
  }

  /** The test "belongs to another column". */
  function OtherColumn(id: string): ColumnFilter -> bool {
    (f: ColumnFilter) => f.id != id
  }

  /** Drop every filter of column `id` and, given a value, append one filter
      for it: the rewrite behind the category sync effect, typing in the
      search box and clearing it. */
  function ReplaceFilter(filters: seq<ColumnFilter>, id: string, value: Option<FilterValue>): (r: seq<ColumnFilter>)
    ensures Filter(r, OtherColumn(id)) == Filter(filters, OtherColumn(id))
    ensures value.None? ==> forall i :: 0 <= i < |r| ==> r[i].id != id
    ensures value.Some? ==> |r| > 0 && r[|r| - 1] == ColumnFilter(id, value.value)
                            && forall i :: 0 <= i < |r| - 1 ==> r[i].id != id
  {
    var without := Filter(filters, OtherColumn(id));
    FilterIdempotent(filters, OtherColumn(id));
    match value
    case None => without
    case Some(v) =>
      var r := without + [ColumnFilter(id, v)];
      FilterConcat(without, [ColumnFilter(id, v)], OtherColumn(id));
      assert Filter([ColumnFilter(id, v)], OtherColumn(id)) == [];
      assert forall i :: 0 <= i < |r| - 1 ==> r[i] in without;
      r
  }

  /** Rewriting a column twice with the same value is rewriting it once. */
  lemma ReplaceFilterIdempotent(filters: seq<ColumnFilter>, id: string, value: Option<FilterValue>)
    ensures ReplaceFilter(ReplaceFilter(filters, id, value), id, value) == ReplaceFilter(filters, id, value)
  {
    var once := ReplaceFilter(filters, id, value);
    assert Filter(once, OtherColumn(id)) == Filter(filters, OtherColumn(id));
  }

  /** The category sync effect (in both `useFiltersProvider` and
      `FilterButton`): the category filter carries the selection, and is
      absent when nothing is selected. */
  function SyncCategoryFilter(filters: seq<ColumnFilter>, selection: seq<string>): (r: seq<ColumnFilter>)
    ensures Filter(r, OtherColumn(CategoryColumn)) == Filter(filters, OtherColumn(CategoryColumn))
    ensures |selection| == 0 ==> forall i :: 0 <= i < |r| ==> r[i].id != CategoryColumn
    ensures |selection| > 0 ==>
      && |r| > 0 && r[|r| - 1] == ColumnFilter(CategoryColumn, Values(selection))
      && forall i :: 0 <= i < |r| - 1 ==> r[i].id != CategoryColumn
  {
    ReplaceFilter(filters, CategoryColumn, if |selection| > 0 then Some(Values(selection)) else None)
  }

  /** Running the category sync again with the same selection changes nothing. */
  lemma SyncCategoryIdempotent(filters: seq<ColumnFilter>, selection: seq<string>)
    ensures SyncCategoryFilter(SyncCategoryFilter(filters, selection), selection) == SyncCategoryFilter(filters, selection)
  {
    ReplaceFilterIdempotent(filters, CategoryColumn, if |selection| > 0 then Some(Values(selection)) else None);
  }

  /** The test "belongs to the given column". */
  function OfColumn(id: string): ColumnFilter -> bool {
    (f: ColumnFilter) => f.id == id
  }

  /** `filters[i]` is the first filter of column `id`. */
  predicate FirstOf(filters: seq<ColumnFilter>, i: nat, id: string)
    requires i < |filters|
  {
    filters[i].id == id && forall j :: 0 <= j < i ==> filters[j].id != id
  }

  /** The search box text: the value of the first title filter, or ''. */
  function SearchValue(filters: seq<ColumnFilter>): (text: string)
    ensures text != "" ==>
      exists i :: 0 <= i < |filters| && filters[i] == ColumnFilter(TitleColumn, Text(text)) && FirstOf(filters, i, TitleColumn)
    ensures forall i :: 0 <= i < |filters| && filters[i].value.Text? && FirstOf(filters, i, TitleColumn) ==>
      text == filters[i].value.text
    ensures (forall i :: 0 <= i < |filters| ==> filters[i].id != TitleColumn) ==> text == ""
  {
    var k := FirstWhere(filters, OfColumn(TitleColumn));
    if k < |filters| && filters[k].value.Text? then filters[k].value.text else ""
  }

  /** Typing in the search box: the title filter holds the text, and there is
      none for an empty text. */
  function OnSearchChange(filters: seq<ColumnFilter>, text: string): (r: seq<ColumnFilter>)
    ensures Filter(r, OtherColumn(TitleColumn)) == Filter(filters, OtherColumn(TitleColumn))
    ensures text == "" ==> forall i :: 0 <= i < |r| ==> r[i].id != TitleColumn
    ensures text != "" ==> |r| > 0 && r[|r| - 1] == ColumnFilter(TitleColumn, Text(text))
                           && forall i :: 0 <= i < |r| - 1 ==> r[i].id != TitleColumn
  {
    ReplaceFilter(filters, TitleColumn, if text != "" then Some(Text(text)) else None)
  }

  /** The clear button: every title filter goes. */
  function ClearSearch(filters: seq<ColumnFilter>): (r: seq<ColumnFilter>)
    ensures Filter(r, OtherColumn(TitleColumn)) == Filter(filters, OtherColumn(TitleColumn))
    ensures forall i :: 0 <= i < |r| ==> r[i].id != TitleColumn
  {
    ReplaceFilter(filters, TitleColumn, None)
  }

  /** The clear button is shown while there is search text. */
  predicate ShowClear(filters: seq<ColumnFilter>) {
    SearchValue(filters) != ""
  }

  /** The search box shows what was typed, whatever filters were there; after
      a clear it is empty and the clear button is gone. */
  lemma SearchRoundTrip(filters: seq<ColumnFilter>, text: string)
    ensures SearchValue(OnSearchChange(filters, text)) == text
    ensures SearchValue(ClearSearch(filters)) == "" && !ShowClear(ClearSearch(filters))
    ensures ShowClear(OnSearchChange(filters, text)) <==> text != ""
  {
    var r := OnSearchChange(filters, text);
    if text != "" {
      assert FirstWhere(r, OfColumn(TitleColumn)) == |r| - 1;
    } else {
      assert FirstWhere(r, OfColumn(TitleColumn)) == |r|;
    }
    var c := ClearSearch(filters);
    assert FirstWhere(c, OfColumn(TitleColumn)) == |c|;
  }
}
