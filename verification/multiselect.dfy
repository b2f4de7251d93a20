/** The selection logic of the `MultiSelect` component: the toggle in multi
    and single mode, the controlled or internal selection, and the label
    registry. A JavaScript `Set` is a duplicate-free sequence in insertion
    order. */
module MultiSelect {
  import opened Wrappers
  import opened Seqs
  import opened Filters

  /** The toggle in multi mode: delete the value if present, else add it at
      the end. On a duplicate-free selection this is the category toggle. */
  function ToggleMulti(selected: seq<string>, v: string): (r: seq<string>)
    requires NoDup(selected)
    ensures NoDup(r)
    ensures v in r <==> v !in selected
    ensures forall x :: x != v ==> (x in r <==> x in selected)
  {
    ToggleTwice(selected, v);
    Toggle(selected, v)
  }

  /** In multi mode toggling a value twice gives back the original set. */
  lemma ToggleMultiTwice(selected: seq<string>, v: string)
    requires NoDup(selected)
    ensures Elements(ToggleMulti(ToggleMulti(selected, v), v)) == Elements(selected)
  {
    ToggleTwice(selected, v);
  }

  /** The toggle in single mode: deselect the value, or select it alone. */
  function ToggleSingle(selected: seq<string>, v: string): (r: seq<string>)
    ensures |r| <= 1
    ensures v in selected ==> r == []
    ensures v !in selected ==> r == [v]
  {
    if v in selected then [] else [v]
  }

  /** The selection shown: the controlled `values` as a set when given,
      otherwise the internal set. */
  function SelectedValues(values: Option<seq<string>>, internal: seq<string>): (r: seq<string>)
    ensures values.Some? ==> NoDup(r) && Elements(r) == Elements(values.value)
    ensures values.None? ==> r == internal
  {
    match values
    case Some(vs) => Dedupe(vs)
    case None => internal
  }

  /** The component after a toggle: the new internal set, the values handed
      to `onValuesChange`, and whether the popover is open. */
  datatype Toggled = Toggled(internal: seq<string>, emitted: seq<string>, open: bool)

  /** `toggleValue`: toggle against the shown selection, store the new set,
      report its elements, and close the popover in single mode. */
  function ToggleValue(single: bool, values: Option<seq<string>>, internal: seq<string>, open: bool, v: string): (r: Toggled)
    requires values.None? ==> NoDup(internal)
    ensures r.emitted == r.internal
    ensures NoDup(r.internal)
    ensures single ==> !r.open && |r.internal| <= 1
    ensures !single ==> r.open == open
    ensures var before := SelectedValues(values, internal);
      && (v in r.internal <==> v !in before)
      && (!single ==> forall x :: x != v ==> (x in r.internal <==> x in before))
      && (single ==> forall x :: x != v ==> x !in r.internal)
  {
    var before := SelectedValues(values, internal);
    var after := if single then ToggleSingle(before, v) else ToggleMulti(before, v);
    Toggled(after, after, if single then false else open)
  }

  /** `onItemAdded`: the same registry when the value already has this
      label, otherwise the registry with the value relabelled. */
  function OnItemAdded(items: map<string, string>, value: string, text: string): (r: map<string, string>)
    ensures value in r && r[value] == text
    ensures forall k :: k in items && k != value ==> k in r && r[k] == items[k]
    ensures forall k :: k in r && k != value ==> k in items
    ensures (value in items && items[value] == text) ==> r == items
  {
    if value in items && items[value] == text then items else items[value := text]
  }
}
