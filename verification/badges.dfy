/** The category badges of a product row: at most two badges, a "+N" badge
    for the rest, and the label lookup that falls back to the raw value. */
module CategoryBadges {
  import opened Wrappers

  /** How many categories get a badge of their own. */
  const MaxVisible: nat := 2

  /** The badges shown and the categories folded into the "+N" badge. */
  datatype Split = Split(visible: seq<string>, hidden: seq<string>)

  /** `slice(0, MAX_VISIBLE)` and `slice(MAX_VISIBLE)`. */
  function SplitBadges(categories: seq<string>): (r: Split)
    ensures r.visible + r.hidden == categories
    ensures |r.visible| == if |categories| < MaxVisible then |categories| else MaxVisible
    ensures |r.hidden| == if |categories| > MaxVisible then |categories| - MaxVisible else 0
  {
    if |categories| <= MaxVisible then Split(categories, [])
    else Split(categories[..MaxVisible], categories[MaxVisible..])
  }

  /** The "+N" badge: shown exactly when more than two categories exist, and
      counting those beyond the second. */
  function MoreBadge(categories: seq<string>): (n: Option<nat>)
    ensures n.Some? <==> |categories| > MaxVisible
    ensures n.Some? ==> n.value == |categories| - MaxVisible && n.value > 0
  {
    var hidden := SplitBadges(categories).hidden;
    if |hidden| > 0 then Some(|hidden|) else None
  }

  /** An entry of the category table: stored value and display label. */
  datatype Category = Category(value: string, text: string)

  /** `getCategoryLabel` over the category table: the label of the first
      entry with this value, or the value itself when none has it. */
  function CategoryLabel(table: seq<Category>, value: string): (l: string)
    ensures (forall i :: 0 <= i < |table| ==> table[i].value != value) ==> l == value
    ensures (exists i :: 0 <= i < |table| && table[i].value == value) ==>
      exists i :: 0 <= i < |table| && table[i].value == value && l == table[i].text
                  && forall j :: 0 <= j < i ==> table[j].value != value
    decreases |table|
  {
    if |table| == 0 then value
    else if table[0].value == value then table[0].text
    else
      var l := CategoryLabel(table[1..], value);
      assert forall i :: 1 <= i < |table| ==> table[i] == table[1..][i - 1];
      l
  }
}
