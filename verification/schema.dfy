/** The acceptance rules of the product form and of the move form, as
    predicates. Dates are represented by their text (`toString`); a missing
    date or a missing number is `None`. */
module ProductSchema {
  import opened Wrappers

  /** What the category field holds: the text the schema expects, or the
      array of values the category multi-select writes into it. */
  datatype CategoryInput = CategoryText(text: string) | CategoryList(values: seq<string>)

  /** The values the product form submits. */
  datatype ProductForm = ProductForm(
    orderSellout: Option<real>,
    category: CategoryInput,
    title: string,
    urlProduct: string,
    urlImage: string,
    startDate: Option<string>,
    endDate: Option<string>,
    offerState: Option<string>,
    isProductHidden: bool)

  /** The form fields an error can be reported on. */
  datatype Field = OrderSellout | Category | Title | UrlProduct | UrlImage | StartDate | EndDate

  /** Title length bounds. */
  const TitleMin: nat := 5
  const TitleMax: nat := 50

  /** The length JavaScript reports for a string: its UTF-16 code units, two
      for a character outside the Basic Multilingual Plane. */
  function Utf16Length(t: string): (n: nat)
    ensures |t| <= n <= 2 * |t|
    ensures (forall i :: 0 <= i < |t| ==> t[i] as int < 0x1_0000) ==> n == |t|
    decreases |t|
  {
    if |t| == 0 then 0
    else (if t[0] as int < 0x1_0000 then 1 else 2) + Utf16Length(t[1..])
  }

  /** `z.string().min(5).max(50)`, on JavaScript's string length. */
  predicate ValidTitle(t: string) {
    TitleMin <= Utf16Length(t) <= TitleMax
  }

  /** `url.startsWith("http")`. */
  predicate StartsWithHttp(u: string) {
    |u| >= 4 && u[..4] == "http"
  }

  /** A field whose value has the wrong type stops the object's parse
      (`z.number()` on NaN, `z.string()` on an array). */
  predicate Aborts(f: ProductForm) {
    f.orderSellout.None? || f.category.CategoryList?
  }

  /** The fields the form reports as invalid. The start/end rule is reported
      on the end date; as an object-level refinement it is only checked once
      every field has parsed far enough, so not while a date is missing or
      a field has the wrong type. */
  function FormErrors(f: ProductForm): (e: set<Field>)
    ensures Title in e <==> Utf16Length(f.title) < TitleMin || Utf16Length(f.title) > TitleMax
    ensures Category in e <==> f.category.CategoryList? || f.category == CategoryText("")
    ensures EndDate in e <==>
      f.endDate.None? || (!Aborts(f) && f.startDate.Some? && f.startDate == f.endDate)
    ensures StartDate in e <==> f.startDate.None?
    ensures OrderSellout in e <==> f.orderSellout.None?
    ensures UrlProduct in e <==> !StartsWithHttp(f.urlProduct)
    ensures UrlImage in e <==> !StartsWithHttp(f.urlImage)
  {
    set x: Field | Reported(f, x)
  }

  /** Whether field `x` of the form is reported. */
  predicate Reported(f: ProductForm, x: Field) {
    match x
    case OrderSellout => f.orderSellout.None?
    case Category => f.category.CategoryList? || f.category.text == ""
    case Title => !ValidTitle(f.title)
    case UrlProduct => !StartsWithHttp(f.urlProduct)
    case UrlImage => !StartsWithHttp(f.urlImage)
    case StartDate => f.startDate.None?
    case EndDate =>
      f.endDate.None? || (!Aborts(f) && f.startDate.Some? && f.startDate.value == f.endDate.value)
  }

  /** `productFormSchema` accepts the form: a numeric position, a non-empty
      category text,
      a title of 5..50 UTF-16 code units, two http URLs, and two different
      dates; the offer state may be absent. */
  function ValidProductForm(f: ProductForm): (v: bool)
    ensures v <==> FormErrors(f) == {}
    ensures v ==> Utf16Length(f.title) <= TitleMax && f.startDate != f.endDate
  {
    var e := FormErrors(f);
    assert f.orderSellout.None? ==> OrderSellout in e;
    assert !StartsWithHttp(f.urlProduct) ==> UrlProduct in e;
    assert !StartsWithHttp(f.urlImage) ==> UrlImage in e;
    && f.orderSellout.Some?
    && f.category.CategoryText? && |f.category.text| >= 1
    && ValidTitle(f.title)
    && StartsWithHttp(f.urlProduct) && StartsWithHttp(f.urlImage)
    && f.startDate.Some? && f.endDate.Some? && f.startDate.value != f.endDate.value
  }

  /** The form is accepted exactly when no field is reported, and the offer
      state and hidden flag never decide it. */
  lemma ValidIffNoErrors(f: ProductForm, offer: Option<string>, hidden: bool)
    ensures ValidProductForm(f) <==> FormErrors(f) == {}
    ensures ValidProductForm(f) <==> ValidProductForm(f.(offerState := offer, isProductHidden := hidden))
  {
    if !ValidProductForm(f) {
      if f.orderSellout.None? { assert OrderSellout in FormErrors(f); }
      else if !StartsWithHttp(f.urlProduct) { assert UrlProduct in FormErrors(f); }
      else if !StartsWithHttp(f.urlImage) { assert UrlImage in FormErrors(f); }
    }
  }

  /** A position that is not a number stops the parse before the object-level
      date rule, so equal dates are not reported alongside it. */
  lemma NaNPositionSkipsDateRule(f: ProductForm, d: string)
    requires f.orderSellout.None? && f.startDate == Some(d) && f.endDate == Some(d)
    ensures OrderSellout in FormErrors(f) && EndDate !in FormErrors(f)
    ensures f.category.CategoryText? ==>
      FormErrors(f.(orderSellout := Some(1.0))) * {OrderSellout, EndDate} == {EndDate}
  {
  }

  /** The schema expects the category as text, so a category chosen in the
      multi-select (an array) is always reported and the form is never
      accepted; the wrong type also stops the parse before the date rule. */
  lemma ChosenCategoriesRejected(f: ProductForm)
    requires f.category.CategoryList?
    ensures Category in FormErrors(f) && !ValidProductForm(f)
    ensures f.endDate.Some? ==> EndDate !in FormErrors(f)
  {
  }

  /** Three characters outside the Basic Multilingual Plane are six code
      units, so they make a title of acceptable length. */
  lemma AstralTitleLength()
    ensures Utf16Length("\U{1F600}\U{1F600}\U{1F600}") == 6
    ensures ValidTitle("\U{1F600}\U{1F600}\U{1F600}")
  {
    var t := "\U{1F600}\U{1F600}\U{1F600}";
    assert t[1..][1..][1..] == [];
  }

  /** `productToMoveFormSchema`: a whole number, positive, at most 999. */
  function ValidMove(n: Option<real>): (v: bool)
    ensures v ==> n.Some? && 1 <= n.value.Floor <= 999 && n == Some(n.value.Floor as real)
    ensures n.Some? && n.value.Floor as real == n.value ==> (v <==> 1 <= n.value.Floor <= 999)
  {
    n.Some? && n.value.Floor as real == n.value && n.value > 0.0 && n.value <= 999.0
  }

  /** The move form accepts exactly the whole numbers 1..999. */
  lemma ValidMoveSpec(n: Option<real>, k: int)
    ensures ValidMove(n) ==> 1 <= n.value.Floor <= 999 && n == Some(n.value.Floor as real)
    ensures ValidMove(Some(k as real)) <==> 1 <= k <= 999
  {
  }
}
