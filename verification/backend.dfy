/** What the session transitions exchange with the outside world: the
    backend calls they issue (as data), the replies they are given (as
    parameters), and the toast they show. Nothing here performs I/O. */
module Backend {
  import opened Products
  import opened ProductUtils

  /** Why an awaited backend call threw: a Postgres error with its SQLSTATE
      code, some other `Error`, or a thrown value that is not an `Error`. */
  datatype Fault = DbError(code: string) | OtherError | NonError

  /** The SQLSTATE of a unique-constraint violation. */
  const UniqueViolation: string := "23505"

  /** The reply of a call that returns nothing. */
  datatype Outcome = Done | Failed(fault: Fault)

  /** A backend call, recorded in the order the handler awaits it. */
  datatype Request =
    | FetchAll                                      // getAllProducts
    | GetMaxOrder                                   // getMaxOrderSellout
    | InsertRow(row: Product)                       // addProduct
    | UpdateRow(id: string, row: Product)           // editProduct with the whole form
    | PatchRow(id: string, fields: set<string>)     // editProduct with the changed fields only
    | DeleteRow(id: string)                         // deleteProduct
    | UpsertRows(rows: seq<Product>)                // upsertProducts
    | HideRow(id: string)                           // hideProduct
    | UnhideRow(maxOrder: int, id: string)          // unhideProduct

  /** A toast. */
  datatype Notice =
    | Info(text: string)
    | Success(text: string)
    | Warning(text: string)
    | Failure(text: string)

  /** The result of one handler run: the new state, the toasts it showed in
      order, and the backend calls it issued in order. */
  datatype Step<S> = Step(state: S, notices: seq<Notice>, requests: seq<Request>)

  /** `getMaxOrderSellout`: the largest order among visible rows, 0 when there
      is none. */
  function MaxVisibleOrder(rows: seq<Product>): (m: int)
    ensures Visible(rows) == [] ==> m == 0
    ensures forall p :: p in rows && !p.isProductHidden ==> OrderValue(p) <= m
    ensures Visible(rows) != [] ==> exists p :: p in rows && !p.isProductHidden && OrderValue(p) == m
  {
    var v := Visible(rows);
    if |v| == 0 then 0 else MaxOrder(v)
  }

  /** The toasts of a failed add: a unique violation is reported as a
      duplicate position, any other failure is only logged. */
  function AddFailureNotices(f: Fault): (n: seq<Notice>)
    ensures |n| <= 1
    ensures |n| == 1 <==> f.DbError? && f.code == UniqueViolation
    ensures |n| == 1 ==> n[0] == Failure("Este orden sellout ya existe en la lista")
  {
    if f.DbError? && f.code == UniqueViolation then [Failure("Este orden sellout ya existe en la lista")]
    else []
  }
}
