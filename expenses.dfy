/** The Expense entity (its field shape only) and the ExpenseDTO that
    carries it across the web boundary, with the two mappings between them.
    Money is an integer amount (for example cents). */
module Expenses {
  import opened Wrappers
  import opened Calendar

  /** The stable identifier of a User; owners are compared by it. */
  type OwnerId = int

  /** Expense: `id` is null until the store assigns one and `user` until
      the service attaches the owner; `value` is a primitive and never null. */
  datatype Expense = Expense(id: Option<int>, owner: Option<OwnerId>, value: int,
                             category: Option<string>, createdAt: Option<LocalDateTime>)

  /** ExpenseDTO: every field is a nullable reference. */
  datatype ExpenseDTO = ExpenseDTO(id: Option<int>, value: Option<int>,
                                   category: Option<string>, createdAt: Option<LocalDateTime>)

  /** The bean-validation constraints of ExpenseDTO: value @NotNull and
      @Positive, category @NotNull, createdAt @NotNull. */
  predicate IsValidDTO(d: ExpenseDTO) {
    d.value.Some? && d.value.value > 0 && d.category.Some? && d.createdAt.Some?
  }

  /** ExpenseDTO.toExpense: the builder takes a primitive value, so a null
      value throws NullPointerException while unboxing. Otherwise value,
      category and createdAt are copied, and id and owner are left unset. */
  function ToExpense(d: ExpenseDTO): (r: Result<Expense>)
    ensures r.Err? <==> d.value.None?
    ensures r.Err? ==> r.error == NullValue
    ensures r.Ok? ==> && r.value.value == d.value.value && r.value.category == d.category
                      && r.value.createdAt == d.createdAt && r.value.id.None? && r.value.owner.None?
  {
    match d.value
    case None => Err(NullValue)
    case Some(v) => Ok(Expense(None, None, v, d.category, d.createdAt))
  }

  /** ExpenseDTO.toDTO: copies id, value, category and createdAt; the value
      is never null and the owner is not part of the DTO. */
  function ToDTO(e: Expense): (d: ExpenseDTO)
    ensures d.value == Some(e.value)
    ensures d.id == e.id && d.category == e.category && d.createdAt == e.createdAt
  {
    ExpenseDTO(e.id, Some(e.value), e.category, e.createdAt)
  }

  /** A valid DTO always converts, into an expense with a positive value,
      a category and a date. */
  lemma ValidDTOConverts(d: ExpenseDTO)
    requires IsValidDTO(d)
    ensures ToExpense(d).Ok?
    ensures ToExpense(d).value.value > 0
    ensures ToExpense(d).value.category.Some? && ToExpense(d).value.createdAt.Some?
  {
  }

  /** Round trip entity -> DTO -> entity: everything but id and owner survives. */
  lemma ToExpenseOfToDTO(e: Expense)
    ensures ToExpense(ToDTO(e)) == Ok(e.(id := None, owner := None))
  {
  }

  /** Round trip DTO -> entity -> DTO: everything but id survives. */
  lemma ToDTOOfToExpense(d: ExpenseDTO)
    requires d.value.Some?
    ensures ToExpense(d).Ok? && ToDTO(ToExpense(d).value) == d.(id := None)
  {
  }
}
