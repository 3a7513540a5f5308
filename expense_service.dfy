/** ExpenseService: saving, listing, filtering, updating and deleting a
    user's expenses, and the year-to-date report of monthly totals. The
    ExpenseRepository it delegates to is modelled as a class over the rows
    of the expenses table. */
module ExpenseService {
  import opened Wrappers
  import opened Calendar
  import opened Text
  import opened Sorting
  import opened Expenses
  import opened ExpenseSpecifications

  // ---------------------------------------------------------------------
  // Date range of filterExpenses

  /** The year/month pairs for which filterExpenses throws: LocalDate.of
      rejects the year or the month, or the next period starts past
      Year.MAX_VALUE. A null month stands for the whole year. */
  predicate PeriodRejected(year: int, month: Option<int>) {
    || !(MinYear <= year <= MaxYear)
    || !(1 <= month.GetOr(1) <= 12)
    || (year == MaxYear && month.GetOr(12) == 12)
  }

  /** The first instant after the period: start.plusMonths(1) with a month,
      start.plusYears(1) without. */
  function NextPeriodStart(start: Timestamp, month: Option<int>): Result<Timestamp>
    requires IsValid(start)
  {
    if month.Some? then PlusOneMonth(start) else PlusOneYear(start)
  }

  /** filterExpenses, lines 128-138: no year gives no range at all (the
      month is ignored). A year or month LocalDate.of rejects fails, and so
      does a period whose next start would lie past year 999 999 999 (the
      whole of that year, or its December). Otherwise the range runs from
      the first instant of the month (or of January) to one nanosecond
      before the next month (or year) starts. */
  function DateRange(year: Option<int>, month: Option<int>): (r: Result<Option<Interval>>)
    ensures year.None? ==> r == Ok(None)
    ensures year.Some? ==> (r.Err? <==> PeriodRejected(year.value, month))
    ensures r.Err? ==> r.error == InvalidDate
    ensures year.Some? && r.Ok? ==>
              && r.value.Some?
              && IsValid(r.value.value.start) && IsValid(r.value.value.end)
              && r.value.value.start == Timestamp(year.value, month.GetOr(1), 1, 0, 0, 0, 0)
              && r.value.value.end
                   == EndOfDay(year.value, month.GetOr(12), DaysInMonth(year.value, month.GetOr(12)))
  {
    if year.None? then Ok(None)
    else
      match StartOfDay(year.value, month.GetOr(1), 1)
      case Err(e) => Err(e)
      case Ok(start) =>
        match NextPeriodStart(start, month)
        case Err(e) => Err(e)
        case Ok(next) =>
          assert next != Earliest by { BeforeIsStrictTotalOrder(start, next, Earliest); }
          Ok(Some(Interval(start, Predecessor(next))))
  }

  /** The derived range holds exactly the instants of the requested year,
      and of the requested month when one is given. */
  lemma DateRangeSelectsPeriod(year: int, month: Option<int>, t: Timestamp)
    requires DateRange(Some(year), month).Ok? && IsValid(t)
    ensures InInterval(t, DateRange(Some(year), month).value.value)
            <==> t.year == year && (month.None? || t.month == month.value)
  {
  }

  /** The range's end is one nanosecond before the next period's start: the
      greatest instant strictly below it. December rolls over into January
      of the next year. */
  lemma DateRangeEndsBeforeNextPeriod(year: int, month: Option<int>, u: Timestamp)
    requires DateRange(Some(year), month).Ok? && IsValid(u)
    ensures var next := if month.Some? && month.value < 12
                        then Timestamp(year, month.value + 1, 1, 0, 0, 0, 0)
                        else Timestamp(year + 1, 1, 1, 0, 0, 0, 0);
            && IsValid(next) && next != Earliest
            && DateRange(Some(year), month).value.value.end == Predecessor(next)
            && (NotAfter(u, DateRange(Some(year), month).value.value.end) <==> Before(u, next))
  {
    var next := if month.Some? && month.value < 12
                then Timestamp(year, month.value + 1, 1, 0, 0, 0, 0)
                else Timestamp(year + 1, 1, 1, 0, 0, 0, 0);
    PredecessorIsGreatestBelow(next, u);
  }

  // ---------------------------------------------------------------------
  // Sort of filterExpenses

  /** filterExpenses, lines 141-143: Sort.by(sortBy) then descending() when
      the direction is "desc" in any letter case, ascending() otherwise.
      Only Sort.by can throw: a sortBy without text. */
  function ResolveSort(sortBy: string, direction: string): (r: Result<Order>)
    ensures r.Ok? <==> HasText(sortBy)
    ensures r.Err? ==> r.error == EmptySortProperty
    ensures r.Ok? ==> r.value.property == sortBy
    ensures r.Ok? ==> (r.value.direction == Desc <==> EqualsIgnoreCase(direction, "desc"))
  {
    match SortBy(Asc, sortBy)
    case Err(e) => Err(e)
    case Ok(order) =>
      if EqualsIgnoreCase(direction, "desc") then Ok(order.(direction := Desc))
      else Ok(order.(direction := Asc))
  }

  /** The spellings that select descending order: d, e, s, c in either case,
      the s also as U+017F (long s), which Java upper-cases to S. */
  lemma DescSpellings(direction: string)
    ensures EqualsIgnoreCase(direction, "desc")
            <==> && |direction| == 4
                 && (direction[0] == 'd' || direction[0] == 'D')
                 && (direction[1] == 'e' || direction[1] == 'E')
                 && (direction[2] == 's' || direction[2] == 'S' || direction[2] == 'ſ')
                 && (direction[3] == 'c' || direction[3] == 'C')
  {
    if |direction| == 4 {
      assert CharEqualsIgnoreCase(direction[0], 'd') <==> direction[0] == 'd' || direction[0] == 'D';
      assert CharEqualsIgnoreCase(direction[1], 'e') <==> direction[1] == 'e' || direction[1] == 'E';
      assert CharEqualsIgnoreCase(direction[2], 's')
             <==> direction[2] == 's' || direction[2] == 'S' || direction[2] == 'ſ';
      assert CharEqualsIgnoreCase(direction[3], 'c') <==> direction[3] == 'c' || direction[3] == 'C';
    }
  }

  // ---------------------------------------------------------------------
  // Ownership check

  /** checkValidExpense: despite its name it answers "is the expense
      unusable", true when it is absent or belongs to someone else. Owners
      are compared by identifier. */
  function CheckValidExpense(user: OwnerId, expense: Option<Expense>): (invalid: bool)
    ensures invalid <==> expense.None? || expense.value.owner != Some(user)
  {
    if expense.Some? && expense.value.owner != Some(user) then true
    else expense.None?
  }

  // ---------------------------------------------------------------------
  // The rows of the expenses table and the queries over them

  /** The first row carrying the given id: findById. */
  function Lookup(rows: seq<Expense>, id: int): (r: Option<Expense>)
    ensures r.Some? <==> exists k :: 0 <= k < |rows| && rows[k].id == Some(id)
    ensures r.Some? ==> r.value in rows && r.value.id == Some(id)
  {
    if |rows| == 0 then None
    else if rows[0].id == Some(id) then Some(rows[0])
    else Lookup(rows[1..], id)
  }

  /** The rows without the one carrying the given id, order kept. */
  function Without(rows: seq<Expense>, id: int): (r: seq<Expense>)
    ensures forall e :: e in r <==> e in rows && e.id != Some(id)
    ensures |r| <= |rows|
  {
    if |rows| == 0 then []
    else if rows[0].id == Some(id) then Without(rows[1..], id)
    else [rows[0]] + Without(rows[1..], id)
  }

  /** The rows with the one carrying e's id replaced by e. */
  function Replace(rows: seq<Expense>, e: Expense): (r: seq<Expense>)
    ensures |r| == |rows|
    ensures forall k :: 0 <= k < |rows| ==> r[k] == if rows[k].id == e.id then e else rows[k]
  {
    seq(|rows|, k requires 0 <= k < |rows| => if rows[k].id == e.id then e else rows[k])
  }

  /** The rows matching every predicate, in table order. */
  function Query(rows: seq<Expense>, preds: seq<Predicate>): (r: seq<Expense>)
    ensures forall e :: e in r <==> e in rows && Matches(e, preds)
    ensures |r| <= |rows|
  {
    if |rows| == 0 then []
    else if Matches(rows[0], preds) then [rows[0]] + Query(rows[1..], preds)
    else Query(rows[1..], preds)
  }

  /** The rows the reference reading of the filters admits, in table order. */
  function Admit(rows: seq<Expense>, user: OwnerId, f: Filters): (r: seq<Expense>)
    ensures forall e :: e in r <==> e in rows && Admitted(e, user, f)
  {
    if |rows| == 0 then []
    else if Admitted(rows[0], user, f) then [rows[0]] + Admit(rows[1..], user, f)
    else Admit(rows[1..], user, f)
  }

  /** Running a predicate list that means the same as the filters selects
      the same rows, in the same order and number. */
  lemma {:induction false} QueryIsAdmit(rows: seq<Expense>, preds: seq<Predicate>, user: OwnerId, f: Filters)
    requires forall e :: Matches(e, preds) <==> Admitted(e, user, f)
    ensures Query(rows, preds) == Admit(rows, user, f)
  {
    if |rows| > 0 {
      QueryIsAdmit(rows[1..], preds, user, f);
    }
  }

  function ToDTOs(es: seq<Expense>): (ds: seq<ExpenseDTO>)
    ensures |ds| == |es| && forall k :: 0 <= k < |es| ==> ds[k] == ToDTO(es[k])
  {
    seq(|es|, k requires 0 <= k < |es| => ToDTO(es[k]))
  }

  /** The expenses table. Rows are kept in id order: the sequence generator
      hands out increasing ids and updates keep a row in place. Every row
      has an id and an owner. */
  class ExpenseRepository {
    var rows: seq<Expense>
    var nextId: int

    ghost predicate Valid()
      reads this
    {
      && (forall k :: 0 <= k < |rows| ==>
            rows[k].id.Some? && rows[k].owner.Some? && rows[k].id.value < nextId)
      && (forall j, k :: 0 <= j < k < |rows| ==> rows[j].id.value < rows[k].id.value)
    }

    constructor ()
      ensures Valid() && rows == []
    {
      rows := [];
      nextId := 1;
    }

    method FindById(id: int) returns (r: Option<Expense>)
      ensures r == Lookup(rows, id)
    {
      r := Lookup(rows, id);
    }

    /** save of an entity without id: a new row with the next generated id. */
    method Insert(e: Expense) returns (saved: Expense)
      requires Valid() && e.id.None? && e.owner.Some?
      modifies this
      ensures Valid()
      ensures saved == e.(id := Some(old(nextId)))
      ensures rows == old(rows) + [saved] && nextId == old(nextId) + 1
    {
      saved := e.(id := Some(nextId));
      rows := rows + [saved];
      nextId := nextId + 1;
    }

    /** save of an entity whose id is in the table: its row is overwritten. */
    method Merge(e: Expense)
      requires Valid() && e.id.Some? && e.owner.Some? && Lookup(rows, e.id.value).Some?
      modifies this
      ensures Valid()
      ensures rows == Replace(old(rows), e) && nextId == old(nextId)
    {
      rows := Replace(rows, e);
    }

    /** delete(entity) */
    method Delete(e: Expense)
      requires Valid() && e.id.Some?
      modifies this
      ensures Valid()
      ensures rows == Without(old(rows), e.id.value) && nextId == old(nextId)
    {
      rows := Without(rows, e.id.value);
      WithoutKeepsOrder(old(rows), e.id.value);
    }

    /** findAll(specification, sort), before the database orders the result. */
    method FindAll(preds: seq<Predicate>) returns (r: seq<Expense>)
      ensures r == Query(rows, preds)
    {
      r := Query(rows, preds);
    }
  }

  /** Removing a row keeps the others in their relative order. */
  lemma {:induction false} WithoutKeepsOrder(rows: seq<Expense>, id: int)
    requires forall k :: 0 <= k < |rows| ==> rows[k].id.Some?
    requires forall j, k :: 0 <= j < k < |rows| ==> rows[j].id.value < rows[k].id.value
    ensures forall k :: 0 <= k < |Without(rows, id)| ==> Without(rows, id)[k].id.Some?
    ensures forall j, k :: 0 <= j < k < |Without(rows, id)| ==>
              Without(rows, id)[j].id.value < Without(rows, id)[k].id.value
  {
    if |rows| > 0 {
      WithoutKeepsOrder(rows[1..], id);
      var rest := Without(rows[1..], id);
      if rows[0].id != Some(id) {
        forall k | 0 <= k < |rest| ensures rows[0].id.value < rest[k].id.value {
          assert rest[k] in rows[1..];
        }
      }
    }
  }

  /** With ids unique, deleting a present id removes exactly one row. */
  lemma {:induction false} WithoutRemovesOne(rows: seq<Expense>, id: int)
    requires forall j, k :: 0 <= j < k < |rows| ==> rows[j].id != rows[k].id
    ensures |Without(rows, id)| == if Lookup(rows, id).Some? then |rows| - 1 else |rows|
  {
    if |rows| > 0 {
      WithoutRemovesOne(rows[1..], id);
      if rows[0].id == Some(id) {
        assert Lookup(rows[1..], id).None? by {
          forall k | 0 <= k < |rows[1..]| ensures rows[1..][k].id != Some(id) {
            assert rows[1..][k] == rows[k + 1];
          }
        }
      } else {
        assert Lookup(rows, id) == Lookup(rows[1..], id);
      }
    }
  }

  // ---------------------------------------------------------------------
  // The year-to-date report

  /** MonthlyExpenseDTO */
  datatype MonthlyExpense = MonthlyExpense(value: int, month: string)

  /** A fetched DTO: toDTO of a row selected by a createdAt range. */
  predicate Dated(d: ExpenseDTO) {
    d.value.Some? && d.createdAt.Some?
  }

  predicate AllDated(ds: seq<ExpenseDTO>) {
    forall k :: 0 <= k < |ds| ==> Dated(ds[k])
  }

  function MonthOf(d: ExpenseDTO): int
    requires d.createdAt.Some?
  {
    d.createdAt.value.month
  }

  /** The DTOs of one month, in fetch order: one bucket. */
  function InMonth(ds: seq<ExpenseDTO>, m: int): (r: seq<ExpenseDTO>)
    requires AllDated(ds)
    ensures AllDated(r) && |r| <= |ds|
  {
    if |ds| == 0 then []
    else InMonth(ds[..|ds| - 1], m)
         + (if MonthOf(ds[|ds| - 1]) == m then [ds[|ds| - 1]] else [])
  }

  /** A bucket holds exactly the fetched DTOs dated in its month. */
  lemma {:induction false} InMonthMembers(ds: seq<ExpenseDTO>, m: int)
    requires AllDated(ds)
    ensures forall d :: d in InMonth(ds, m) <==> d in ds && MonthOf(d) == m
  {
    if |ds| > 0 {
      var init := ds[..|ds| - 1];
      InMonthMembers(init, m);
      assert ds == init + [ds[|ds| - 1]];
    }
  }

  /** reduce(0f, Float::sum) over the values, left to right. */
  function SumValues(ds: seq<ExpenseDTO>): int
    requires forall k :: 0 <= k < |ds| ==> ds[k].value.Some?
  {
    if |ds| == 0 then 0 else SumValues(ds[..|ds| - 1]) + ds[|ds| - 1].value.value
  }

  /** The totals of months 1..n added up. */
  function SumOfMonths(ds: seq<ExpenseDTO>, n: nat): int
    requires AllDated(ds)
  {
    if n == 0 then 0 else SumOfMonths(ds, n - 1) + SumValues(InMonth(ds, n))
  }

  /** The query of getYearlyExpenses: the user's rows dated from the first
      instant of now's year up to now, both ends included. */
  function YearToDate(user: OwnerId, now: LocalDateTime): seq<Predicate> {
    [OwnerIs(user), CreatedBetween(Timestamp(now.year, 1, 1, 0, 0, 0, 0), now)]
  }

  lemma YearToDateSelects(user: OwnerId, now: LocalDateTime, e: Expense)
    ensures Matches(e, YearToDate(user, now))
            <==> && e.owner == Some(user) && e.createdAt.Some?
                 && e.createdAt.value.year == now.year && NotAfter(e.createdAt.value, now)
  {
    assert YearToDate(user, now)[0] == OwnerIs(user);
    assert YearToDate(user, now)[1] == CreatedBetween(Timestamp(now.year, 1, 1, 0, 0, 0, 0), now);
    if e.createdAt.Some? {
      BeforeIsStrictTotalOrder(e.createdAt.value, now, Timestamp(now.year, 1, 1, 0, 0, 0, 0));
    }
  }

  lemma {:induction false} InMonthStep(ds: seq<ExpenseDTO>, d: ExpenseDTO, m: int)
    requires AllDated(ds) && Dated(d)
    ensures AllDated(ds + [d])
    ensures InMonth(ds + [d], m) == InMonth(ds, m) + (if MonthOf(d) == m then [d] else [])
  {
    assert (ds + [d])[..|ds|] == ds;
  }

  lemma {:induction false} SumValuesAppend(ds: seq<ExpenseDTO>, es: seq<ExpenseDTO>)
    requires forall k :: 0 <= k < |ds| ==> ds[k].value.Some?
    requires forall k :: 0 <= k < |es| ==> es[k].value.Some?
    ensures SumValues(ds + es) == SumValues(ds) + SumValues(es)
    decreases |es|
  {
    if |es| == 0 {
      assert ds + es == ds;
    } else {
      var es' := es[..|es| - 1];
      assert (ds + es)[..|ds + es| - 1] == ds + es';
      assert (ds + es)[|ds + es| - 1] == es[|es| - 1];
      SumValuesAppend(ds, es');
    }
  }

  /** Adding one more DTO raises its own month's bucket total by its value
      and leaves the other buckets' totals alone. */
  lemma BucketTotalStep(ds: seq<ExpenseDTO>, d: ExpenseDTO, m: int)
    requires AllDated(ds) && Dated(d)
    ensures AllDated(ds + [d])
    ensures SumValues(InMonth(ds + [d], m))
            == SumValues(InMonth(ds, m)) + (if MonthOf(d) == m then d.value.value else 0)
  {
    InMonthStep(ds, d, m);
    var extra := if MonthOf(d) == m then [d] else [];
    SumValuesAppend(InMonth(ds, m), extra);
    if MonthOf(d) == m {
      assert [d][..0] == [];
      assert SumValues([d]) == d.value.value;
    } else {
      assert SumValues(extra) == 0;
    }
  }

  /** Adding one more DTO raises the sum of months 1..n by its value when
      its month is among them. */
  lemma {:induction false} SumOfMonthsStep(ds: seq<ExpenseDTO>, d: ExpenseDTO, n: nat)
    requires AllDated(ds) && Dated(d)
    ensures AllDated(ds + [d])
    ensures SumOfMonths(ds + [d], n)
            == SumOfMonths(ds, n) + (if 1 <= MonthOf(d) <= n then d.value.value else 0)
  {
    if n > 0 {
      SumOfMonthsStep(ds, d, n - 1);
      BucketTotalStep(ds, d, n);
      assert SumOfMonths(ds + [d], n)
             == SumOfMonths(ds + [d], n - 1) + SumValues(InMonth(ds + [d], n));
    }
  }

  /** Every fetched expense lands in exactly one of the twelve buckets, so
      the twelve totals add up to the total of everything fetched. */
  lemma {:induction false} MonthTotalsAddUp(ds: seq<ExpenseDTO>)
    requires AllDated(ds)
    requires forall k :: 0 <= k < |ds| ==> 1 <= MonthOf(ds[k]) <= 12
    ensures SumOfMonths(ds, 12) == SumValues(ds)
    decreases |ds|
  {
    if |ds| == 0 {
      assert forall n: nat :: n <= 12 ==> InMonth(ds, n) == [];
      var n := 0;
      while n < 12
        invariant n <= 12 && SumOfMonths(ds, n) == 0
      {
        n := n + 1;
      }
    } else {
      var init := ds[..|ds| - 1];
      var last := ds[|ds| - 1];
      assert init + [last] == ds;
      MonthTotalsAddUp(init);
      SumOfMonthsStep(init, last, 12);
    }
  }

  /** No fetched expense is dated after now, so the buckets of the months
      still to come are empty and total 0. */
  lemma FutureMonthsEmpty(rows: seq<Expense>, user: OwnerId, now: LocalDateTime, m: int)
    requires now.month < m
    ensures AllDated(ToDTOs(Query(rows, YearToDate(user, now))))
    ensures InMonth(ToDTOs(Query(rows, YearToDate(user, now))), m) == []
  {
    var fetched := Query(rows, YearToDate(user, now));
    var ds := ToDTOs(fetched);
    YearToDateFetched(rows, user, now);
    forall k | 0 <= k < |ds| ensures MonthOf(ds[k]) != m {
      assert fetched[k] in fetched;
      YearToDateSelects(user, now, fetched[k]);
    }
    InMonthNone(ds, m);
  }

  lemma {:induction false} InMonthNone(ds: seq<ExpenseDTO>, m: int)
    requires AllDated(ds)
    requires forall k :: 0 <= k < |ds| ==> MonthOf(ds[k]) != m
    ensures InMonth(ds, m) == []
  {
    if |ds| > 0 {
      InMonthNone(ds[..|ds| - 1], m);
    }
  }

  /** What getYearlyExpenses fetches is dated, in now's year, so its months
      run from 1 to now's month. */
  lemma YearToDateFetched(rows: seq<Expense>, user: OwnerId, now: LocalDateTime)
    ensures var ds := ToDTOs(Query(rows, YearToDate(user, now)));
            && AllDated(ds)
            && forall k :: 0 <= k < |ds| ==> 1 <= MonthOf(ds[k]) <= now.month
  {
    var fetched := Query(rows, YearToDate(user, now));
    var ds := ToDTOs(fetched);
    forall k | 0 <= k < |ds|
      ensures ds[k].value.Some? && ds[k].createdAt.Some? && 1 <= MonthOf(ds[k]) <= now.month
    {
      assert fetched[k] in fetched;
      YearToDateSelects(user, now, fetched[k]);
    }
  }

  /** The bucketing loop of getYearlyExpenses: twelve empty lists, then
      each DTO appended, in fetch order, to the list of its month. */
  method SortIntoMonths(ds: seq<ExpenseDTO>) returns (buckets: seq<seq<ExpenseDTO>>)
    requires AllDated(ds)
    requires forall k :: 0 <= k < |ds| ==> 1 <= MonthOf(ds[k]) <= 12
    ensures |buckets| == 12
    ensures forall i :: 0 <= i < 12 ==> buckets[i] == InMonth(ds, i + 1)
  {
    var monthlyExpenses := new seq<ExpenseDTO>[12](_ => []);
    for k := 0 to |ds|
      invariant forall i :: 0 <= i < 12 ==> monthlyExpenses[i] == InMonth(ds[..k], i + 1)
    {
      var expense := ds[k];
      var m := expense.createdAt.value.month;
      monthlyExpenses[m - 1] := monthlyExpenses[m - 1] + [expense];
      assert ds[..k + 1] == ds[..k] + [expense];
      forall i | 0 <= i < 12
        ensures monthlyExpenses[i] == InMonth(ds[..k + 1], i + 1)
      {
        InMonthStep(ds[..k], expense, i + 1);
      }
    }
    assert ds[..|ds|] == ds;
    buckets := monthlyExpenses[..];
  }

  // ---------------------------------------------------------------------
  // The service

  /** A filtered listing: the selected rows as DTOs in table order, and the
      Sort the database orders them by. */
  datatype Listing = Listing(items: seq<ExpenseDTO>, order: Order)

  class ExpenseService {
    const repository: ExpenseRepository

    constructor (repository: ExpenseRepository)
      ensures this.repository == repository
    {
      this.repository := repository;
    }

    /** saveExpense: the DTO becomes a new row owned by the user; the DTO
        passed in is returned as it is (its id stays null). */
    method SaveExpense(dto: ExpenseDTO, user: OwnerId) returns (r: Result<ExpenseDTO>)
      requires repository.Valid()
      modifies repository
      ensures repository.Valid()
      ensures dto.value.None? ==> (r == Err(NullValue) && unchanged(repository))
      ensures dto.value.Some? ==>
                && r == Ok(dto)
                && repository.rows == old(repository.rows)
                     + [Expense(Some(old(repository.nextId)), Some(user), dto.value.value,
                                dto.category, dto.createdAt)]
                && repository.nextId == old(repository.nextId) + 1
    {
      var converted := ToExpense(dto);
      if converted.Err? {
        return Err(converted.error);
      }
      var expense := converted.value.(owner := Some(user));
      var _ := repository.Insert(expense);
      r := Ok(dto);
    }

    /** getAllExpenses: the user's rows as DTOs and the Sort the database
        orders them by; the same rows as filterExpenses with no filter set. */
    method GetAllExpenses(user: OwnerId, sort: Order) returns (r: Listing)
      ensures r.order == sort && |r.items| <= |repository.rows|
      ensures forall d :: d in r.items <==>
                exists e :: e in repository.rows && e.owner == Some(user) && d == ToDTO(e)
      ensures r.items == ToDTOs(Admit(repository.rows, user, NoFilters))
    {
      var found := repository.FindAll([OwnerIs(user)]);
      var items := ToDTOs(found);
      forall e ensures Matches(e, [OwnerIs(user)]) <==> Admitted(e, user, NoFilters) {
        MatchesOptional(e, true, OwnerIs(user));
      }
      QueryIsAdmit(repository.rows, [OwnerIs(user)], user, NoFilters);
      forall d ensures d in items <==> exists e :: e in repository.rows && e.owner == Some(user) && d == ToDTO(e) {
        if exists e :: e in repository.rows && e.owner == Some(user) && d == ToDTO(e) {
          var e :| e in repository.rows && e.owner == Some(user) && d == ToDTO(e);
          assert Matches(e, [OwnerIs(user)]);
          var k :| 0 <= k < |found| && found[k] == e;
          assert items[k] == d;
        }
        if d in items {
          var k :| 0 <= k < |items| && items[k] == d;
          assert found[k] in found;
          assert Holds([OwnerIs(user)][0], found[k]);
        }
      }
      r := Listing(items, sort);
    }

    /** deleteExpense: ExpenseNotFound exactly when the id is absent or
        owned by someone else; otherwise that one row disappears. */
    method DeleteExpense(id: int, user: OwnerId) returns (r: Result<()>)
      requires repository.Valid()
      modifies repository
      ensures repository.Valid()
      ensures r.Err? <==> CheckValidExpense(user, Lookup(old(repository.rows), id))
      ensures r.Err? ==> r.error == ExpenseNotFound && unchanged(repository)
      ensures r.Ok? ==> repository.rows == Without(old(repository.rows), id)
                        && |repository.rows| == |old(repository.rows)| - 1
                        && repository.nextId == old(repository.nextId)
    {
      var expense := repository.FindById(id);
      var isExpenseInvalid := CheckValidExpense(user, expense);
      if isExpenseInvalid {
        return Err(ExpenseNotFound);
      }
      WithoutRemovesOne(repository.rows, id);
      repository.Delete(expense.value);
      r := Ok(());
    }

    /** updateExpense: ExpenseNotFound exactly when the id is absent or owned
        by someone else. Otherwise category, value and createdAt are taken
        from the DTO (unvalidated: a null value throws while unboxing, and
        nothing is saved); id, owner and every other row stay as they were. */
    method UpdateExpense(id: int, user: OwnerId, dto: ExpenseDTO) returns (r: Result<ExpenseDTO>)
      requires repository.Valid()
      modifies repository
      ensures repository.Valid()
      ensures CheckValidExpense(user, Lookup(old(repository.rows), id)) ==>
                r == Err(ExpenseNotFound) && unchanged(repository)
      ensures !CheckValidExpense(user, Lookup(old(repository.rows), id)) && dto.value.None? ==>
                r == Err(NullValue) && unchanged(repository)
      ensures r.Ok? <==> !CheckValidExpense(user, Lookup(old(repository.rows), id)) && dto.value.Some?
      ensures r.Ok? ==>
                var before := Lookup(old(repository.rows), id).value;
                var after := before.(category := dto.category, value := dto.value.value,
                                     createdAt := dto.createdAt);
                && repository.rows == Replace(old(repository.rows), after)
                && r.value == ToDTO(after)
                && after.id == Some(id) && after.owner == Some(user)
                && repository.nextId == old(repository.nextId)
    {
      var expense := repository.FindById(id);
      var isExpenseInvalid := CheckValidExpense(user, expense);
      if isExpenseInvalid {
        return Err(ExpenseNotFound);
      }
      if dto.value.None? {
        return Err(NullValue);
      }
      var updated := expense.value.(category := dto.category, value := dto.value.value,
                                    createdAt := dto.createdAt);
      repository.Merge(updated);
      r := Ok(ToDTO(updated));
    }

    /** filterExpenses: the date range, the sort and the predicate list,
        run against the table. A bad year or month fails first, then a
        sortBy without text; otherwise the result is the user's rows that
        the filters admit, and the Sort to order them by. */
    method FilterExpenses(user: OwnerId, year: Option<int>, month: Option<int>,
                          category: Option<string>, minValue: Option<int>, maxValue: Option<int>,
                          sortBy: string, direction: string) returns (r: Result<Listing>)
      ensures DateRange(year, month).Err? ==> r == Err(InvalidDate)
      ensures DateRange(year, month).Ok? && !HasText(sortBy) ==> r == Err(EmptySortProperty)
      ensures r.Ok? <==> DateRange(year, month).Ok? && HasText(sortBy)
      ensures r.Ok? ==>
                var range := DateRange(year, month).value;
                var f := Filters(if range.Some? then Some(range.value.start) else None,
                                 if range.Some? then Some(range.value.end) else None,
                                 category, minValue, maxValue);
                && r.value.items == ToDTOs(Admit(repository.rows, user, f))
                && r.value.order == ResolveSort(sortBy, direction).value
    {
      var range := DateRange(year, month);
      if range.Err? {
        return Err(range.error);
      }
      var start := if range.value.Some? then Some(range.value.value.start) else None;
      var end := if range.value.Some? then Some(range.value.value.end) else None;
      var sort := ResolveSort(sortBy, direction);
      if sort.Err? {
        return Err(sort.error);
      }
      var f := Filters(start, end, category, minValue, maxValue);
      var spec := WithFilters(user, f);
      var found := repository.FindAll(spec);
      QueryIsAdmit(repository.rows, spec, user, f);
      r := Ok(Listing(ToDTOs(found), sort.value));
    }

    /** getYearlyExpenses: twelve buckets, each fetched DTO appended to the
        bucket of its month, each bucket summed from 0, and twelve labelled
        totals emitted in calendar order. */
    method GetYearlyExpenses(user: OwnerId, now: LocalDateTime, monthLabels: seq<string>)
      returns (results: seq<MonthlyExpense>)
      requires |monthLabels| == 12
      ensures var fetched := ToDTOs(Query(repository.rows, YearToDate(user, now)));
              && AllDated(fetched)
              && (forall k :: 0 <= k < |fetched| ==> 1 <= MonthOf(fetched[k]) <= 12)
              && |results| == 12
              && forall i :: 0 <= i < 12 ==>
                   results[i] == MonthlyExpense(SumValues(InMonth(fetched, i + 1)), monthLabels[i])
    {
      var found := repository.FindAll(YearToDate(user, now));
      var yearlyExpenses := ToDTOs(found);
      YearToDateFetched(repository.rows, user, now);

      var buckets := SortIntoMonths(yearlyExpenses);
      var monthlyTotals := seq(12, i requires 0 <= i < 12 => SumValues(buckets[i]));

      results := [];
      for i := 0 to 12
        invariant |results| == i
        invariant forall j :: 0 <= j < i ==>
                    results[j] == MonthlyExpense(monthlyTotals[j], monthLabels[j])
      {
        results := results + [MonthlyExpense(monthlyTotals[i], monthLabels[i])];
      }
    }
  }
}
