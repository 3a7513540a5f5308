# Expenses tracker: expense queries and aggregation

A Dafny model of the expense side of the expenses-tracker Spring
application. It covers how an expense travels between the web layer's
`ExpenseDTO` and the `Expense` entity. It covers how `ExpenseService`
saves, lists, filters, updates and deletes a user's expenses. It covers
how `ExpenseSpecifications.withFilters` composes the query predicate, and
how `getYearlyExpenses` buckets the year's expenses into twelve monthly
totals. It also covers the two pieces of `ExpenseController` with logic of
their own: the `"field,direction"` sort string, and the defaults of the
filter endpoint.

Modules, one per file:

- `Wrappers` (wrappers.dfy): `Option`, `Result` and the exceptions the
  code can raise, as error values.
- `Calendar` (calendar.dfy): the part of `java.time` the queries rely on.
  This is ISO-8601 local date-times with nanoseconds, their order,
  `LocalDate.of`, `plusMonths(1)`, `plusYears(1)` and `minusNanos(1)`.
- `Text` (text.dfy): the `java.lang.String` behaviour the code depends on.
  This is `isBlank`, Spring's `hasText`, `toUpperCase(Locale.US)`,
  `equalsIgnoreCase`, and `split(",")` with its dropping of trailing
  empty strings.
- `Sorting` (sorting.dfy): Spring Data's `Sort.by` and
  `Sort.Direction.fromString`.
- `Expenses` (expenses.dfy): the entity, the DTO, their validity
  constraints and the two mappings.
- `ExpenseSpecifications` (expense_specifications.dfy): the predicate list
  that `withFilters` builds, and its SQL meaning.
- `ExpenseService` (expense_service.dfy): the date range and the sort of
  `filterExpenses`, and the ownership check. It also holds the repository
  (a class over the rows of the expenses table, kept in id order), the
  service class itself, and the year-to-date report.
- `ExpenseController` (controller.dfy): sort-string parsing and request
  parameter defaults.

Amounts of money are integers, for example cents. Owners are compared by
user id.

## Model

Source paths are relative to the repository root.

| member | source | states |
|---|---|---|
| Calendar.PredecessorIsGreatestBelow | src/main/java/com/nicolas/expenses_tracker/service/expense/ExpenseService.java:135-137 | `minusNanos(1)` yields the greatest valid instant strictly before its argument: u is before t iff u is not after the predecessor. |
| Calendar.Predecessor | src/main/java/com/nicolas/expenses_tracker/service/expense/ExpenseService.java:136-137 | `minusNanos(1)` borrows through nanosecond, second, minute, hour, day, month and year, and yields a valid instant strictly before its argument. |
| Calendar.ClosedEndIsHalfOpen | src/main/java/com/nicolas/expenses_tracker/service/expense/ExpenseService.java:134-137 | A closed range ending one nanosecond before `next` selects exactly the instants of the half-open range ending at `next`. |
| Calendar.StartOfDay | src/main/java/com/nicolas/expenses_tracker/service/expense/ExpenseService.java:134 | `LocalDate.of(y, m, d).atStartOfDay()` succeeds iff year, month and day are in range, and then yields midnight of that day. |
| Calendar.PlusOneMonth | src/main/java/com/nicolas/expenses_tracker/service/expense/ExpenseService.java:136 | `plusMonths(1)` fails only past the largest year; otherwise it yields a valid, strictly later instant. |
| Calendar.PlusOneYear | src/main/java/com/nicolas/expenses_tracker/service/expense/ExpenseService.java:137 | `plusYears(1)` fails only past the largest year; otherwise it yields a valid, strictly later instant. |
| ExpenseService.DateRange | src/main/java/com/nicolas/expenses_tracker/service/expense/ExpenseService.java:128-138 | No year means no range, and the month is ignored. A month outside 1..12, or a year outside java.time's range, fails rather than being clamped, and so does a period whose next start would lie past year 999 999 999 (the whole of that year, or its December). Otherwise the range starts at the first instant of the month (or January) and ends at the last instant of the month (or December). |
| ExpenseService.DateRangeSelectsPeriod | src/main/java/com/nicolas/expenses_tracker/service/expense/ExpenseService.java:133-138 | An instant lies in the derived range iff it is in the requested year, and in the requested month when one is given. |
| ExpenseService.DateRangeEndsBeforeNextPeriod | src/main/java/com/nicolas/expenses_tracker/service/expense/ExpenseService.java:134-137 | The end is one nanosecond before the next month's or year's first instant, with December rolling over to January of the next year. An instant is not after the end iff it is before that next start. |
| ExpenseService.ResolveSort | src/main/java/com/nicolas/expenses_tracker/service/expense/ExpenseService.java:141-143 | The order is descending iff the direction equals "desc" ignoring case. Any other direction is ascending and never an error. The only failure is a `sortBy` without text. |
| ExpenseService.DescSpellings | src/main/java/com/nicolas/expenses_tracker/service/expense/ExpenseService.java:141 | The exact set of four-letter strings that `equalsIgnoreCase("desc")` accepts. |
| ExpenseService.CheckValidExpense | src/main/java/com/nicolas/expenses_tracker/service/expense/ExpenseService.java:54-61 | "Invalid" iff the expense is absent or owned by another user. |
| ExpenseService.Lookup | src/main/java/com/nicolas/expenses_tracker/service/expense/ExpenseService.java:68 | `findById` finds a row iff some row carries the id, and what it finds is such a row. |
| ExpenseService.Query | src/main/java/com/nicolas/expenses_tracker/service/expense/ExpenseService.java:146 | `findAll(spec)` selects exactly the rows matching every predicate. |
| ExpenseService.QueryIsAdmit | src/main/java/com/nicolas/expenses_tracker/service/expense/ExpenseService.java:145-146 | A predicate list equivalent to the filters selects the same rows, in the same order, as the reference reading of the filters. |
| ExpenseService.WithoutRemovesOne | src/main/java/com/nicolas/expenses_tracker/service/expense/ExpenseService.java:73 | With unique ids, deleting a present id removes exactly one row, and deleting an absent id removes none. |
| ExpenseService.WithoutKeepsOrder | src/main/java/com/nicolas/expenses_tracker/service/expense/ExpenseService.java:73 | Deleting a row keeps the remaining rows in increasing id order. |
| ExpenseService.ExpenseRepository.Insert | src/main/java/com/nicolas/expenses_tracker/service/expense/ExpenseService.java:36 | `save` of a new entity appends it under the next sequence id and keeps the table's invariant. |
| ExpenseService.ExpenseRepository.Merge | src/main/java/com/nicolas/expenses_tracker/service/expense/ExpenseService.java:92 | `save` of an existing entity replaces the row with its id, and only that row. |
| ExpenseService.ExpenseRepository.Delete | src/main/java/com/nicolas/expenses_tracker/service/expense/ExpenseService.java:73 | `delete` removes the row with the entity's id and keeps the table's invariant. `WithoutRemovesOne` and `WithoutKeepsOrder` state what this removes. |
| ExpenseService.ExpenseRepository.FindById | src/main/java/com/nicolas/expenses_tracker/service/expense/ExpenseService.java:68 | `findById` answers what `Lookup` finds: a row with the id iff one exists. |
| ExpenseService.ExpenseRepository.FindAll | src/main/java/com/nicolas/expenses_tracker/service/expense/ExpenseService.java:146 | `findAll(spec)` answers what `Query` selects: exactly the rows matching every predicate, in table order. |
| ExpenseService.ExpenseService.SaveExpense | src/main/java/com/nicolas/expenses_tracker/service/expense/ExpenseService.java:33-38 | A null value fails and nothing is stored. Otherwise exactly one row is appended, carrying the user and the DTO's value, category and date under the next sequence id. The sequence advances by one, and the DTO comes back unchanged. |
| ExpenseService.ExpenseService.GetAllExpenses | src/main/java/com/nicolas/expenses_tracker/service/expense/ExpenseService.java:44-47 | The result holds exactly the DTOs of the user's rows, with the requested sort. It is the same list as filtering with no filter set. |
| ExpenseService.ExpenseService.DeleteExpense | src/main/java/com/nicolas/expenses_tracker/service/expense/ExpenseService.java:67-74 | Not-found iff the id is absent or owned by someone else, and then nothing changes. Otherwise only that one row disappears, and the id sequence does not move. |
| ExpenseService.ExpenseService.UpdateExpense | src/main/java/com/nicolas/expenses_tracker/service/expense/ExpenseService.java:82-94 | Not-found iff the id is absent or foreign. A null value fails with nothing saved. Otherwise only category, value and date of that row change, and id, owner, all other rows and the id sequence stay. The DTO of the updated row is returned. |
| ExpenseService.ExpenseService.FilterExpenses | src/main/java/com/nicolas/expenses_tracker/service/expense/ExpenseService.java:119-149 | A bad period fails first, then a `sortBy` without text. Otherwise the result is the DTOs of exactly the rows the filters admit, in table order, with the sort that `ResolveSort` gives. |
| ExpenseService.YearToDateSelects | src/main/java/com/nicolas/expenses_tracker/repository/expense/ExpenseRepository.java:21 | The year-to-date query `YearToDate` selects the user's expenses dated in now's year and not after now, both bounds included. |
| ExpenseService.YearToDateFetched | src/main/java/com/nicolas/expenses_tracker/service/expense/ExpenseService.java:157-163 | Every fetched DTO has a value and a date, and its month lies between January and now's month. |
| ExpenseService.InMonth | src/main/java/com/nicolas/expenses_tracker/service/expense/ExpenseService.java:174-176 | A bucket keeps the value and date of every DTO it holds, and is no longer than the fetch. |
| ExpenseService.InMonthMembers | src/main/java/com/nicolas/expenses_tracker/service/expense/ExpenseService.java:174-176 | A bucket holds exactly the fetched DTOs dated in its month. |
| ExpenseService.InMonthStep | src/main/java/com/nicolas/expenses_tracker/service/expense/ExpenseService.java:175 | Appending one DTO extends its own month's bucket by it and leaves the other buckets as they were. |
| ExpenseService.SumValuesAppend | src/main/java/com/nicolas/expenses_tracker/service/expense/ExpenseService.java:183-185 | Summing from 0 is additive over concatenation. |
| ExpenseService.BucketTotalStep | src/main/java/com/nicolas/expenses_tracker/service/expense/ExpenseService.java:174-185 | One more fetched DTO raises its month's total by its value and leaves the other totals alone. |
| ExpenseService.SumOfMonthsStep | src/main/java/com/nicolas/expenses_tracker/service/expense/ExpenseService.java:174-185 | One more fetched DTO raises the sum of the totals of months 1..n by its value iff its month is among them. |
| ExpenseService.MonthTotalsAddUp | src/main/java/com/nicolas/expenses_tracker/service/expense/ExpenseService.java:166-185 | Each fetched expense lands in exactly one bucket, so the twelve totals add up to the sum of all fetched values. |
| ExpenseService.InMonthNone | src/main/java/com/nicolas/expenses_tracker/service/expense/ExpenseService.java:174-176 | A month no fetched DTO is dated in has an empty bucket. |
| ExpenseService.FutureMonthsEmpty | src/main/java/com/nicolas/expenses_tracker/service/expense/ExpenseService.java:157-185 | The buckets of months after now's month are empty, and so total 0. |
| ExpenseService.SortIntoMonths | src/main/java/com/nicolas/expenses_tracker/service/expense/ExpenseService.java:166-176 | The bucketing loop: twelve lists, list i holding exactly the fetched DTOs of month i+1, in fetch order. |
| ExpenseService.ExpenseService.GetYearlyExpenses | src/main/java/com/nicolas/expenses_tracker/service/expense/ExpenseService.java:156-194 | Exactly twelve entries in calendar order. Entry i carries label i and the sum of the values of the fetched DTOs dated in month i+1. Every fetched DTO's month is in 1..12. |
| ExpenseSpecifications.WithFilters | src/main/java/com/nicolas/expenses_tracker/repository/expense/spec/ExpenseSpecifications.java:14-44 | The list opens with the owner predicate, the only one of its kind, and has 1 to 5 entries. The between-predicate is added iff both bounds are given, the category predicate iff the category is given and not blank, and each value bound iff it is given. An expense matches iff the reference reading admits it. |
| ExpenseSpecifications.ShapeMatches | src/main/java/com/nicolas/expenses_tracker/repository/expense/spec/ExpenseSpecifications.java:21-42 | ANDing the composed predicates (SQL semantics: NULL never matches, BETWEEN inclusive) means the same as the criterion-by-criterion reading. |
| ExpenseSpecifications.MatchesConcat | src/main/java/com/nicolas/expenses_tracker/repository/expense/spec/ExpenseSpecifications.java:42 | A conjunction of two lists holds iff each list's conjunction holds. |
| ExpenseSpecifications.ShapeMembers | src/main/java/com/nicolas/expenses_tracker/repository/expense/spec/ExpenseSpecifications.java:21-40 | Which predicates the composed list holds, each kind in both directions. |
| ExpenseSpecifications.NoFiltersOwnerOnly | src/main/java/com/nicolas/expenses_tracker/repository/expense/spec/ExpenseSpecifications.java:21-42 | With every optional argument null, exactly the owner's expenses match. |
| ExpenseSpecifications.MoreFiltersNarrow | src/main/java/com/nicolas/expenses_tracker/repository/expense/spec/ExpenseSpecifications.java:26-42 | Supplying more filters never lets more expenses through. |
| ExpenseSpecifications.InvertedBoundsAdmitNothing | src/main/java/com/nicolas/expenses_tracker/repository/expense/spec/ExpenseSpecifications.java:26-40 | A minimum above the maximum, or a start after the end, admits nothing. |
| Expenses.ToExpense | src/main/java/com/nicolas/expenses_tracker/dto/expense/ExpenseDTO.java:31-37 | `toExpense` fails exactly on a null value (the unboxing NullPointerException). Otherwise it copies value, category and date, and leaves id and owner unset. |
| Expenses.ToDTO | src/main/java/com/nicolas/expenses_tracker/dto/expense/ExpenseDTO.java:39-46 | `toDTO` copies id, value, category and date, and its value is never null. |
| Expenses.ToExpenseOfToDTO | src/main/java/com/nicolas/expenses_tracker/dto/expense/ExpenseDTO.java:31-46 | Entity to DTO to entity keeps everything but id and owner. |
| Expenses.ToDTOOfToExpense | src/main/java/com/nicolas/expenses_tracker/dto/expense/ExpenseDTO.java:31-46 | DTO to entity to DTO keeps everything but the id. |
| Expenses.ValidDTOConverts | src/main/java/com/nicolas/expenses_tracker/dto/expense/ExpenseDTO.java:21-29 | A valid DTO has a positive value, a category and a date, and always converts. |
| Sorting.SortBy | src/main/java/com/nicolas/expenses_tracker/controller/expense/ExpenseController.java:90-92 | `Sort.by` fails iff the property has no text, and otherwise keeps direction and property. |
| Sorting.DirectionFromString | src/main/java/com/nicolas/expenses_tracker/controller/expense/ExpenseController.java:90 | `Direction.fromString` accepts exactly "asc" and "desc" in any letter case, and fails with an invalid-direction error on every other token. |
| Text.SplitAllJoin | src/main/java/com/nicolas/expenses_tracker/controller/expense/ExpenseController.java:88 | Splitting, before trailing empty pieces are dropped, loses nothing: joining the pieces rebuilds the string, and no piece contains the separator. |
| Text.Split | src/main/java/com/nicolas/expenses_tracker/controller/expense/ExpenseController.java:88 | `split(",")`: a string without a comma is its own single piece. Otherwise the pieces are those of the empty-keeping split with the trailing empty ones dropped, so the last piece is non-empty. No piece contains a comma. |
| Text.SplitAllConcat | src/main/java/com/nicolas/expenses_tracker/controller/expense/ExpenseController.java:88 | Splitting at one separator splits each side on its own. |
| Text.SplitAllOnlySeparators | src/main/java/com/nicolas/expenses_tracker/controller/expense/ExpenseController.java:88 | k separators alone give k + 1 empty pieces. |
| Text.SplitAllLastPiece | src/main/java/com/nicolas/expenses_tracker/controller/expense/ExpenseController.java:88 | A string that does not end with the separator has a non-empty last piece. |
| Text.DropTrailingEmptyOfEmpties | src/main/java/com/nicolas/expenses_tracker/controller/expense/ExpenseController.java:88 | Empty pieces appended at the end are all dropped again. |
| Text.SplitFirstPiece | src/main/java/com/nicolas/expenses_tracker/controller/expense/ExpenseController.java:88-90 | With two or more pieces, the first piece is a prefix of the string followed by a comma. |
| Text.SplitIgnoresTrailingSeparators | src/main/java/com/nicolas/expenses_tracker/controller/expense/ExpenseController.java:88-89 | Any run of trailing commas after a string not ending in a comma adds no piece. |
| Text.SplitOnlySeparators | src/main/java/com/nicolas/expenses_tracker/controller/expense/ExpenseController.java:88-89 | A string of commas only has no pieces at all. |
| Text.EqualsIgnoreCaseByUpper | src/main/java/com/nicolas/expenses_tracker/service/expense/ExpenseService.java:141 | Against a lower-case ASCII word, `equalsIgnoreCase` agrees with comparing upper-cased strings. |
| Text.HasTextIsNotBlank | src/main/java/com/nicolas/expenses_tracker/repository/expense/spec/ExpenseSpecifications.java:30 | A string has text iff it is not blank. |
| ExpenseController.ParseSort | src/main/java/com/nicolas/expenses_tracker/controller/expense/ExpenseController.java:83-94 | No parameter gives (createdAt, DESC). Failures are only a bad direction or a field without text. A success either sorts by the whole parameter ascending, or by the comma-free text before its first comma. |
| ExpenseController.ParseSortFieldAndDirection | src/main/java/com/nicolas/expenses_tracker/controller/expense/ExpenseController.java:88-90 | "field,dir" followed by any run of commas sorts by field, ascending or descending as dir spells "asc" or "desc" in any letter case. Any other dir fails, checked before the field. |
| ExpenseController.ParseSortDirectionBeforeTrailingComma | src/main/java/com/nicolas/expenses_tracker/controller/expense/ExpenseController.java:88-90 | "value,desc," is two pieces once the trailing empty piece is dropped, so it sorts by value, descending. |
| ExpenseController.ParseSortTrailingCommas | src/main/java/com/nicolas/expenses_tracker/controller/expense/ExpenseController.java:88-93 | A field followed by one or more commas is one piece (or none), so the whole string, commas included, is the field, sorted ascending. |
| ExpenseController.ParseSortManyPieces | src/main/java/com/nicolas/expenses_tracker/controller/expense/ExpenseController.java:88-93 | Two or more commas before the trailing run give three or more pieces, so the whole string is the field, sorted ascending, and no direction is read. |
| ExpenseController.ParseSortBareField | src/main/java/com/nicolas/expenses_tracker/controller/expense/ExpenseController.java:91-93 | A string without a comma is the field, sorted ascending. |
| ExpenseController.ParamOrDefault | src/main/java/com/nicolas/expenses_tracker/controller/expense/ExpenseController.java:117-118 | A missing or empty request parameter takes the default; any other value is used as sent. |
| ExpenseController.FilterDefaults | src/main/java/com/nicolas/expenses_tracker/controller/expense/ExpenseController.java:117-118 | Without `sortBy` and `direction`, the filter endpoint sorts by createdAt, newest first. |

## Left out

- `Float`: values are integers (for example cents). Float rounding in the monthly sums is not modelled, and neither is the float comparison in the value bounds.
- ExpenseService.ExpenseService.GetYearlyExpenses: the clock is a parameter `now`. The code reads `LocalDateTime.now()` twice (for "now" and for the year of the first day), and the model takes one reading for both. The month labels come from `DateUtils`, which is not part of this model, and are passed in as twelve strings.
- ExpenseService.CheckValidExpense: compares owners by user id. The code compares `User` objects with `!=`, that is by instance identity, which has no counterpart over values.
- ExpenseService.ExpenseService.GetAllExpenses: the database orders the result by the Sort. The model returns the rows in table order together with the Sort it was asked for.
- ExpenseService.ExpenseService.FilterExpenses: the same applies here. The database orders the result, and the model returns the rows in table order with the Sort.
- ExpenseService.ExpenseService.UpdateExpense: the code mutates the fetched entity and then calls `save`. The model replaces the row with the updated value, so entity aliasing is not captured.
- `Text.Upper`: `toUpperCase(Locale.US)` is modelled for ASCII letters and for U+017F, which upper-cases to 'S'. Other Unicode case mappings and multi-character expansions are not modelled. They can only matter for `equalsIgnoreCase("desc")` and `Direction.fromString`.
- A sort property that is not an entity field is accepted by the model. The database layer rejects it when the query runs, and that layer is not modelled.
- The store is taken to keep `createdAt` to the nanosecond, as `LocalDateTime` does. A database column holding microseconds would round the range end 23:59:59.999999999 before comparing; that is not modelled, and `DateRangeSelectsPeriod` depends on it.
- Spring MVC's type conversion and binding of request parameters (a year that is not a number, for instance) is not modelled. Bean validation is stated as a predicate on the DTO and is not an executable step.
- The HTTP responses of the controller, authentication, and the lookup of the user from the token are not modelled.
