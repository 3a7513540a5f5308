/** ExpenseSpecifications.withFilters: the query predicate of the filter
    endpoint, built as a list of atomic predicates that are ANDed. The owner
    predicate is mandatory; the date range, the category and each value
    bound are optional. */
module ExpenseSpecifications {
  import opened Wrappers
  import opened Calendar
  import opened Text
  import opened Expenses

  /** One atomic criteria-API predicate on an Expense row. */
  datatype Predicate =
    | OwnerIs(owner: OwnerId)                          // equal(user)
    | CreatedBetween(start: Timestamp, end: Timestamp) // between(createdAt, start, end)
    | CategoryIs(category: string)                     // equal(category)
    | ValueAtLeast(bound: int)                         // greaterThanOrEqualTo(value)
    | ValueAtMost(bound: int)                          // lessThanOrEqualTo(value)

  /** The optional arguments of withFilters; None stands for null. */
  datatype Filters = Filters(start: Option<Timestamp>, end: Option<Timestamp>,
                             category: Option<string>,
                             minValue: Option<int>, maxValue: Option<int>)

  const NoFilters: Filters := Filters(None, None, None, None, None)

  /** SQL semantics of one predicate: a comparison with a NULL column is
      never satisfied, and BETWEEN includes both bounds. */
  predicate Holds(p: Predicate, e: Expense) {
    match p
    case OwnerIs(u) => e.owner == Some(u)
    case CreatedBetween(s, t) => e.createdAt.Some? && InInterval(e.createdAt.value, Interval(s, t))
    case CategoryIs(c) => e.category == Some(c)
    case ValueAtLeast(b) => e.value >= b
    case ValueAtMost(b) => e.value <= b
  }

  /** criteriaBuilder.and(predicates): every predicate holds. */
  predicate Matches(e: Expense, preds: seq<Predicate>) {
    forall i :: 0 <= i < |preds| ==> Holds(preds[i], e)
  }

  /** Reference reading of the filter, criterion by criterion: the owner
      always, the date range when both ends are given, the category when it
      is given and not blank, each value bound when it is given. */
  predicate Admitted(e: Expense, user: OwnerId, f: Filters) {
    && e.owner == Some(user)
    && (f.start.Some? && f.end.Some? ==>
          e.createdAt.Some? && NotAfter(f.start.value, e.createdAt.value)
          && NotAfter(e.createdAt.value, f.end.value))
    && (f.category.Some? && !IsBlank(f.category.value) ==> e.category == f.category)
    && (f.minValue.Some? ==> e.value >= f.minValue.value)
    && (f.maxValue.Some? ==> e.value <= f.maxValue.value)
  }

  function Count(b: bool): nat { if b then 1 else 0 }

  /** The one-element list [p] when the code adds p, else nothing. */
  function Optional(added: bool, p: Predicate): seq<Predicate> {
    if added then [p] else []
  }

  predicate HasDateRange(f: Filters) { f.start.Some? && f.end.Some? }
  predicate HasCategory(f: Filters) { f.category.Some? && !IsBlank(f.category.value) }

  /** The list withFilters builds, written as one concatenation. */
  ghost function Shape(user: OwnerId, f: Filters): seq<Predicate> {
    [OwnerIs(user)]
    + Optional(HasDateRange(f), CreatedBetween(f.start.GetOr(Earliest), f.end.GetOr(Earliest)))
    + Optional(HasCategory(f), CategoryIs(f.category.GetOr("")))
    + Optional(f.minValue.Some?, ValueAtLeast(f.minValue.GetOr(0)))
    + Optional(f.maxValue.Some?, ValueAtMost(f.maxValue.GetOr(0)))
  }

  lemma MatchesOptional(e: Expense, added: bool, p: Predicate)
    ensures Matches(e, Optional(added, p)) <==> (added ==> Holds(p, e))
    ensures Matches(e, [p]) <==> Holds(p, e)
  {
    assert [p][0] == p;
  }

  lemma {:induction false} MatchesConcat(e: Expense, a: seq<Predicate>, b: seq<Predicate>)
    ensures Matches(e, a + b) <==> Matches(e, a) && Matches(e, b)
  {
    if Matches(e, a) && Matches(e, b) {
      forall i | 0 <= i < |a + b| ensures Holds((a + b)[i], e) {
        if i >= |a| { assert (a + b)[i] == b[i - |a|]; }
      }
    }
    if Matches(e, a + b) {
      forall i | 0 <= i < |b| ensures Holds(b[i], e) {
        assert (a + b)[|a| + i] == b[i];
      }
      forall i | 0 <= i < |a| ensures Holds(a[i], e) {
        assert (a + b)[i] == a[i];
      }
    }
  }

  /** Matching the built list is the reference reading of the filters. */
  lemma ShapeMatches(e: Expense, user: OwnerId, f: Filters)
    ensures Matches(e, Shape(user, f)) <==> Admitted(e, user, f)
  {
    var p0 := [OwnerIs(user)];
    var p1 := Optional(HasDateRange(f), CreatedBetween(f.start.GetOr(Earliest), f.end.GetOr(Earliest)));
    var p2 := Optional(HasCategory(f), CategoryIs(f.category.GetOr("")));
    var p3 := Optional(f.minValue.Some?, ValueAtLeast(f.minValue.GetOr(0)));
    var p4 := Optional(f.maxValue.Some?, ValueAtMost(f.maxValue.GetOr(0)));
    MatchesConcat(e, p0 + p1 + p2 + p3, p4);
    MatchesConcat(e, p0 + p1 + p2, p3);
    MatchesConcat(e, p0 + p1, p2);
    MatchesConcat(e, p0, p1);
    MatchesOptional(e, true, OwnerIs(user));
    MatchesOptional(e, HasDateRange(f), CreatedBetween(f.start.GetOr(Earliest), f.end.GetOr(Earliest)));
    MatchesOptional(e, HasCategory(f), CategoryIs(f.category.GetOr("")));
    MatchesOptional(e, f.minValue.Some?, ValueAtLeast(f.minValue.GetOr(0)));
    MatchesOptional(e, f.maxValue.Some?, ValueAtMost(f.maxValue.GetOr(0)));
  }

  /** Which predicates the built list holds, each in both directions. */
  lemma ShapeMembers(user: OwnerId, f: Filters)
    ensures forall u :: OwnerIs(u) in Shape(user, f) <==> u == user
    ensures forall s, t :: CreatedBetween(s, t) in Shape(user, f)
                           <==> f.start == Some(s) && f.end == Some(t)
    ensures forall c :: CategoryIs(c) in Shape(user, f) <==> f.category == Some(c) && !IsBlank(c)
    ensures forall b :: ValueAtLeast(b) in Shape(user, f) <==> f.minValue == Some(b)
    ensures forall b :: ValueAtMost(b) in Shape(user, f) <==> f.maxValue == Some(b)
  {
  }

  /** withFilters: the predicate list in the order the code adds them. */
  method WithFilters(user: OwnerId, f: Filters) returns (preds: seq<Predicate>)
    ensures 1 <= |preds| <= 5
    ensures |preds| == 1 + Count(HasDateRange(f)) + Count(HasCategory(f))
                         + Count(f.minValue.Some?) + Count(f.maxValue.Some?)
    ensures preds[0] == OwnerIs(user)
    ensures forall i :: 1 <= i < |preds| ==> !preds[i].OwnerIs?
    ensures forall s, t :: CreatedBetween(s, t) in preds <==> f.start == Some(s) && f.end == Some(t)
    ensures forall c :: CategoryIs(c) in preds <==> f.category == Some(c) && !IsBlank(c)
    ensures forall b :: ValueAtLeast(b) in preds <==> f.minValue == Some(b)
    ensures forall b :: ValueAtMost(b) in preds <==> f.maxValue == Some(b)
    ensures forall e :: Matches(e, preds) <==> Admitted(e, user, f)
  {
    ghost var p1 := Optional(HasDateRange(f), CreatedBetween(f.start.GetOr(Earliest), f.end.GetOr(Earliest)));
    ghost var p2 := Optional(HasCategory(f), CategoryIs(f.category.GetOr("")));
    ghost var p3 := Optional(f.minValue.Some?, ValueAtLeast(f.minValue.GetOr(0)));
    ghost var p4 := Optional(f.maxValue.Some?, ValueAtMost(f.maxValue.GetOr(0)));
    preds := [OwnerIs(user)];
    if f.start.Some? && f.end.Some? {
      preds := preds + [CreatedBetween(f.start.value, f.end.value)];
    }
    assert preds == [OwnerIs(user)] + p1;
    if f.category.Some? && !IsBlank(f.category.value) {
      preds := preds + [CategoryIs(f.category.value)];
    }
    assert preds == [OwnerIs(user)] + p1 + p2;
    if f.minValue.Some? {
      preds := preds + [ValueAtLeast(f.minValue.value)];
    }
    assert preds == [OwnerIs(user)] + p1 + p2 + p3;
    if f.maxValue.Some? {
      preds := preds + [ValueAtMost(f.maxValue.value)];
    }
    assert preds == Shape(user, f);
    ShapeMembers(user, f);
    forall e ensures Matches(e, preds) <==> Admitted(e, user, f) {
      ShapeMatches(e, user, f);
    }
  }

  /** With every optional argument null exactly the owner's expenses match. */
  lemma NoFiltersOwnerOnly(e: Expense, user: OwnerId)
    ensures Admitted(e, user, NoFilters) <==> e.owner == Some(user)
  {
  }

  /** g supplies every filter f supplies, with the same value, and maybe more. */
  predicate Extends(g: Filters, f: Filters) {
    && (f.start.Some? ==> g.start == f.start)
    && (f.end.Some? ==> g.end == f.end)
    && (f.category.Some? ==> g.category == f.category)
    && (f.minValue.Some? ==> g.minValue == f.minValue)
    && (f.maxValue.Some? ==> g.maxValue == f.maxValue)
  }

  /** Supplying more filters never lets more expenses through. */
  lemma MoreFiltersNarrow(e: Expense, user: OwnerId, f: Filters, g: Filters)
    requires Extends(g, f)
    ensures Admitted(e, user, g) ==> Admitted(e, user, f)
  {
  }

  /** A minimum above the maximum, or a start after the end, admits nothing. */
  lemma InvertedBoundsAdmitNothing(e: Expense, user: OwnerId, f: Filters)
    requires || (f.minValue.Some? && f.maxValue.Some? && f.minValue.value > f.maxValue.value)
             || (f.start.Some? && f.end.Some? && Before(f.end.value, f.start.value))
    ensures !Admitted(e, user, f)
  {
    if f.start.Some? && f.end.Some? && e.createdAt.Some? {
      BeforeIsStrictTotalOrder(f.end.value, e.createdAt.value, f.start.value);
      BeforeIsStrictTotalOrder(e.createdAt.value, f.start.value, f.end.value);
    }
  }
}
