/** The part of java.time the expense queries rely on: ISO-8601 (proleptic
    Gregorian) local date-times with nanosecond precision, their order, and
    the month/year arithmetic and "minus one nanosecond" step used to build
    closed date ranges. */
module Calendar {
  import opened Wrappers

  /** Year bounds of java.time.Year (Year.MIN_VALUE, Year.MAX_VALUE). */
  const MinYear: int := -999_999_999
  const MaxYear: int := 999_999_999
  const MaxNano: int := 999_999_999

  /** A LocalDateTime: no zone, no offset. */
  datatype Timestamp = Timestamp(year: int, month: int, day: int,
                                 hour: int, minute: int, second: int, nano: int)

  /** A closed interval [start, end], as SQL BETWEEN reads it. */
  datatype Interval = Interval(start: Timestamp, end: Timestamp)

  /** IsoChronology.isLeapYear; Dafny's % and Java's % agree on "is zero". */
  predicate IsLeapYear(year: int) {
    year % 4 == 0 && (year % 100 != 0 || year % 400 == 0)
  }

  function DaysInMonth(year: int, month: int): (n: int)
    requires 1 <= month <= 12
    ensures 28 <= n <= 31
    ensures n == 29 <==> month == 2 && IsLeapYear(year)
  {
    if month == 2 then (if IsLeapYear(year) then 29 else 28)
    else if month == 4 || month == 6 || month == 9 || month == 11 then 30
    else 31
  }

  /** Every field within the range java.time accepts. */
  predicate IsValid(t: Timestamp) {
    && MinYear <= t.year <= MaxYear
    && 1 <= t.month <= 12
    && 1 <= t.day <= DaysInMonth(t.year, t.month)
    && 0 <= t.hour < 24
    && 0 <= t.minute < 60
    && 0 <= t.second < 60
    && 0 <= t.nano <= MaxNano
  }

  /** A LocalDateTime value: java.time never builds an invalid one. */
  type LocalDateTime = t: Timestamp | IsValid(t) witness Timestamp(MinYear, 1, 1, 0, 0, 0, 0)

  /** LocalDateTime.MIN */
  const Earliest: Timestamp := Timestamp(MinYear, 1, 1, 0, 0, 0, 0)

  /** Strict chronological order: lexicographic on the seven fields. */
  predicate Before(a: Timestamp, b: Timestamp) {
    if a.year != b.year then a.year < b.year
    else if a.month != b.month then a.month < b.month
    else if a.day != b.day then a.day < b.day
    else if a.hour != b.hour then a.hour < b.hour
    else if a.minute != b.minute then a.minute < b.minute
    else if a.second != b.second then a.second < b.second
    else a.nano < b.nano
  }

  predicate NotAfter(a: Timestamp, b: Timestamp) {
    !Before(b, a)
  }

  predicate InInterval(t: Timestamp, iv: Interval) {
    NotAfter(iv.start, t) && NotAfter(t, iv.end)
  }

  lemma BeforeIsStrictTotalOrder(a: Timestamp, b: Timestamp, c: Timestamp)
    ensures !Before(a, a)
    ensures Before(a, b) ==> !Before(b, a)
    ensures Before(a, b) && Before(b, c) ==> Before(a, c)
    ensures a != b ==> Before(a, b) || Before(b, a)
  {
  }

  /** LocalDate.of(year, month, day).atStartOfDay(), which throws
      DateTimeException for a field out of range. */
  function StartOfDay(year: int, month: int, day: int): (r: Result<Timestamp>)
    ensures r.Ok? <==> MinYear <= year <= MaxYear && 1 <= month <= 12
                       && 1 <= day <= DaysInMonth(year, month)
    ensures r.Ok? ==> IsValid(r.value)
                      && r.value == Timestamp(year, month, day, 0, 0, 0, 0)
  {
    if MinYear <= year <= MaxYear && 1 <= month <= 12 && 1 <= day <= DaysInMonth(year, month)
    then Ok(Timestamp(year, month, day, 0, 0, 0, 0))
    else Err(InvalidDate)
  }

  function Min(a: int, b: int): int { if a <= b then a else b }

  /** LocalDateTime.plusMonths(1): the day is clamped to the new month's
      length; a year past MaxYear throws DateTimeException. */
  function PlusOneMonth(t: Timestamp): (r: Result<Timestamp>)
    requires IsValid(t)
    ensures r.Ok? <==> t.month < 12 || t.year < MaxYear
    ensures r.Ok? ==> IsValid(r.value) && Before(t, r.value)
  {
    var (y, m) := if t.month == 12 then (t.year + 1, 1) else (t.year, t.month + 1);
    if y > MaxYear then Err(InvalidDate)
    else Ok(t.(year := y, month := m, day := Min(t.day, DaysInMonth(y, m))))
  }

  /** LocalDateTime.plusYears(1): 29 February becomes 28 February; a year
      past MaxYear throws DateTimeException. */
  function PlusOneYear(t: Timestamp): (r: Result<Timestamp>)
    requires IsValid(t)
    ensures r.Ok? <==> t.year < MaxYear
    ensures r.Ok? ==> IsValid(r.value) && Before(t, r.value)
  {
    if t.year + 1 > MaxYear then Err(InvalidDate)
    else Ok(t.(year := t.year + 1, day := Min(t.day, DaysInMonth(t.year + 1, t.month))))
  }

  /** The last instant of a day: 23:59:59.999999999. */
  function EndOfDay(year: int, month: int, day: int): Timestamp {
    Timestamp(year, month, day, 23, 59, 59, MaxNano)
  }

  /** LocalDateTime.minusNanos(1), borrowing through every field. At
      LocalDateTime.MIN java.time throws; no caller reaches that case. */
  function Predecessor(t: Timestamp): (p: Timestamp)
    requires IsValid(t) && t != Earliest
    ensures IsValid(p) && Before(p, t)
  {
    if t.nano > 0 then t.(nano := t.nano - 1)
    else if t.second > 0 then t.(second := t.second - 1, nano := MaxNano)
    else if t.minute > 0 then t.(minute := t.minute - 1, second := 59, nano := MaxNano)
    else if t.hour > 0 then t.(hour := t.hour - 1, minute := 59, second := 59, nano := MaxNano)
    else if t.day > 1 then EndOfDay(t.year, t.month, t.day - 1)
    else if t.month > 1 then EndOfDay(t.year, t.month - 1, DaysInMonth(t.year, t.month - 1))
    else EndOfDay(t.year - 1, 12, 31)
  }

  /** One nanosecond before t is the greatest valid instant strictly
      before t: nothing valid lies strictly between the two. */
  lemma PredecessorIsGreatestBelow(t: Timestamp, u: Timestamp)
    requires IsValid(t) && t != Earliest && IsValid(u)
    ensures Before(u, t) <==> NotAfter(u, Predecessor(t))
  {
    var p := Predecessor(t);
    if Before(u, t) && Before(p, u) {
      // u would sit strictly between p and t; each borrow case rules it out
      if t.nano > 0 {
      } else if t.second > 0 {
      } else if t.minute > 0 {
      } else if t.hour > 0 {
      } else if t.day > 1 {
      } else if t.month > 1 {
      } else {
      }
      assert false;
    }
    BeforeIsStrictTotalOrder(u, p, t);
  }

  /** A closed range ending one nanosecond before `next` selects exactly the
      instants of the half-open range ending at `next`. */
  lemma ClosedEndIsHalfOpen(start: Timestamp, next: Timestamp, t: Timestamp)
    requires IsValid(next) && next != Earliest && IsValid(t)
    ensures InInterval(t, Interval(start, Predecessor(next)))
            <==> NotAfter(start, t) && Before(t, next)
  {
    PredecessorIsGreatestBelow(next, t);
  }
}
