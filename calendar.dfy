/** Dates as `mine_to` uses them: full datetimes for the range check, (year, month) pairs
    for the walk. */
module Calendar {

  /** A `datetime`: `time` is the time of day in microseconds. */
  datatype DateTime = DateTime(year: int, month: int, day: int, time: nat)
  {
    predicate Valid() {
      1 <= year <= 9999 && 1 <= month <= 12 && 1 <= day <= 31 && time < 86400000000
    }
  }

  /** `a > b` on datetimes: the lexicographic order of (year, month, day, time). */
  predicate After(a: DateTime, b: DateTime) {
    || a.year > b.year
    || (a.year == b.year && a.month > b.month)
    || (a.year == b.year && a.month == b.month && a.day > b.day)
    || (a.year == b.year && a.month == b.month && a.day == b.day && a.time > b.time)
  }

  datatype YearMonth = YearMonth(year: int, month: int)
  {
    predicate Valid() { 1 <= month <= 12 }
  }

  function MonthOf(d: DateTime): YearMonth {
    YearMonth(d.year, d.month)
  }

  /** The number of whole months since year 0, January: the reference calendar arithmetic. */
  function Index(ym: YearMonth): int {
    ym.year * 12 + ym.month - 1
  }

  /** `months_to_mine` of the source. */
  function MonthCount(from: DateTime, to: DateTime): int {
    (to.year - from.year) * 12 + (to.month - from.month) + 1
  }

  /** The cancel test `months_to_mine < 0 or from_date > to_date` is the datetime comparison
      alone; when it passes, the count is positive and counts the months from `from`'s month
      to `to`'s, both included. */
  lemma MonthCountGuard(from: DateTime, to: DateTime)
    requires from.Valid() && to.Valid()
    ensures MonthCount(from, to) < 0 ==> After(from, to)
    ensures !After(from, to) ==> MonthCount(from, to) >= 1
    ensures MonthCount(from, to) == Index(MonthOf(to)) - Index(MonthOf(from)) + 1
  {
  }

  /** One step of the walk, as the source writes it: `month = 12 if month <= 1 else month - 1`,
      then `year = year - 1 if month == 12 else year`. It is the preceding calendar month: the
      year is decremented exactly when the month rolls over from January. */
  function Previous(ym: YearMonth): (r: YearMonth)
    requires ym.Valid()
    ensures r.Valid() && Index(r) == Index(ym) - 1
    ensures r.year == ym.year - 1 <==> ym.month == 1
    ensures r.year != ym.year ==> r.year == ym.year - 1 && r.month == 12
  {
    var month := if ym.month <= 1 then 12 else ym.month - 1;
    var year := if month == 12 then ym.year - 1 else ym.year;
    YearMonth(year, month)
  }

  /** The month reached after `k` steps of the walk back from `start`. */
  function Back(start: YearMonth, k: nat): (r: YearMonth)
    requires start.Valid()
    ensures r.Valid()
  {
    if k == 0 then start else Previous(Back(start, k - 1))
  }

  /** `k` steps back lands `k` months earlier in the reference arithmetic. */
  lemma {:induction false} BackIndex(start: YearMonth, k: nat)
    requires start.Valid()
    ensures Index(Back(start, k)) == Index(start) - k
  {
    if k > 0 {
      BackIndex(start, k - 1);
    }
  }

  /** The walk never comes back to a month it has visited. */
  lemma BackDistinct(start: YearMonth, i: nat, j: nat)
    requires start.Valid() && i != j
    ensures Back(start, i) != Back(start, j)
  {
    BackIndex(start, i);
    BackIndex(start, j);
  }

  /** Months are the same when their reference indices are. */
  lemma IndexInjective(a: YearMonth, b: YearMonth)
    requires a.Valid() && b.Valid() && Index(a) == Index(b)
    ensures a == b
  {
  }

  /** The walk of `MonthCount(from, to)` months back from `to`'s month, `to`'s month first,
      ends at `from`'s month. */
  lemma WalkEndsAtFrom(from: DateTime, to: DateTime)
    requires from.Valid() && to.Valid() && !After(from, to)
    ensures MonthCount(from, to) >= 1
    ensures Back(MonthOf(to), MonthCount(from, to) - 1) == MonthOf(from)
  {
    MonthCountGuard(from, to);
    BackIndex(MonthOf(to), MonthCount(from, to) - 1);
    IndexInjective(Back(MonthOf(to), MonthCount(from, to) - 1), MonthOf(from));
  }
}
