/** Calendar dates as parsed by pandas, compared chronologically. */
module Dates {

  /** A parsed calendar date; the time of day is not modelled. */
  datatype Date = Date(year: int, month: int, day: int)

  /** `a` is strictly earlier than `b` (year, then month, then day). */
  predicate Before(a: Date, b: Date) {
    a.year < b.year
    || (a.year == b.year && a.month < b.month)
    || (a.year == b.year && a.month == b.month && a.day < b.day)
  }

  /** `a` is on or before `b`. */
  predicate NotAfter(a: Date, b: Date) {
    Before(a, b) || a == b
  }

  /** Chronological order is a strict total order on dates. */
  lemma BeforeIsStrictTotal(a: Date, b: Date, c: Date)
    ensures !Before(a, a)
    ensures Before(a, b) ==> !Before(b, a)
    ensures Before(a, b) && Before(b, c) ==> Before(a, c)
    ensures a == b || Before(a, b) || Before(b, a)
  {
  }
}
