/**
 * Calendar dates as `java.time.LocalDate` orders them: by year, then month, then day.
 * Parsing a date from text and printing one are not modelled here; they are
 * parameters of the operations that use them.
 */
module Dates {

  datatype Date = Date(year: int, month: int, day: int)

  /** `a.isBefore(b)` */
  predicate IsBefore(a: Date, b: Date) {
    a.year < b.year
    || (a.year == b.year && a.month < b.month)
    || (a.year == b.year && a.month == b.month && a.day < b.day)
  }

  /** `LocalDate.of(1900, 1, 1)`: the last usage of a database never seen. */
  const Default: Date := Date(1900, 1, 1)

  /** `if (last.isBefore(d)) last = d`: the later of two dates. */
  function Later(last: Date, d: Date): (r: Date)
    ensures !IsBefore(r, last) && !IsBefore(r, d)
    ensures r == last || r == d
  {
    if IsBefore(last, d) then d else last
  }

  /** Not before, as a relation, is transitive. */
  lemma NotBeforeTransitive(a: Date, b: Date, c: Date)
    requires !IsBefore(a, b) && !IsBefore(b, c)
    ensures !IsBefore(a, c)
  {
  }
}
