/** Calendar dates and calendar months, as far as the sales aggregation needs them.
    A month is identified by its (year, month) pair; months are numbered
    consecutively by their ordinal, so that the month after December of one
    year is January of the next. */
module Calendar {

  type MonthNumber = m: int | 1 <= m <= 12 witness 1
  type DayNumber = d: int | 1 <= d <= 31 witness 1

  /** A parsed calendar date (the value of a row's Date column). */
  datatype Date = Date(year: int, month: MonthNumber, day: DayNumber)

  /** A calendar month: the bucket key of the monthly resample. */
  datatype Month = Month(year: int, month: MonthNumber)

  /** The calendar month a date falls in. */
  function MonthOf(d: Date): Month
  {
    Month(d.year, d.month)
  }

  /** Months numbered consecutively: January of year 0 is 0. */
  function Ordinal(m: Month): int
  {
    12 * m.year + m.month - 1
  }

  /** The month with a given ordinal. */
  function FromOrdinal(i: int): (m: Month)
    ensures Ordinal(m) == i
  {
    Month(i / 12, i % 12 + 1)
  }

  /** The calendar month that follows `m`. */
  function Next(m: Month): (n: Month)
    ensures Ordinal(n) == Ordinal(m) + 1
  {
    if m.month == 12 then Month(m.year + 1, 1) else Month(m.year, m.month + 1)
  }

  /** Ordinals identify months: FromOrdinal inverts Ordinal. */
  lemma {:induction false} FromOrdinalOfOrdinal(m: Month)
    ensures FromOrdinal(Ordinal(m)) == m
  {
  }

  /** Two months with the same ordinal are the same month. */
  lemma {:induction false} OrdinalInjective(m: Month, n: Month)
    requires Ordinal(m) == Ordinal(n)
    ensures m == n
  {
    FromOrdinalOfOrdinal(m);
    FromOrdinalOfOrdinal(n);
  }

  /** The month after the one numbered i is the one numbered i + 1:
      December rolls over to January of the next year. */
  lemma {:induction false} NextOfFromOrdinal(i: int)
    ensures Next(FromOrdinal(i)) == FromOrdinal(i + 1)
  {
    OrdinalInjective(Next(FromOrdinal(i)), FromOrdinal(i + 1));
  }
}
