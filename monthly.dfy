/** Monthly totals: the resample of the amounts to calendar months. There is
    one bucket per calendar month from the month of the earliest row to the
    month of the latest row, in chronological order; a month with no rows
    still has its bucket, holding 0. No rows give no buckets. */
module Monthly {
  import opened Calendar
  import opened Sales

  /** One bucket of the monthly resample. */
  datatype MonthTotal = MonthTotal(month: Month, amount: Cents)

  /** The ordinal of the month a row's date falls in. */
  function RowOrdinal(r: Row): int
  {
    Ordinal(MonthOf(r.date))
  }

  /** The ordinal of the earliest month in the rows. */
  function FirstOrdinal(rows: seq<Row>): (lo: int)
    requires |rows| > 0
    ensures forall i :: 0 <= i < |rows| ==> lo <= RowOrdinal(rows[i])
    ensures exists i :: 0 <= i < |rows| && RowOrdinal(rows[i]) == lo
  {
    if |rows| == 1 then RowOrdinal(rows[0])
    else
      var rest := FirstOrdinal(rows[1..]);
      assert forall i :: 1 <= i < |rows| ==> rows[i] == rows[1..][i - 1];
      if RowOrdinal(rows[0]) <= rest then RowOrdinal(rows[0]) else rest
  }

  /** The ordinal of the latest month in the rows. */
  function LastOrdinal(rows: seq<Row>): (hi: int)
    requires |rows| > 0
    ensures forall i :: 0 <= i < |rows| ==> RowOrdinal(rows[i]) <= hi
    ensures exists i :: 0 <= i < |rows| && RowOrdinal(rows[i]) == hi
  {
    if |rows| == 1 then RowOrdinal(rows[0])
    else
      var rest := LastOrdinal(rows[1..]);
      assert forall i :: 1 <= i < |rows| ==> rows[i] == rows[1..][i - 1];
      if RowOrdinal(rows[0]) >= rest then RowOrdinal(rows[0]) else rest
  }

  /** The `count` consecutive months starting at the month numbered `lo`. */
  function MonthRange(lo: int, count: nat): (ms: seq<Month>)
    ensures |ms| == count
    ensures forall i :: 0 <= i < count ==> Ordinal(ms[i]) == lo + i
  {
    var ms := seq(count, i requires 0 <= i < count => FromOrdinal(lo + i));
    assert forall i :: 0 <= i < count ==> ms[i] == FromOrdinal(lo + i);
    ms
  }

  /** One bucket per month of `ms`, holding the sum of that month's rows. */
  function Tally(rows: seq<Row>, ms: seq<Month>): (ts: seq<MonthTotal>)
    ensures |ts| == |ms|
    ensures forall i :: 0 <= i < |ms| ==> ts[i].month == ms[i]
    ensures forall i :: 0 <= i < |ms| ==> ts[i].amount == SumWhere(rows, InMonth(ms[i]))
  {
    if |ms| == 0 then []
    else [MonthTotal(ms[0], SumWhere(rows, InMonth(ms[0])))] + Tally(rows, ms[1..])
  }

  /** The monthly resample of the rows. */
  function MonthlyTotals(rows: seq<Row>): (ts: seq<MonthTotal>)
    ensures |ts| == 0 <==> |rows| == 0
    ensures forall i :: 0 <= i < |ts| ==> ts[i].amount == SumWhere(rows, InMonth(ts[i].month))
    ensures forall i, j :: 0 <= i && j == i + 1 && j < |ts| ==> ts[j].month == Next(ts[i].month)
  {
    if |rows| == 0 then []
    else
      var lo := FirstOrdinal(rows);
      var ts := Tally(rows, MonthRange(lo, LastOrdinal(rows) - lo + 1));
      assert forall i, j :: 0 <= i && j == i + 1 && j < |ts| ==> ts[j].month == Next(ts[i].month) by {
        forall i, j | 0 <= i && j == i + 1 && j < |ts| ensures ts[j].month == Next(ts[i].month) {
          OrdinalInjective(ts[j].month, Next(ts[i].month));
        }
      }
      ts
  }

  /** The sum of the bucket values. */
  function Amounts(ts: seq<MonthTotal>): Cents
  {
    if |ts| == 0 then 0 else ts[0].amount + Amounts(ts[1..])
  }

  /** The months of a non-empty input run exactly from the month of the
      earliest row to the month of the latest row. */
  lemma {:induction false} MonthlyEndpoints(rows: seq<Row>)
    requires |rows| > 0
    ensures var ts := MonthlyTotals(rows);
      && |ts| > 0
      && (forall i :: 0 <= i < |rows| ==>
            Ordinal(ts[0].month) <= RowOrdinal(rows[i]) <= Ordinal(ts[|ts| - 1].month))
      && (exists i :: 0 <= i < |rows| && MonthOf(rows[i].date) == ts[0].month)
      && (exists i :: 0 <= i < |rows| && MonthOf(rows[i].date) == ts[|ts| - 1].month)
  {
    var ts := MonthlyTotals(rows);
    var lo, hi := FirstOrdinal(rows), LastOrdinal(rows);
    assert Ordinal(ts[0].month) == lo && Ordinal(ts[|ts| - 1].month) == hi;
    var i :| 0 <= i < |rows| && RowOrdinal(rows[i]) == lo;
    var j :| 0 <= j < |rows| && RowOrdinal(rows[j]) == hi;
    OrdinalInjective(MonthOf(rows[i].date), ts[0].month);
    OrdinalInjective(MonthOf(rows[j].date), ts[|ts| - 1].month);
  }

  /** The buckets are strictly chronological, so no month appears twice. */
  lemma {:induction false} MonthlyChronological(rows: seq<Row>)
    ensures var ts := MonthlyTotals(rows);
      forall i, j :: 0 <= i < j < |ts| ==> Ordinal(ts[i].month) < Ordinal(ts[j].month)
  {
  }

  /** Every row's month has a bucket. */
  lemma {:induction false} MonthlyCoversRows(rows: seq<Row>)
    ensures var ts := MonthlyTotals(rows);
      forall i :: 0 <= i < |rows| ==> exists k :: 0 <= k < |ts| && ts[k].month == MonthOf(rows[i].date)
  {
    if |rows| > 0 {
      var ts := MonthlyTotals(rows);
      var lo := FirstOrdinal(rows);
      forall i | 0 <= i < |rows|
        ensures exists k :: 0 <= k < |ts| && ts[k].month == MonthOf(rows[i].date)
      {
        var k := RowOrdinal(rows[i]) - lo;
        OrdinalInjective(ts[k].month, MonthOf(rows[i].date));
      }
    }
  }

  /** A month in the range that no row falls in carries 0. */
  lemma {:induction false} MonthlyGapsAreZero(rows: seq<Row>, k: int)
    requires 0 <= k < |MonthlyTotals(rows)|
    requires forall i :: 0 <= i < |rows| ==> MonthOf(rows[i].date) != MonthlyTotals(rows)[k].month
    ensures MonthlyTotals(rows)[k].amount == 0
  {
    SumWhereNoMatch(rows, InMonth(MonthlyTotals(rows)[k].month));
  }

  /** Every row's month is one of `ms`. */
  predicate CoversRows(rows: seq<Row>, ms: seq<Month>)
  {
    forall i :: 0 <= i < |rows| ==> MonthOf(rows[i].date) in ms
  }

  predicate Distinct(ms: seq<Month>)
  {
    forall i, j :: 0 <= i < |ms| && 0 <= j < |ms| && i != j ==> ms[i] != ms[j]
  }

  lemma {:induction false} TallyNoRows(ms: seq<Month>)
    ensures Amounts(Tally([], ms)) == 0
    decreases |ms|
  {
    if |ms| > 0 {
      assert Tally([], ms)[1..] == Tally([], ms[1..]);
      TallyNoRows(ms[1..]);
    }
  }

  /** Adding one row to the input adds its amount to exactly the bucket of
      its month, if the months are distinct and that month is among them. */
  lemma {:induction false} TallyCons(ms: seq<Month>, r: Row, rest: seq<Row>)
    requires Distinct(ms)
    ensures Amounts(Tally([r] + rest, ms))
         == Amounts(Tally(rest, ms)) + (if MonthOf(r.date) in ms then r.amount else 0)
    decreases |ms|
  {
    if |ms| > 0 {
      var tail := ms[1..];
      assert Distinct(tail) by {
        forall i, j | 0 <= i < |tail| && 0 <= j < |tail| && i != j ensures tail[i] != tail[j] {
          assert tail[i] == ms[i + 1] && tail[j] == ms[j + 1];
        }
      }
      TallyCons(tail, r, rest);
      assert Tally([r] + rest, ms)[1..] == Tally([r] + rest, tail);
      assert Tally(rest, ms)[1..] == Tally(rest, tail);
      assert ([r] + rest)[1..] == rest;
      assert MonthOf(r.date) in ms <==> MonthOf(r.date) == ms[0] || MonthOf(r.date) in tail by {
        assert ms == [ms[0]] + tail;
      }
    }
  }

  /** Buckets over distinct months that cover every row's month partition
      the grand total. */
  lemma {:induction false} TallyPartitions(rows: seq<Row>, ms: seq<Month>)
    requires Distinct(ms)
    requires CoversRows(rows, ms)
    ensures Amounts(Tally(rows, ms)) == Total(rows)
    decreases |rows|
  {
    if |rows| == 0 {
      TallyNoRows(ms);
    } else {
      var rest := rows[1..];
      assert rows == [rows[0]] + rest;
      TallyPartitions(rest, ms);
      TallyCons(ms, rows[0], rest);
      TotalCons(rows[0], rest);
    }
  }

  /** The monthly buckets sum to the grand total. */
  lemma {:induction false} MonthlyPartitionsTotal(rows: seq<Row>)
    ensures Amounts(MonthlyTotals(rows)) == Total(rows)
  {
    if |rows| > 0 {
      var lo := FirstOrdinal(rows);
      var count := LastOrdinal(rows) - lo + 1;
      MonthlyIsTally(rows);
      RangePartitionsTotal(rows, lo, count);
    }
  }

  /** The buckets over the months from the earliest to the latest row sum to
      the grand total. */
  lemma {:induction false} RangePartitionsTotal(rows: seq<Row>, lo: int, count: nat)
    requires |rows| > 0 && lo == FirstOrdinal(rows) && count == LastOrdinal(rows) - lo + 1
    ensures Amounts(Tally(rows, MonthRange(lo, count))) == Total(rows)
  {
    RangeDistinct(lo, count);
    RangeCoversRows(rows, lo, count);
    TallyPartitions(rows, MonthRange(lo, count));
  }

  /** The buckets of non-empty rows are the tally over the months from the
      earliest to the latest row. */
  lemma {:induction false} MonthlyIsTally(rows: seq<Row>)
    requires |rows| > 0
    ensures MonthlyTotals(rows)
         == Tally(rows, MonthRange(FirstOrdinal(rows), LastOrdinal(rows) - FirstOrdinal(rows) + 1))
  {
  }

  /** Consecutive months are distinct. */
  lemma {:induction false} RangeDistinct(lo: int, count: nat)
    ensures Distinct(MonthRange(lo, count))
  {
    var ms := MonthRange(lo, count);
    forall i, j | 0 <= i < |ms| && 0 <= j < |ms| && i != j ensures ms[i] != ms[j] {
      assert Ordinal(ms[i]) != Ordinal(ms[j]);
    }
  }

  /** The month range from the earliest to the latest row holds every row's month. */
  lemma {:induction false} RangeCoversRows(rows: seq<Row>, lo: int, count: nat)
    requires |rows| > 0 && lo == FirstOrdinal(rows) && count == LastOrdinal(rows) - lo + 1
    ensures CoversRows(rows, MonthRange(lo, count))
  {
    var ms := MonthRange(lo, count);
    forall i | 0 <= i < |rows| ensures MonthOf(rows[i].date) in ms {
      var k := RowOrdinal(rows[i]) - lo;
      OrdinalInjective(ms[k], MonthOf(rows[i].date));
    }
  }
}
