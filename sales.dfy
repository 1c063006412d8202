/** Sales rows and the filtered sums every aggregate is built from.
    Amounts are exact, non-negative integer numbers of cents. */
module Sales {
  import opened Calendar

  type Cents = nat

  /** One transaction: the columns Date, Product, Salesperson, Amount and
      Customer of the loaded table. */
  datatype Row = Row(date: Date, product: string, salesperson: string, amount: Cents, customer: string)

  /** A column that rows are grouped by. */
  datatype Column = Salesperson | Product

  /** The grouping key of a row in column `col`. */
  function KeyOf(r: Row, col: Column): string
  {
    match col
    case Salesperson => r.salesperson
    case Product => r.product
  }

  /** Which rows a sum runs over. */
  datatype Criterion = AllRows | InMonth(month: Month) | WithKey(col: Column, key: string)

  predicate Matches(r: Row, c: Criterion)
  {
    match c
    case AllRows => true
    case InMonth(m) => MonthOf(r.date) == m
    case WithKey(col, k) => KeyOf(r, col) == k
  }

  /** The sum of the amounts of the rows that meet criterion `c`. */
  function SumWhere(rows: seq<Row>, c: Criterion): (s: Cents)
    ensures forall i {:trigger Matches(rows[i], c)} :: 0 <= i < |rows| && Matches(rows[i], c) ==> rows[i].amount <= s
  {
    if |rows| == 0 then 0
    else
      assert forall i :: 1 <= i < |rows| ==> rows[i] == rows[1..][i - 1];
      (if Matches(rows[0], c) then rows[0].amount else 0) + SumWhere(rows[1..], c)
  }

  /** The grand total: the sum of the amounts of every row. */
  function Total(rows: seq<Row>): (t: Cents)
    ensures |rows| == 0 ==> t == 0
    ensures forall i :: 0 <= i < |rows| ==> rows[i].amount <= t
  {
    assert forall i :: 0 <= i < |rows| ==> Matches(rows[i], AllRows);
    SumWhere(rows, AllRows)
  }

  /** The distinct keys that occur in column `col`. */
  function KeySet(rows: seq<Row>, col: Column): set<string>
  {
    set r | r in rows :: KeyOf(r, col)
  }

  /** The grand total of no rows is 0, and each row adds its own amount. */
  lemma {:induction false} TotalCons(r: Row, rows: seq<Row>)
    ensures Total([]) == 0
    ensures Total([r] + rows) == r.amount + Total(rows)
  {
    assert ([r] + rows)[1..] == rows;
  }

  /** Sums over concatenated rows add up. */
  lemma {:induction false} SumWhereAppend(a: seq<Row>, b: seq<Row>, c: Criterion)
    ensures SumWhere(a + b, c) == SumWhere(a, c) + SumWhere(b, c)
    decreases |a|
  {
    if |a| == 0 {
      assert a + b == b;
    } else {
      assert (a + b)[1..] == a[1..] + b;
      SumWhereAppend(a[1..], b, c);
    }
  }

  /** A sum over rows none of which meets the criterion is 0. */
  lemma {:induction false} SumWhereNoMatch(rows: seq<Row>, c: Criterion)
    requires forall i :: 0 <= i < |rows| ==> !Matches(rows[i], c)
    ensures SumWhere(rows, c) == 0
    decreases |rows|
  {
    if |rows| > 0 {
      SumWhereNoMatch(rows[1..], c);
    }
  }

  /** Taking one row out of the input takes its share out of the sum. */
  lemma {:induction false} SumWhereRemove(b: seq<Row>, j: int, c: Criterion)
    requires 0 <= j < |b|
    ensures SumWhere(b, c) == (if Matches(b[j], c) then b[j].amount else 0) + SumWhere(b[..j] + b[j + 1..], c)
  {
    assert b == b[..j] + ([b[j]] + b[j + 1..]);
    SumWhereAppend(b[..j], [b[j]] + b[j + 1..], c);
    SumWhereAppend(b[..j], b[j + 1..], c);
    assert ([b[j]] + b[j + 1..])[1..] == b[j + 1..];
  }

  /** Removing an element from both sides of a multiset equality. */
  lemma {:induction false} MultisetRemove(a: seq<Row>, b: seq<Row>, j: int)
    requires |a| > 0 && 0 <= j < |b| && b[j] == a[0]
    requires multiset(a) == multiset(b)
    ensures multiset(a[1..]) == multiset(b[..j] + b[j + 1..])
  {
    var x, l, r := a[0], b[..j], b[j + 1..];
    assert a == [x] + a[1..];
    assert b == l + [x] + r;
    assert multiset(b) == multiset(l) + multiset{x} + multiset(r);
    assert multiset(a) == multiset{x} + multiset(a[1..]);
    assert multiset(l + r) == multiset(l) + multiset(r);
    assert multiset(a[1..]) == multiset(a) - multiset{x};
    assert multiset(l + r) == multiset(b) - multiset{x};
  }

  /** Sums do not depend on the order of the rows: reordering the input
      (a permutation) leaves every filtered sum unchanged. */
  lemma {:induction false} SumWherePermutation(a: seq<Row>, b: seq<Row>, c: Criterion)
    requires multiset(a) == multiset(b)
    ensures SumWhere(a, c) == SumWhere(b, c)
    decreases |a|
  {
    if |a| == 0 {
      assert |b| == |multiset(b)| == 0;
    } else {
      assert a[0] in multiset(b);
      var j :| 0 <= j < |b| && b[j] == a[0];
      MultisetRemove(a, b, j);
      SumWherePermutation(a[1..], b[..j] + b[j + 1..], c);
      SumWhereRemove(b, j, c);
    }
  }
}
