/** The aggregation step of the report pipeline: from the loaded sales rows
    to the four views the report shows (grand total, monthly totals, top
    salespeople, top products). */
module Report {
  import opened Calendar
  import opened Lexicographic
  import opened Sales
  import opened Monthly
  import opened Ranking

  /** The result of the aggregation, one field per view. */
  datatype SalesReport = SalesReport(
    totalSales: Cents,
    monthlySales: seq<MonthTotal>,
    topSalespeople: seq<Ranked>,
    topProducts: seq<Ranked>)

  /** The aggregation step. */
  function ProcessData(rows: seq<Row>): (report: SalesReport)
    ensures report.monthlySales == [] <==> rows == []
    ensures |report.topSalespeople| == Min(TopCount, |KeySet(rows, Salesperson)|)
    ensures |report.topProducts| == Min(TopCount, |KeySet(rows, Product)|)
  {
    SalesReport(
      Total(rows),
      MonthlyTotals(rows),
      Top(rows, Salesperson, TopCount),
      Top(rows, Product, TopCount))
  }

  /** The grand total is the sum of every row's amount, and the monthly
      buckets add up to it. */
  lemma {:induction false} TotalsAgree(rows: seq<Row>)
    ensures var report := ProcessData(rows);
      && report.totalSales == SumWhere(rows, AllRows)
      && Amounts(report.monthlySales) == report.totalSales
  {
    MonthlyPartitionsTotal(rows);
  }

  /** Both top lists are top-5 lists of their column: min(5, distinct keys)
      entries, each a key of the input with its exact total, in rank order,
      and every key left out is outranked by every key kept. */
  lemma {:induction false} TopListsSpec(rows: seq<Row>)
    ensures var report := ProcessData(rows);
      && |report.topSalespeople| == Min(5, |KeySet(rows, Salesperson)|)
      && |report.topProducts| == Min(5, |KeySet(rows, Product)|)
      && TotalsExact(rows, Salesperson, report.topSalespeople)
      && TotalsExact(rows, Product, report.topProducts)
      && (forall i :: 0 <= i < |report.topSalespeople| ==> report.topSalespeople[i].key in KeySet(rows, Salesperson))
      && (forall i :: 0 <= i < |report.topProducts| ==> report.topProducts[i].key in KeySet(rows, Product))
      && RankOrdered(report.topSalespeople)
      && RankOrdered(report.topProducts)
      && Dominates(rows, Salesperson, report.topSalespeople)
      && Dominates(rows, Product, report.topProducts)
  {
    TopEntries(rows, Salesperson, TopCount);
    TopEntries(rows, Product, TopCount);
    TopExcluded(rows, Salesperson, TopCount);
    TopExcluded(rows, Product, TopCount);
  }

  /** No rows: a total of 0 and empty views, without any error. */
  lemma {:induction false} EmptyInput()
    ensures ProcessData([]) == SalesReport(0, [], [], [])
  {
    TopEntries([], Salesperson, TopCount);
    TopEntries([], Product, TopCount);
  }

  /** The order of the rows does not matter: reordering them gives the same
      report, and computing it twice gives the same values. */
  lemma {:induction false} OrderIndependent(a: seq<Row>, b: seq<Row>)
    requires multiset(a) == multiset(b)
    ensures ProcessData(a) == ProcessData(b)
  {
    SumWherePermutation(a, b, AllRows);
    MonthlyOrderIndependent(a, b);
    GroupBySumOrderIndependent(a, b, Salesperson);
    GroupBySumOrderIndependent(a, b, Product);
  }

  lemma {:induction false} SameElements(a: seq<Row>, b: seq<Row>, r: Row)
    requires multiset(a) == multiset(b)
    ensures r in a <==> r in b
  {
    assert r in a <==> r in multiset(a);
    assert r in b <==> r in multiset(b);
  }

  lemma {:induction false} FirstLastOrderIndependent(a: seq<Row>, b: seq<Row>)
    requires |a| > 0 && multiset(a) == multiset(b)
    ensures |b| > 0
    ensures FirstOrdinal(a) == FirstOrdinal(b) && LastOrdinal(a) == LastOrdinal(b)
  {
    SameElements(a, b, a[0]);
    assert SameMembers(a, b) by {
      forall r | r in a || r in b ensures r in a && r in b { SameElements(a, b, r); }
    }
    FirstOrdinalSameMembers(a, b);
    LastOrdinalSameMembers(a, b);
  }

  /** The two sequences hold the same rows, in any order and number. */
  ghost predicate SameMembers(a: seq<Row>, b: seq<Row>)
  {
    forall r :: r in a <==> r in b
  }

  lemma {:induction false} FirstOrdinalSameMembers(a: seq<Row>, b: seq<Row>)
    requires |a| > 0 && |b| > 0 && SameMembers(a, b)
    ensures FirstOrdinal(a) == FirstOrdinal(b)
  {
    var i :| 0 <= i < |a| && RowOrdinal(a[i]) == FirstOrdinal(a);
    var j :| 0 <= j < |b| && RowOrdinal(b[j]) == FirstOrdinal(b);
    assert a[i] in b && b[j] in a;
  }

  lemma {:induction false} LastOrdinalSameMembers(a: seq<Row>, b: seq<Row>)
    requires |a| > 0 && |b| > 0 && SameMembers(a, b)
    ensures LastOrdinal(a) == LastOrdinal(b)
  {
    var i :| 0 <= i < |a| && RowOrdinal(a[i]) == LastOrdinal(a);
    var j :| 0 <= j < |b| && RowOrdinal(b[j]) == LastOrdinal(b);
    assert a[i] in b && b[j] in a;
  }

  lemma {:induction false} MonthlyOrderIndependent(a: seq<Row>, b: seq<Row>)
    requires multiset(a) == multiset(b)
    ensures MonthlyTotals(a) == MonthlyTotals(b)
  {
    if |a| == 0 {
      assert |b| == |multiset(b)| == 0;
    } else {
      FirstLastOrderIndependent(a, b);
      var ta, tb := MonthlyTotals(a), MonthlyTotals(b);
      assert |ta| == |tb|;
      forall i | 0 <= i < |ta| ensures ta[i] == tb[i] {
        assert ta[i].month == tb[i].month;
        SumWherePermutation(a, b, InMonth(ta[i].month));
      }
    }
  }

  lemma {:induction false} GroupBySumOrderIndependent(a: seq<Row>, b: seq<Row>, col: Column)
    requires multiset(a) == multiset(b)
    ensures GroupBySum(a, col) == GroupBySum(b, col)
  {
    assert KeySet(a, col) == KeySet(b, col) by {
      forall r | r in a || r in b ensures r in a && r in b { SameElements(a, b, r); }
    }
    AscendingUnique(GroupKeys(a, col), GroupKeys(b, col));
    var ga, gb := GroupBySum(a, col), GroupBySum(b, col);
    forall i | 0 <= i < |ga| ensures ga[i] == gb[i] {
      SumWherePermutation(a, b, WithKey(col, ga[i].key));
    }
  }

  /** Three rows over two months: 100.00 for Alice on Alpha Widget and
      200.00 for Bob on Beta Gadget in January 2025, 50.00 for Alice on Alpha
      Widget in February 2025. */
  function ScenarioRows(): seq<Row>
  {
    [ Row(Date(2025, 1, 10), "Alpha Widget", "Alice", 10000, "c1"),
      Row(Date(2025, 1, 15), "Beta Gadget", "Bob", 20000, "c2"),
      Row(Date(2025, 2, 1), "Alpha Widget", "Alice", 5000, "c3") ]
  }

  /** The scenario's report: total 350.00; January 300.00 and February
      50.00; Bob (200.00) before Alice (150.00); Beta Gadget (200.00) before
      Alpha Widget (150.00). */
  lemma {:induction false} ThreeRowScenario()
    ensures ProcessData(ScenarioRows()) == SalesReport(
        35000,
        [MonthTotal(Month(2025, 1), 30000), MonthTotal(Month(2025, 2), 5000)],
        [Ranked("Bob", 20000), Ranked("Alice", 15000)],
        [Ranked("Beta Gadget", 20000), Ranked("Alpha Widget", 15000)])
  {
    ScenarioTotal();
    ScenarioMonthly();
    ScenarioSalespeople();
    ScenarioProducts();
  }

  lemma {:induction false} ScenarioTotal()
    ensures Total(ScenarioRows()) == 35000
  {
    var rows := ScenarioRows();
    assert rows[1..][1..][1..] == [];
  }

  lemma {:induction false} ScenarioMonthly()
    ensures MonthlyTotals(ScenarioRows())
      == [MonthTotal(Month(2025, 1), 30000), MonthTotal(Month(2025, 2), 5000)]
  {
    ScenarioRange();
    ScenarioMonthSums();
    ScenarioMonths();
    TwoMonths(ScenarioRows(), 12 * 2025);
  }

  lemma {:induction false} ScenarioMonths()
    ensures FromOrdinal(12 * 2025) == Month(2025, 1)
    ensures FromOrdinal(12 * 2025 + 1) == Month(2025, 2)
  {
  }

  /** Rows whose months span exactly two consecutive months give two
      buckets, one per month. */
  lemma {:induction false} TwoMonths(rows: seq<Row>, lo: int)
    requires |rows| > 0 && FirstOrdinal(rows) == lo && LastOrdinal(rows) == lo + 1
    ensures MonthlyTotals(rows) == [
      MonthTotal(FromOrdinal(lo), SumWhere(rows, InMonth(FromOrdinal(lo)))),
      MonthTotal(FromOrdinal(lo + 1), SumWhere(rows, InMonth(FromOrdinal(lo + 1))))]
  {
    MonthlyIsTally(rows);
    RangeOfTwo(lo);
    TallyOfTwo(rows, MonthRange(lo, 2));
  }

  lemma {:induction false} RangeOfTwo(lo: int)
    ensures MonthRange(lo, 2) == [FromOrdinal(lo), FromOrdinal(lo + 1)]
  {
    var ms := MonthRange(lo, 2);
    OrdinalInjective(ms[0], FromOrdinal(lo));
    OrdinalInjective(ms[1], FromOrdinal(lo + 1));
  }

  lemma {:induction false} TallyOfTwo(rows: seq<Row>, ms: seq<Month>)
    requires |ms| == 2
    ensures Tally(rows, ms) == [
      MonthTotal(ms[0], SumWhere(rows, InMonth(ms[0]))),
      MonthTotal(ms[1], SumWhere(rows, InMonth(ms[1])))]
  {
    var ts := Tally(rows, ms);
    assert ts == [ts[0], ts[1]];
  }

  /** The scenario's rows run from January to February 2025. */
  lemma {:induction false} ScenarioRange()
    ensures FirstOrdinal(ScenarioRows()) == 12 * 2025
    ensures LastOrdinal(ScenarioRows()) == 12 * 2025 + 1
  {
    var rows := ScenarioRows();
    var r1, r2 := rows[1..], rows[2..];
    assert r1 == [rows[1], rows[2]] && r1[1..] == r2 == [rows[2]];
    assert RowOrdinal(rows[0]) == 12 * 2025 && RowOrdinal(rows[1]) == 12 * 2025;
    assert RowOrdinal(rows[2]) == 12 * 2025 + 1;
    assert FirstOrdinal(r1) == 12 * 2025 && LastOrdinal(r1) == 12 * 2025 + 1;
  }

  lemma {:induction false} ScenarioMonthSums()
    ensures SumWhere(ScenarioRows(), InMonth(Month(2025, 1))) == 30000
    ensures SumWhere(ScenarioRows(), InMonth(Month(2025, 2))) == 5000
  {
    var rows := ScenarioRows();
    assert rows[1..][1..][1..] == [];
  }

  /** With exactly two keys, the top list names the one with the larger
      total first. */
  lemma {:induction false} TopOfTwoKeys(rows: seq<Row>, col: Column, x: string, y: string)
    requires KeySet(rows, col) == {x, y} && x != y
    requires GroupTotal(rows, col, x) > GroupTotal(rows, col, y)
    ensures Top(rows, col, TopCount) == [Ranked(x, GroupTotal(rows, col, x)), Ranked(y, GroupTotal(rows, col, y))]
  {
    TopEntries(rows, col, TopCount);
    TwoEntries(rows, col, Top(rows, col, TopCount), x, y);
  }

  /** A list with the properties of a top list over exactly two keys names
      the key with the larger total first. */
  lemma {:induction false} TwoEntries(rows: seq<Row>, col: Column, t: seq<Ranked>, x: string, y: string)
    requires KeySet(rows, col) == {x, y} && x != y
    requires GroupTotal(rows, col, x) > GroupTotal(rows, col, y)
    requires |t| == Min(TopCount, |KeySet(rows, col)|)
    requires TotalsExact(rows, col, t)
    requires forall i :: 0 <= i < |t| ==> t[i].key in KeySet(rows, col)
    requires forall i, j :: 0 <= i < j < |t| ==> t[i].key != t[j].key
    requires RankOrdered(t)
    ensures t == [Ranked(x, GroupTotal(rows, col, x)), Ranked(y, GroupTotal(rows, col, y))]
  {
    assert |t| == 2 by {
      assert |{x, y}| == 2;
    }
    assert t[0].key in {x, y} && t[1].key in {x, y};
    assert Outranks(t[0], t[1]);
    assert t[0].key == x;
    assert t == [t[0], t[1]];
  }

  lemma {:induction false} ScenarioKeys()
    ensures KeySet(ScenarioRows(), Salesperson) == {"Alice", "Bob"}
    ensures KeySet(ScenarioRows(), Product) == {"Alpha Widget", "Beta Gadget"}
  {
    var rows := ScenarioRows();
    assert rows[0] in rows && rows[1] in rows;
  }

  lemma {:induction false} ScenarioGroupTotals()
    ensures GroupTotal(ScenarioRows(), Salesperson, "Alice") == 15000
    ensures GroupTotal(ScenarioRows(), Salesperson, "Bob") == 20000
    ensures GroupTotal(ScenarioRows(), Product, "Alpha Widget") == 15000
    ensures GroupTotal(ScenarioRows(), Product, "Beta Gadget") == 20000
  {
    var rows := ScenarioRows();
    assert rows[1..][1..][1..] == [];
  }

  lemma {:induction false} ScenarioSalespeople()
    ensures Top(ScenarioRows(), Salesperson, TopCount) == [Ranked("Bob", 20000), Ranked("Alice", 15000)]
  {
    ScenarioKeys();
    ScenarioGroupTotals();
    TopOfTwoKeys(ScenarioRows(), Salesperson, "Bob", "Alice");
  }

  lemma {:induction false} ScenarioProducts()
    ensures Top(ScenarioRows(), Product, TopCount) == [Ranked("Beta Gadget", 20000), Ranked("Alpha Widget", 15000)]
  {
    ScenarioKeys();
    ScenarioGroupTotals();
    TopOfTwoKeys(ScenarioRows(), Product, "Beta Gadget", "Alpha Widget");
  }
}
