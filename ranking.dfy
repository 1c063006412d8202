/** Ranking by group totals: group the rows by a column, sum each group's
    amounts, and keep the n largest sums in descending order.

    Grouping yields one entry per distinct key with the keys in ascending
    order. The n largest are then taken with a stable descending sort on the
    total, so among equal totals the key that sorts first comes first. */
module Ranking {
  import opened Lexicographic
  import opened Sales

  /** A grouping key with the sum of its rows' amounts. */
  datatype Ranked = Ranked(key: string, total: Cents)

  /** How many entries each top list keeps. */
  const TopCount: nat := 5

  function Min(a: nat, b: nat): nat
  {
    if a <= b then a else b
  }

  /** The distinct keys of column `col`, in ascending order. */
  function GroupKeys(rows: seq<Row>, col: Column): (ks: seq<string>)
    ensures StrictlyAscending(ks)
    ensures Elements(ks) == KeySet(rows, col)
  {
    if |rows| == 0 then []
    else
      assert KeySet(rows, col) == {KeyOf(rows[0], col)} + KeySet(rows[1..], col) by {
        assert rows == [rows[0]] + rows[1..];
      }
      Insert(KeyOf(rows[0], col), GroupKeys(rows[1..], col))
  }

  /** The total of the rows whose key in column `col` is `k`. */
  function GroupTotal(rows: seq<Row>, col: Column, k: string): Cents
  {
    SumWhere(rows, WithKey(col, k))
  }

  predicate KeysAscending(gs: seq<Ranked>)
  {
    forall i, j :: 0 <= i < j < |gs| ==> Less(gs[i].key, gs[j].key)
  }

  /** Every entry holds the exact total of its key's rows. */
  predicate TotalsExact(rows: seq<Row>, col: Column, gs: seq<Ranked>)
  {
    forall i :: 0 <= i < |gs| ==> gs[i].total == GroupTotal(rows, col, gs[i].key)
  }

  /** Whether key `k` is one of the entries of `t`. */
  predicate Listed(t: seq<Ranked>, k: string)
  {
    exists i :: 0 <= i < |t| && t[i].key == k
  }

  /** Entries that carry the keys `ks`, one by one, list exactly those keys. */
  lemma {:induction false} ListedKeys(ks: seq<string>, gs: seq<Ranked>)
    requires |gs| == |ks|
    requires forall i :: 0 <= i < |ks| ==> gs[i].key == ks[i]
    ensures forall k :: k in Elements(ks) <==> Listed(gs, k)
  {
    forall k | k in Elements(ks) ensures Listed(gs, k) {
      var i :| 0 <= i < |ks| && ks[i] == k;
      assert gs[i].key == k;
    }
    forall k | Listed(gs, k) ensures k in Elements(ks) {
      var i :| 0 <= i < |gs| && gs[i].key == k;
      assert ks[i] in ks;
    }
  }

  /** Group-by-and-sum: one entry per distinct key, keys ascending. */
  function GroupBySum(rows: seq<Row>, col: Column): (gs: seq<Ranked>)
    ensures KeysAscending(gs)
    ensures TotalsExact(rows, col, gs)
    ensures forall k :: k in KeySet(rows, col) <==> Listed(gs, k)
    ensures |gs| == |KeySet(rows, col)|
  {
    var ks := GroupKeys(rows, col);
    AscendingCardinality(ks);
    var gs := seq(|ks|, i requires 0 <= i < |ks| => Ranked(ks[i], GroupTotal(rows, col, ks[i])));
    ListedKeys(ks, gs);
    gs
  }

  /** `a` ranks above `b`: a larger total, or an equal total and a key that
      sorts first. */
  predicate Outranks(a: Ranked, b: Ranked)
  {
    a.total > b.total || (a.total == b.total && Less(a.key, b.key))
  }

  /** Outranks is a strict total order on entries with distinct keys: no
      entry outranks itself, never both ways, transitive, and of two
      different keys one always outranks the other. */
  lemma {:induction false} OutranksStrictOrder(a: Ranked, b: Ranked, c: Ranked)
    ensures !Outranks(a, a)
    ensures Outranks(a, b) ==> !Outranks(b, a)
    ensures Outranks(a, b) && Outranks(b, c) ==> Outranks(a, c)
    ensures a.key != b.key ==> Outranks(a, b) || Outranks(b, a)
  {
    if Outranks(a, b) && a.total == b.total {
      Asymmetric(a.key, b.key);
    }
    if Outranks(a, b) && Outranks(b, c) && a.total == b.total == c.total {
      Transitive(a.key, b.key, c.key);
    }
    if a.key != b.key {
      Trichotomy(a.key, b.key);
    }
  }

  /** Each entry ranks above every later one. */
  predicate RankOrdered(s: seq<Ranked>)
  {
    forall i, j :: 0 <= i < j < |s| ==> Outranks(s[i], s[j])
  }

  predicate NonIncreasing(s: seq<Ranked>)
  {
    forall i, j :: 0 <= i < j < |s| ==> s[i].total >= s[j].total
  }

  /** Inserts `g` into a list sorted by descending total, after every entry
      with a strictly larger total and before the first one that is not:
      the step of a stable descending insertion sort when `g` came first in
      the input. */
  function InsertDescending(g: Ranked, s: seq<Ranked>): (r: seq<Ranked>)
    ensures multiset(r) == multiset(s) + multiset{g}
  {
    if |s| == 0 then [g]
    else if s[0].total > g.total then
      assert s == [s[0]] + s[1..];
      [s[0]] + InsertDescending(g, s[1..])
    else [g] + s
  }

  /** Stable sort by descending total (insertion sort). */
  function SortDescending(gs: seq<Ranked>): (r: seq<Ranked>)
    ensures multiset(r) == multiset(gs)
  {
    if |gs| == 0 then []
    else
      assert gs == [gs[0]] + gs[1..];
      InsertDescending(gs[0], SortDescending(gs[1..]))
  }

  /** Every entry of an insertion is the inserted one or was already there. */
  lemma {:induction false} InsertedFrom(g: Ranked, s: seq<Ranked>, x: Ranked)
    requires x in InsertDescending(g, s)
    ensures x == g || x in s
  {
    assert x in multiset(InsertDescending(g, s));
  }

  /** Insertion keeps a list sorted by descending total. */
  lemma {:induction false} InsertDescendingNonIncreasing(g: Ranked, s: seq<Ranked>)
    requires NonIncreasing(s)
    ensures NonIncreasing(InsertDescending(g, s))
    decreases |s|
  {
    if |s| > 0 && s[0].total > g.total {
      var tail := InsertDescending(g, s[1..]);
      InsertDescendingNonIncreasing(g, s[1..]);
      forall j | 0 <= j < |tail| ensures s[0].total >= tail[j].total {
        InsertedFrom(g, s[1..], tail[j]);
        if tail[j] != g {
          var k :| 0 <= k < |s[1..]| && s[1..][k] == tail[j];
          assert s[k + 1] == tail[j];
        }
      }
    }
  }

  /** The sort orders by descending total, whatever the input. */
  lemma {:induction false} SortDescendingNonIncreasing(gs: seq<Ranked>)
    ensures NonIncreasing(SortDescending(gs))
    decreases |gs|
  {
    if |gs| > 0 {
      SortDescendingNonIncreasing(gs[1..]);
      InsertDescendingNonIncreasing(gs[0], SortDescending(gs[1..]));
    }
  }

  /** Inserting an entry whose key sorts before every key already in a
      rank-ordered list keeps it rank-ordered: among equal totals it lands
      first, and its key is the smallest. */
  lemma {:induction false} InsertDescendingRankOrdered(g: Ranked, s: seq<Ranked>)
    requires RankOrdered(s)
    requires forall x :: x in s ==> Less(g.key, x.key)
    ensures RankOrdered(InsertDescending(g, s))
    decreases |s|
  {
    if |s| > 0 {
      if s[0].total > g.total {
        var tail := InsertDescending(g, s[1..]);
        InsertDescendingRankOrdered(g, s[1..]);
        forall j | 0 <= j < |tail| ensures Outranks(s[0], tail[j]) {
          InsertedFrom(g, s[1..], tail[j]);
          if tail[j] != g {
            HeadOutranksTail(s, tail[j]);
          }
        }
      } else {
        forall j | 0 <= j < |s| ensures Outranks(g, s[j]) {
          assert s[j] in s;
          if j > 0 { assert Outranks(s[0], s[j]); }
        }
      }
    }
  }

  /** The head of a rank-ordered list outranks every later entry. */
  lemma {:induction false} HeadOutranksTail(s: seq<Ranked>, x: Ranked)
    requires |s| > 0 && RankOrdered(s) && x in s[1..]
    ensures Outranks(s[0], x)
  {
    var k :| 0 <= k < |s[1..]| && s[1..][k] == x;
    assert s[k + 1] == x;
  }

  /** On entries with ascending keys, as group-by produces them, the stable
      descending sort orders by Outranks: equal totals keep key order. */
  lemma {:induction false} SortDescendingRankOrdered(gs: seq<Ranked>)
    requires KeysAscending(gs)
    ensures RankOrdered(SortDescending(gs))
    decreases |gs|
  {
    if |gs| > 0 {
      var rest := gs[1..];
      var sorted := SortDescending(rest);
      SortDescendingRankOrdered(rest);
      forall x | x in sorted ensures Less(gs[0].key, x.key) {
        assert x in multiset(rest);
        var k :| 0 <= k < |rest| && rest[k] == x;
        assert gs[k + 1] == x;
      }
      InsertDescendingRankOrdered(gs[0], sorted);
    }
  }

  /** The `n` keys of column `col` with the largest totals, largest first. */
  function Top(rows: seq<Row>, col: Column, n: nat): (t: seq<Ranked>)
    ensures |t| == Min(n, |KeySet(rows, col)|)
  {
    var gs := GroupBySum(rows, col);
    var sorted := SortDescending(gs);
    assert |sorted| == |gs| by {
      assert |multiset(sorted)| == |multiset(gs)|;
    }
    sorted[..Min(n, |sorted|)]
  }

  /** The entries of a top list: min(n, number of distinct keys) of them;
      each a key of the input with its exact total; the keys distinct; each
      entry outranking every later one, so the totals never increase and
      equal totals come in ascending key order. */
  lemma {:induction false} TopEntries(rows: seq<Row>, col: Column, n: nat)
    ensures var t := Top(rows, col, n);
      && |t| == Min(n, |KeySet(rows, col)|)
      && TotalsExact(rows, col, t)
      && (forall i :: 0 <= i < |t| ==> t[i].key in KeySet(rows, col))
      && (forall i, j :: 0 <= i < j < |t| ==> t[i].key != t[j].key)
      && RankOrdered(t)
  {
    var sorted := SortDescending(GroupBySum(rows, col));
    RankedGroups(rows, col);
    PrefixOfRanking(rows, col, sorted, Min(n, |sorted|));
  }

  /** Every key of the column that `t` leaves out is outranked by every
      entry of `t`. */
  predicate Dominates(rows: seq<Row>, col: Column, t: seq<Ranked>)
  {
    forall k :: k in KeySet(rows, col) && !Listed(t, k) ==>
      forall i :: 0 <= i < |t| ==> Outranks(t[i], Ranked(k, GroupTotal(rows, col, k)))
  }

  /** The keys a top list leaves out: every entry kept outranks every key
      left out, so no key left out has a larger total than the smallest
      total kept, and one with an equal total sorts after it. */
  lemma {:induction false} TopExcluded(rows: seq<Row>, col: Column, n: nat)
    ensures Dominates(rows, col, Top(rows, col, n))
  {
    var sorted := SortDescending(GroupBySum(rows, col));
    RankedGroups(rows, col);
    PrefixOfRanking(rows, col, sorted, Min(n, |sorted|));
  }

  /** A prefix of the ranking of the groups has, for any length m, the
      properties of a top-m list. */
  lemma {:induction false} PrefixOfRanking(rows: seq<Row>, col: Column, sorted: seq<Ranked>, m: nat)
    requires m <= |sorted|
    requires TotalsExact(rows, col, sorted) && RankOrdered(sorted)
    requires forall k :: k in KeySet(rows, col) <==> Listed(sorted, k)
    ensures var t := sorted[..m];
      && TotalsExact(rows, col, t)
      && (forall i :: 0 <= i < |t| ==> t[i].key in KeySet(rows, col))
      && (forall i, j :: 0 <= i < j < |t| ==> t[i].key != t[j].key)
      && RankOrdered(t)
      && (forall k :: k in KeySet(rows, col) && !Listed(t, k) ==>
            forall i :: 0 <= i < |t| ==> Outranks(t[i], Ranked(k, GroupTotal(rows, col, k))))
  {
    var t := sorted[..m];
    forall i | 0 <= i < |t| ensures t[i].key in KeySet(rows, col) {
      assert t[i] == sorted[i];
    }
    forall i, j | 0 <= i < j < |t| ensures t[i].key != t[j].key {
      assert Outranks(t[i], t[j]);
    }
    forall k, i | k in KeySet(rows, col) && !Listed(t, k) && 0 <= i < |t|
      ensures Outranks(t[i], Ranked(k, GroupTotal(rows, col, k)))
    {
      var q :| 0 <= q < |sorted| && sorted[q].key == k;
      assert q >= |t|;
      assert sorted[q] == Ranked(k, GroupTotal(rows, col, k));
      assert Outranks(sorted[i], sorted[q]);
    }
  }

  /** The grouped totals in ranking order: one entry per distinct key, each
      with its exact total, ordered by Outranks. */
  lemma {:induction false} RankedGroups(rows: seq<Row>, col: Column)
    ensures var sorted := SortDescending(GroupBySum(rows, col));
      && |sorted| == |KeySet(rows, col)|
      && TotalsExact(rows, col, sorted)
      && RankOrdered(sorted)
      && (forall k :: k in KeySet(rows, col) <==> Listed(sorted, k))
  {
    var gs := GroupBySum(rows, col);
    SortDescendingRankOrdered(gs);
    PermutedGroups(rows, col, gs, SortDescending(gs));
  }

  /** Reordering a list of groups keeps its length, its exact totals and
      the keys it lists. */
  lemma {:induction false} PermutedGroups(rows: seq<Row>, col: Column, gs: seq<Ranked>, sorted: seq<Ranked>)
    requires multiset(sorted) == multiset(gs)
    requires TotalsExact(rows, col, gs)
    ensures |sorted| == |gs|
    ensures TotalsExact(rows, col, sorted)
    ensures forall k :: Listed(gs, k) <==> Listed(sorted, k)
  {
    assert |multiset(sorted)| == |multiset(gs)|;
    forall i | 0 <= i < |sorted|
      ensures sorted[i].total == GroupTotal(rows, col, sorted[i].key) && Listed(gs, sorted[i].key)
    {
      assert sorted[i] in multiset(gs);
      var p :| 0 <= p < |gs| && gs[p] == sorted[i];
    }
    forall k | Listed(gs, k) ensures Listed(sorted, k) {
      var p :| 0 <= p < |gs| && gs[p].key == k;
      assert gs[p] in multiset(sorted);
      var q :| 0 <= q < |sorted| && sorted[q] == gs[p];
    }
  }
}
