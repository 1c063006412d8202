/** Lexicographic order on strings by character code point: the order in which
    grouping keys come out of a sorted group-by, and the one that breaks ties
    between equal totals in a top-N ranking. A proper prefix sorts first. */
module Lexicographic {

  /** `a` sorts strictly before `b`. No string sorts before itself. */
  predicate Less(a: string, b: string)
    ensures Less(a, b) ==> a != b
    decreases |a|
  {
    if |a| == 0 then |b| > 0
    else if |b| == 0 then false
    else if a[0] != b[0] then a[0] < b[0]
    else Less(a[1..], b[1..])
  }

  lemma {:induction false} Transitive(a: string, b: string, c: string)
    requires Less(a, b) && Less(b, c)
    ensures Less(a, c)
    decreases |a|
  {
    if |a| > 0 && a[0] == b[0] && b[0] == c[0] {
      Transitive(a[1..], b[1..], c[1..]);
    }
  }

  /** Any two different strings are ordered one way or the other. */
  lemma {:induction false} Trichotomy(a: string, b: string)
    requires a != b
    ensures Less(a, b) || Less(b, a)
    decreases |a|
  {
    if |a| > 0 && |b| > 0 && a[0] == b[0] {
      assert a == [a[0]] + a[1..] && b == [b[0]] + b[1..];
      Trichotomy(a[1..], b[1..]);
    }
  }

  /** At most one of the two directions holds. */
  lemma {:induction false} Asymmetric(a: string, b: string)
    requires Less(a, b)
    ensures !Less(b, a)
  {
    if Less(b, a) {
      Transitive(a, b, a);
    }
  }

  /** The set of keys in `ks`. */
  function Elements(ks: seq<string>): set<string>
  {
    set k | k in ks
  }

  /** The keys of `ks` are strictly ascending (hence pairwise distinct). */
  predicate StrictlyAscending(ks: seq<string>)
  {
    forall i, j :: 0 <= i < j < |ks| ==> Less(ks[i], ks[j])
  }

  /** Strictly ascending keys are pairwise distinct. */
  lemma {:induction false} AscendingDistinct(ks: seq<string>, i: int, j: int)
    requires StrictlyAscending(ks)
    requires 0 <= i < |ks| && 0 <= j < |ks| && i != j
    ensures ks[i] != ks[j]
  {
    if i < j { assert Less(ks[i], ks[j]); } else { assert Less(ks[j], ks[i]); }
  }

  /** A strictly ascending sequence has as many elements as its set of keys. */
  lemma {:induction false} AscendingCardinality(ks: seq<string>)
    requires StrictlyAscending(ks)
    ensures |Elements(ks)| == |ks|
  {
    if |ks| > 0 {
      var rest := ks[1..];
      AscendingCardinality(rest);
      assert Elements(ks) == {ks[0]} + Elements(rest);
      assert ks[0] !in rest by {
        forall j | 0 <= j < |rest| ensures rest[j] != ks[0] {
          assert Less(ks[0], ks[j + 1]);
        }
      }
    }
  }

  /** Two strictly ascending sequences with the same keys are equal. */
  lemma {:induction false} AscendingUnique(xs: seq<string>, ys: seq<string>)
    requires StrictlyAscending(xs) && StrictlyAscending(ys)
    requires Elements(xs) == Elements(ys)
    ensures xs == ys
    decreases |xs|
  {
    if |xs| == 0 {
      AscendingCardinality(xs);
      AscendingCardinality(ys);
    } else {
      assert xs[0] in Elements(ys);
      assert ys != [];
      assert ys[0] in Elements(xs);
      if xs[0] != ys[0] {
        var i :| 0 <= i < |xs| && xs[i] == ys[0];
        var j :| 0 <= j < |ys| && ys[j] == xs[0];
        assert i > 0 && j > 0;
        assert Less(xs[0], ys[0]) && Less(ys[0], xs[0]);
        Asymmetric(xs[0], ys[0]);
      }
      forall k | k in xs[1..] ensures k in ys[1..] {
        var i :| 1 <= i < |xs| && xs[i] == k;
        AscendingDistinct(xs, 0, i);
        assert k in Elements(xs);
        var j :| 0 <= j < |ys| && ys[j] == k;
        assert j > 0 && ys[1..][j - 1] == k;
      }
      forall k | k in ys[1..] ensures k in xs[1..] {
        var j :| 1 <= j < |ys| && ys[j] == k;
        AscendingDistinct(ys, 0, j);
        assert k in Elements(ys);
        var i :| 0 <= i < |xs| && xs[i] == k;
        assert i > 0 && xs[1..][i - 1] == k;
      }
      assert Elements(xs[1..]) == Elements(ys[1..]);
      AscendingUnique(xs[1..], ys[1..]);
      assert xs == [xs[0]] + xs[1..] && ys == [ys[0]] + ys[1..];
    }
  }

  /** Inserts `k` into a strictly ascending sequence, keeping it strictly
      ascending; a key already present is not added twice. */
  function Insert(k: string, ks: seq<string>): (r: seq<string>)
    requires StrictlyAscending(ks)
    ensures StrictlyAscending(r)
    ensures Elements(r) == Elements(ks) + {k}
  {
    if |ks| == 0 then [k]
    else if ks[0] == k then ks
    else if Less(k, ks[0]) then
      InsertFront(k, ks);
      [k] + ks
    else
      Trichotomy(k, ks[0]);
      var tail := Insert(k, ks[1..]);
      InsertAfterHead(k, ks, tail);
      [ks[0]] + tail
  }

  /** A key below the first of a strictly ascending sequence goes in front. */
  lemma {:induction false} InsertFront(k: string, ks: seq<string>)
    requires StrictlyAscending(ks) && |ks| > 0 && Less(k, ks[0])
    ensures StrictlyAscending([k] + ks)
    ensures Elements([k] + ks) == Elements(ks) + {k}
  {
    forall j | 0 < j < |ks| ensures Less(k, ks[j]) { Transitive(k, ks[0], ks[j]); }
  }

  /** A key above the first of a strictly ascending sequence goes into its
      tail, and the first key stays in front. */
  lemma {:induction false} InsertAfterHead(k: string, ks: seq<string>, tail: seq<string>)
    requires StrictlyAscending(ks) && |ks| > 0 && Less(ks[0], k)
    requires StrictlyAscending(tail) && Elements(tail) == Elements(ks[1..]) + {k}
    ensures StrictlyAscending([ks[0]] + tail)
    ensures Elements([ks[0]] + tail) == Elements(ks) + {k}
  {
    forall x | x in tail ensures Less(ks[0], x) {
      assert x in Elements(tail);
      if x != k {
        var j :| 0 <= j < |ks[1..]| && ks[1..][j] == x;
        assert ks[j + 1] == x;
      }
    }
    assert Elements(ks) == {ks[0]} + Elements(ks[1..]) by {
      assert ks == [ks[0]] + ks[1..];
    }
    var r := [ks[0]] + tail;
    forall i, j | 0 <= i < j < |r| ensures Less(r[i], r[j]) {
      if i == 0 { assert r[j] == tail[j - 1] && r[j] in tail; } else { assert r[i] == tail[i - 1] && r[j] == tail[j - 1]; }
    }
    assert Elements(r) == {ks[0]} + Elements(tail);
  }
}
