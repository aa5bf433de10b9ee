/** Operations on an ordered table of rows, standing in for the few dataframe
    calls the dashboard makes: boolean-mask selection, taking a column,
    `unique` in first-seen order, and group-by sums.  Every recursion peels
    off the LAST row, so that the inductions over the different operations
    line up. */
module Frame {

  /** `a` is `b` with some elements deleted and the rest kept in order. */
  predicate IsSubsequence<T(==,!new)>(a: seq<T>, b: seq<T>)
    decreases |b|
  {
    |a| == 0 ||
    (|b| > 0 &&
     ((a[|a| - 1] == b[|b| - 1] && IsSubsequence(a[..|a| - 1], b[..|b| - 1])) ||
      IsSubsequence(a, b[..|b| - 1])))
  }

  /** No element occurs twice. */
  predicate Distinct<K(==,!new)>(s: seq<K>) {
    forall i, j :: 0 <= i < j < |s| ==> s[i] != s[j]
  }

  /** `rows[mask]`: the rows that satisfy `keep`, in table order. */
  function Where<T(==,!new)>(rows: seq<T>, keep: T -> bool): (r: seq<T>)
    decreases |rows|
    ensures |r| <= |rows|
    ensures forall x :: x in r <==> x in rows && keep(x)
  {
    if |rows| == 0 then []
    else
      var init, last := rows[..|rows| - 1], rows[|rows| - 1];
      assert rows == init + [last];
      var kept := Where(init, keep);
      if keep(last) then kept + [last] else kept
  }

  /** `df[column]`: one value per row, in table order. */
  function Column<T(==,!new), K(==,!new)>(rows: seq<T>, f: T -> K): (c: seq<K>)
    decreases |rows|
    ensures |c| == |rows|
    ensures forall i :: 0 <= i < |rows| ==> c[i] == f(rows[i])
  {
    if |rows| == 0 then [] else Column(rows[..|rows| - 1], f) + [f(rows[|rows| - 1])]
  }

  /** `df[column].sum()` for the column given by `w`. */
  function SumOf<T(==,!new)>(rows: seq<T>, w: T -> int): int
    decreases |rows|
  {
    if |rows| == 0 then 0 else SumOf(rows[..|rows| - 1], w) + w(rows[|rows| - 1])
  }

  /** The set of values occurring in `xs`. */
  function Elements<K(==,!new)>(xs: seq<K>): set<K> {
    set x | x in xs
  }

  /** `Series.unique()`: each value once, in the order of its first occurrence. */
  function Unique<K(==,!new)>(xs: seq<K>): (u: seq<K>)
    decreases |xs|
    ensures forall x :: x in u <==> x in xs
    ensures Distinct(u)
  {
    if |xs| == 0 then []
    else
      var init, last := xs[..|xs| - 1], xs[|xs| - 1];
      assert xs == init + [last];
      var seen := Unique(init);
      if last in seen then seen else seen + [last]
  }

  /** The index of the first occurrence of `x` in `xs`. */
  function FirstSeen<K(==,!new)>(xs: seq<K>, x: K): (k: nat)
    requires x in xs
    ensures k < |xs| && xs[k] == x
    ensures forall j :: 0 <= j < k ==> xs[j] != x
  {
    if xs[0] == x then 0 else 1 + FirstSeen(xs[1..], x)
  }

  /** The predicate "this row's key is `k`", the mask a group-by selects one group with. */
  function KeyIs<T(==,!new), K(==,!new)>(key: T -> K, k: K): T -> bool {
    x => key(x) == k
  }

  lemma KeyIsHolds<T(!new), K(!new)>(key: T -> K, k: K, x: T)
    ensures KeyIs(key, k)(x) <==> key(x) == k
  {
  }

  /** The `w`-totals of the groups `us`, added up in the order of `us`. */
  function GroupTotals<T(==,!new), K(==,!new)>(us: seq<K>, rows: seq<T>, key: T -> K, w: T -> int): int
    decreases |us|
  {
    if |us| == 0 then 0
    else GroupTotals(us[..|us| - 1], rows, key, w) + SumOf(Where(rows, KeyIs(key, us[|us| - 1])), w)
  }

  /** The values of the keys `ks` of `m`, added up in the order of `ks`. */
  function SumOverKeys<K(==,!new)>(ks: seq<K>, m: map<K, int>): int
    requires forall k :: k in ks ==> k in m
    decreases |ks|
  {
    if |ks| == 0 then 0 else SumOverKeys(ks[..|ks| - 1], m) + m[ks[|ks| - 1]]
  }

  /** A sequence with no element is empty. */
  lemma NoElementIsEmpty<T(!new)>(s: seq<T>)
    requires forall x :: x !in s
    ensures s == []
  {
    if |s| > 0 {
      HeadIsElement(s);
      assert false;
    }
  }

  lemma HeadIsElement<T>(s: seq<T>)
    requires |s| > 0
    ensures s[0] in s
  {
  }

  // ---------------------------------------------------------------------
  // Subsequences

  lemma {:induction false} SubsequenceOfExtension<T(!new)>(a: seq<T>, b: seq<T>, x: T)
    requires IsSubsequence(a, b)
    ensures IsSubsequence(a, b + [x])
  {
    assert (b + [x])[..|b|] == b;
  }

  lemma {:induction false} SubsequenceLength<T(!new)>(a: seq<T>, b: seq<T>)
    requires IsSubsequence(a, b)
    ensures |a| <= |b|
    decreases |b|
  {
    if |a| > 0 {
      if a[|a| - 1] == b[|b| - 1] && IsSubsequence(a[..|a| - 1], b[..|b| - 1]) {
        SubsequenceLength(a[..|a| - 1], b[..|b| - 1]);
      } else {
        SubsequenceLength(a, b[..|b| - 1]);
      }
    }
  }

  lemma {:induction false} SubsequenceTransitive<T(!new)>(a: seq<T>, b: seq<T>, c: seq<T>)
    requires IsSubsequence(a, b) && IsSubsequence(b, c)
    ensures IsSubsequence(a, c)
    decreases |c|
  {
    if |a| > 0 {
      if b[|b| - 1] == c[|c| - 1] && IsSubsequence(b[..|b| - 1], c[..|c| - 1]) {
        if a[|a| - 1] == b[|b| - 1] && IsSubsequence(a[..|a| - 1], b[..|b| - 1]) {
          SubsequenceTransitive(a[..|a| - 1], b[..|b| - 1], c[..|c| - 1]);
        } else {
          SubsequenceTransitive(a, b[..|b| - 1], c[..|c| - 1]);
        }
      } else {
        SubsequenceTransitive(a, b, c[..|c| - 1]);
      }
    }
  }

  // ---------------------------------------------------------------------
  // Selection

  /** A selection keeps its rows in table order. */
  lemma {:induction false} WhereIsSubsequence<T(!new)>(rows: seq<T>, keep: T -> bool)
    ensures IsSubsequence(Where(rows, keep), rows)
    decreases |rows|
  {
    if |rows| > 0 {
      var init, last := rows[..|rows| - 1], rows[|rows| - 1];
      WhereIsSubsequence(init, keep);
      if keep(last) {
        var kept := Where(init, keep);
        assert (kept + [last])[..|kept|] == kept;
      }
    }
  }

  /** A weaker mask keeps every row a stronger one keeps, in the same order. */
  lemma {:induction false} WhereMonotone<T(!new)>(rows: seq<T>, p: T -> bool, q: T -> bool)
    requires forall x :: p(x) ==> q(x)
    ensures IsSubsequence(Where(rows, p), Where(rows, q))
    decreases |rows|
  {
    if |rows| > 0 {
      var init, last := rows[..|rows| - 1], rows[|rows| - 1];
      WhereMonotone(init, p, q);
      var a, b := Where(init, p), Where(init, q);
      if p(last) {
        assert (a + [last])[..|a|] == a;
        assert (b + [last])[..|b|] == b;
      } else if q(last) {
        SubsequenceOfExtension(a, b, last);
      }
    }
  }

  /** Applying the same mask to a subsequence gives a subsequence of the result. */
  lemma {:induction false} WherePreservesSubsequence<T(!new)>(a: seq<T>, b: seq<T>, keep: T -> bool)
    requires IsSubsequence(a, b)
    ensures IsSubsequence(Where(a, keep), Where(b, keep))
    decreases |b|
  {
    if |a| == 0 {
    } else {
      var bi, bl := b[..|b| - 1], b[|b| - 1];
      var wb := Where(bi, keep);
      if a[|a| - 1] == bl && IsSubsequence(a[..|a| - 1], bi) {
        var ai := a[..|a| - 1];
        WherePreservesSubsequence(ai, bi, keep);
        var wa := Where(ai, keep);
        if keep(bl) {
          assert (wa + [bl])[..|wa|] == wa;
          assert (wb + [bl])[..|wb|] == wb;
        }
      } else {
        WherePreservesSubsequence(a, bi, keep);
        if keep(bl) {
          SubsequenceOfExtension(Where(a, keep), wb, bl);
        }
      }
    }
  }

  /** A selection keeps every copy of a row the mask accepts and no copy of any other. */
  lemma {:induction false} WhereMultiplicity<T(!new)>(rows: seq<T>, keep: T -> bool)
    ensures forall x :: multiset(Where(rows, keep))[x] == if keep(x) then multiset(rows)[x] else 0
    decreases |rows|
  {
    if |rows| > 0 {
      var init, last := rows[..|rows| - 1], rows[|rows| - 1];
      assert rows == init + [last];
      WhereMultiplicity(init, keep);
    }
  }

  /** A mask that every row satisfies selects the whole table. */
  lemma {:induction false} WhereKeepsAll<T(!new)>(rows: seq<T>, keep: T -> bool)
    requires forall x :: x in rows ==> keep(x)
    ensures Where(rows, keep) == rows
    decreases |rows|
  {
    if |rows| > 0 {
      var init, last := rows[..|rows| - 1], rows[|rows| - 1];
      assert rows == init + [last];
      WhereKeepsAll(init, keep);
    }
  }

  // ---------------------------------------------------------------------
  // `unique`

  lemma {:induction false} FirstSeenInPrefix<K(!new)>(p: seq<K>, z: K, y: K)
    requires y in p
    ensures FirstSeen(p + [z], y) == FirstSeen(p, y)
  {
    var a := FirstSeen(p, y);
    assert (p + [z])[a] == y;
    assert forall j :: 0 <= j < a ==> (p + [z])[j] == p[j];
  }

  /** `unique` lists the values in the order of their first occurrence. */
  lemma {:induction false} UniqueKeepsFirstSeenOrder<K(!new)>(xs: seq<K>, i: nat, j: nat)
    requires i < j < |Unique(xs)|
    ensures FirstSeen(xs, Unique(xs)[i]) < FirstSeen(xs, Unique(xs)[j])
    decreases |xs|
  {
    var init, last := xs[..|xs| - 1], xs[|xs| - 1];
    assert xs == init + [last];
    var seen := Unique(init);
    if j < |seen| {
      assert Unique(xs)[i] == seen[i] && Unique(xs)[j] == seen[j];
      UniqueKeepsFirstSeenOrder(init, i, j);
      FirstSeenInPrefix(init, last, seen[i]);
      FirstSeenInPrefix(init, last, seen[j]);
    } else {
      assert last !in seen && Unique(xs)[j] == last && Unique(xs)[i] == seen[i];
      FirstSeenInPrefix(init, last, seen[i]);
      assert FirstSeen(xs, last) == |init|;
    }
  }

  lemma {:induction false} DistinctCardinality<K(!new)>(s: seq<K>)
    requires Distinct(s)
    ensures |Elements(s)| == |s|
    decreases |s|
  {
    if |s| > 0 {
      var init, last := s[..|s| - 1], s[|s| - 1];
      assert s == init + [last];
      DistinctCardinality(init);
      assert Elements(s) == Elements(init) + {last};
      assert last !in Elements(init);
    }
  }

  /** `unique` has one entry per distinct value. */
  lemma UniqueLength<K(!new)>(xs: seq<K>)
    ensures |Unique(xs)| == |Elements(xs)|
  {
    DistinctCardinality(Unique(xs));
    assert Elements(Unique(xs)) == Elements(xs);
  }

  // ---------------------------------------------------------------------
  // Group-by sums

  lemma {:induction false} SumOfAllOnes<T(!new)>(rows: seq<T>, w: T -> int)
    requires forall x :: w(x) == 1
    ensures SumOf(rows, w) == |rows|
    decreases |rows|
  {
    if |rows| > 0 {
      SumOfAllOnes(rows[..|rows| - 1], w);
    }
  }

  /** The sum over a table with one more row `x` on the end. */
  lemma SumOfExtension<T(!new)>(rows: seq<T>, x: T, w: T -> int)
    ensures SumOf(rows + [x], w) == SumOf(rows, w) + w(x)
  {
    assert (rows + [x])[..|rows|] == rows;
  }

  /** A group whose key no row has is empty. */
  lemma WhereOfAbsentKey<T(!new), K(!new)>(rows: seq<T>, key: T -> K, k: K)
    requires k !in Column(rows, key)
    ensures Where(rows, KeyIs(key, k)) == []
  {
    var group := Where(rows, KeyIs(key, k));
    if |group| > 0 {
      KeyIsHolds(key, k, group[0]);
      assert false;
    }
  }

  /** `value_counts`: the size of a group is the number of times its key occurs in the key column. */
  lemma {:induction false} GroupSizeIsKeyCount<T(!new), K(!new)>(rows: seq<T>, key: T -> K, k: K)
    ensures |Where(rows, KeyIs(key, k))| == multiset(Column(rows, key))[k]
    decreases |rows|
  {
    if |rows| > 0 {
      var init, last := rows[..|rows| - 1], rows[|rows| - 1];
      GroupSizeIsKeyCount(init, key, k);
      KeyIsHolds(key, k, last);
      assert Column(rows, key) == Column(init, key) + [key(last)];
    }
  }

  /** The last row of the table adds its weight to the total of its own group, if listed, and to no other. */
  lemma {:induction false} GroupTotalsOfLastRow<T(!new), K(!new)>(us: seq<K>, rows: seq<T>, key: T -> K, w: T -> int)
    requires Distinct(us) && |rows| > 0
    ensures GroupTotals(us, rows, key, w)
            == GroupTotals(us, rows[..|rows| - 1], key, w) + (if key(rows[|rows| - 1]) in us then w(rows[|rows| - 1]) else 0)
    decreases |us|
  {
    if |us| > 0 {
      var init, k := us[..|us| - 1], us[|us| - 1];
      assert us == init + [k];
      assert Distinct(init);
      GroupTotalsOfLastRow(init, rows, key, w);
      var last := rows[|rows| - 1];
      var kept := Where(rows[..|rows| - 1], KeyIs(key, k));
      KeyIsHolds(key, k, last);
      if key(last) == k {
        assert Where(rows, KeyIs(key, k)) == kept + [last];
        SumOfExtension(kept, last, w);
        assert key(last) !in init;
      } else {
        assert Where(rows, KeyIs(key, k)) == kept;
      }
    }
  }

  /** Grouping and summing per group, then adding up the groups, gives the plain total. */
  lemma {:induction false} GroupByTotal<T(!new), K(!new)>(rows: seq<T>, key: T -> K, w: T -> int)
    ensures GroupTotals(Unique(Column(rows, key)), rows, key, w) == SumOf(rows, w)
    decreases |rows|
  {
    if |rows| > 0 {
      var init, last := rows[..|rows| - 1], rows[|rows| - 1];
      var kl := key(last);
      var col := Column(rows, key);
      var seen := Unique(Column(init, key));
      assert col[..|col| - 1] == Column(init, key);
      assert Unique(col) == if kl in seen then seen else seen + [kl];
      assert GroupTotals(seen, rows, key, w) == SumOf(init, w) + (if kl in seen then w(last) else 0) by {
        GroupByTotal(init, key, w);
        GroupTotalsOfLastRow(seen, rows, key, w);
      }
      if kl !in seen {
        assert (seen + [kl])[..|seen|] == seen;
        assert SumOf(Where(rows, KeyIs(key, kl)), w) == w(last) by {
          WhereOfAbsentKey(init, key, kl);
          KeyIsHolds(key, kl, last);
          assert Where(rows, KeyIs(key, kl)) == [last];
          SumOfExtension([], last, w);
        }
      }
    }
  }

  /** Summing a map over a listing of its keys gives the group totals when each value is its group's total. */
  lemma {:induction false} SumOverKeysIsGroupTotals<T(!new), K(!new)>(ks: seq<K>, m: map<K, int>, rows: seq<T>, key: T -> K, w: T -> int)
    requires forall k :: k in ks ==> k in m && m[k] == SumOf(Where(rows, KeyIs(key, k)), w)
    ensures SumOverKeys(ks, m) == GroupTotals(ks, rows, key, w)
    decreases |ks|
  {
    if |ks| > 0 {
      SumOverKeysIsGroupTotals(ks[..|ks| - 1], m, rows, key, w);
    }
  }
}
