/**
 * In-memory tables: the `filter(...).length` counts, the `reduce` sums, the
 * `[...new Set(ids.filter(Boolean))]` id lists and the last-wins `new Map(rows)` lookup
 * that the handlers build over fetched rows. Every function reads the rows from first to
 * last, as the JavaScript array methods do.
 */
module Tables {
  import opened Values

  /** `data || []` on a fetched result that may be null. */
  function OrEmpty<T>(data: Option<seq<T>>): (rows: seq<T>)
    ensures data.None? ==> rows == []
    ensures data.Some? ==> rows == data.value
  {
    data.GetOr([])
  }

  /** `rows.map(f)`: one output per row, in order. */
  function MapRows<T, U>(s: seq<T>, f: T -> U): (r: seq<U>)
    ensures |r| == |s|
    ensures forall i :: 0 <= i < |s| ==> r[i] == f(s[i])
  {
    seq(|s|, i requires 0 <= i < |s| => f(s[i]))
  }

  // ---------------------------------------------------------------------------
  // Counting: `rows.filter(p).length`
  // ---------------------------------------------------------------------------

  function Count<T>(s: seq<T>, p: T -> bool): (n: nat)
    ensures n <= |s|
  {
    if |s| == 0 then 0 else Count(s[..|s| - 1], p) + (if p(s[|s| - 1]) then 1 else 0)
  }

  /** Every row is counted exactly when every row satisfies the filter. */
  lemma {:induction false} CountIsTotal<T>(s: seq<T>, p: T -> bool)
    ensures Count(s, p) == |s| <==> forall i :: 0 <= i < |s| ==> p(s[i])
  {
    if |s| > 0 {
      var t := s[..|s| - 1];
      CountIsTotal(t, p);
      assert forall i :: 0 <= i < |t| ==> t[i] == s[i];
    }
  }

  /** No row is counted exactly when no row satisfies the filter. */
  lemma {:induction false} CountIsZero<T>(s: seq<T>, p: T -> bool)
    ensures Count(s, p) == 0 <==> forall i :: 0 <= i < |s| ==> !p(s[i])
  {
    if |s| > 0 {
      var t := s[..|s| - 1];
      CountIsZero(t, p);
      assert forall i :: 0 <= i < |t| ==> t[i] == s[i];
    }
  }

  /** A weaker filter counts at least as many rows. */
  lemma {:induction false} CountMonotone<T>(s: seq<T>, p: T -> bool, q: T -> bool)
    requires forall i :: 0 <= i < |s| && p(s[i]) ==> q(s[i])
    ensures Count(s, p) <= Count(s, q)
  {
    if |s| > 0 {
      var t := s[..|s| - 1];
      assert forall i :: 0 <= i < |t| ==> t[i] == s[i];
      CountMonotone(t, p, q);
    }
  }

  /** Counting distributes over concatenation of tables. */
  lemma {:induction false} CountAppend<T>(s: seq<T>, t: seq<T>, p: T -> bool)
    ensures Count(s + t, p) == Count(s, p) + Count(t, p)
  {
    if |t| > 0 {
      var t' := t[..|t| - 1];
      assert (s + t)[..|s + t| - 1] == s + t';
      CountAppend(s, t', p);
    } else {
      assert s + t == s;
    }
  }

  /** Counting mapped rows with `q` is counting the rows with any `p` that agrees with `q` after the map. */
  lemma {:induction false} CountMapRows<T, U>(s: seq<T>, f: T -> U, q: U -> bool, p: T -> bool)
    requires forall i :: 0 <= i < |s| ==> q(f(s[i])) == p(s[i])
    ensures Count(MapRows(s, f), q) == Count(s, p)
  {
    if |s| > 0 {
      var t := s[..|s| - 1];
      assert MapRows(s, f)[..|s| - 1] == MapRows(t, f);
      assert forall i :: 0 <= i < |t| ==> t[i] == s[i];
      CountMapRows(t, f, q, p);
    }
  }

  /** A filter that accepts exactly one row counts one. */
  lemma CountOne<T>(s: seq<T>, p: T -> bool, i: int)
    requires 0 <= i < |s| && p(s[i])
    requires forall j :: 0 <= j < |s| && j != i ==> !p(s[j])
    ensures Count(s, p) == 1
  {
    var a, b := s[..i], s[i + 1..];
    assert s == a + [s[i]] + b;
    CountAppend(a + [s[i]], b, p);
    CountAppend(a, [s[i]], p);
    assert forall j :: 0 <= j < |a| ==> a[j] == s[j];
    assert forall j :: 0 <= j < |b| ==> b[j] == s[i + 1 + j];
    CountIsZero(a, p);
    CountIsZero(b, p);
  }

  /** `rows.filter(p)`: the accepted rows, in table order. */
  function Filter<T>(s: seq<T>, p: T -> bool): (r: seq<T>)
    ensures |r| == Count(s, p)
    ensures forall i :: 0 <= i < |r| ==> r[i] in s && p(r[i])
    ensures forall i :: 0 <= i < |s| && p(s[i]) ==> s[i] in r
  {
    if |s| == 0 then []
    else
      var t := s[..|s| - 1];
      assert s == t + [s[|s| - 1]];
      Filter(t, p) + (if p(s[|s| - 1]) then [s[|s| - 1]] else [])
  }

  /** When the filter accepts exactly one row, the filtered table is that row. */
  lemma FilterOne<T>(s: seq<T>, p: T -> bool, i: int)
    requires 0 <= i < |s| && p(s[i]) && Count(s, p) == 1
    ensures Filter(s, p) == [s[i]]
  {
    var r := Filter(s, p);
    assert s[i] in r;
  }

  /** When the filter accepts exactly one row and `x` is an accepted row, the filtered table is `x`. */
  lemma FilterOnly<T>(s: seq<T>, p: T -> bool, x: T)
    requires x in s && p(x) && Count(s, p) == 1
    ensures Filter(s, p) == [x]
  {
    var i :| 0 <= i < |s| && s[i] == x;
    FilterOne(s, p, i);
  }

  /** `.delete()` with filter `p`: the rows `p` rejects remain, in table order. */
  function Reject<T>(s: seq<T>, p: T -> bool): (r: seq<T>)
    ensures |r| == |s| - Count(s, p)
    ensures forall i :: 0 <= i < |r| ==> r[i] in s && !p(r[i])
    ensures forall i :: 0 <= i < |s| && !p(s[i]) ==> s[i] in r
    ensures Count(s, p) == 0 ==> r == s
  {
    if |s| == 0 then []
    else
      var t := s[..|s| - 1];
      assert s == t + [s[|s| - 1]];
      Reject(t, p) + (if p(s[|s| - 1]) then [] else [s[|s| - 1]])
  }

  /** The last row kept or removed keeps the remaining and removed rows a split of the table. */
  lemma SplitLast<T>(kept: seq<T>, removed: seq<T>, s: seq<T>, kept': seq<T>, removed': seq<T>)
    requires |s| > 0
    requires multiset(kept) + multiset(removed) == multiset(s[..|s| - 1])
    requires var x := s[|s| - 1];
             (kept' == kept + [x] && removed' == removed) || (kept' == kept && removed' == removed + [x])
    ensures multiset(kept') + multiset(removed') == multiset(s)
  {
    var t, x := s[..|s| - 1], s[|s| - 1];
    assert s == t + [x];
    assert multiset(s) == multiset(t) + multiset{x};
  }

  /** A delete loses exactly the rows its filter selects: the remaining and removed rows make up the table. */
  lemma {:induction false} RejectAndFilterSplit<T>(s: seq<T>, p: T -> bool)
    ensures multiset(Reject(s, p)) + multiset(Filter(s, p)) == multiset(s)
  {
    if |s| > 0 {
      var t, x := s[..|s| - 1], s[|s| - 1];
      RejectAndFilterSplit(t, p);
      var kept, removed := Reject(t, p), Filter(t, p);
      var kept', removed' := Reject(s, p), Filter(s, p);
      assert kept' == kept + (if p(x) then [] else [x]);
      assert removed' == removed + (if p(x) then [x] else []);
      SplitLast(kept, removed, s, kept', removed');
    }
  }

  /** The rows whose key is `k` (`.eq(column, k)`). */
  function KeyIs<T>(key: T -> string, k: string): T -> bool {
    (x: T) => key(x) == k
  }

  // ---------------------------------------------------------------------------
  // Buckets: several disjoint filters over one table
  // ---------------------------------------------------------------------------

  /** The sum of the counts of each filter in `ps`. */
  function CountEach<T>(s: seq<T>, ps: seq<T -> bool>): nat {
    if |ps| == 0 then 0 else CountEach(s, ps[..|ps| - 1]) + Count(s, ps[|ps| - 1])
  }

  /** How many of the filters in `ps` accept `x`. */
  function Hits<T>(x: T, ps: seq<T -> bool>): (n: nat)
    ensures n <= |ps|
  {
    if |ps| == 0 then 0 else Hits(x, ps[..|ps| - 1]) + (if ps[|ps| - 1](x) then 1 else 0)
  }

  /** No row of `s` is accepted by two of the filters. */
  ghost predicate Disjoint<T>(s: seq<T>, ps: seq<T -> bool>) {
    forall i, j, k :: 0 <= i < |s| && 0 <= j < k < |ps| ==> !(ps[j](s[i]) && ps[k](s[i]))
  }

  /** Some filter in `ps` accepts `x`. */
  ghost predicate InSomeBucket<T>(x: T, ps: seq<T -> bool>) {
    exists j :: 0 <= j < |ps| && ps[j](x)
  }

  /** Every row of `s` is accepted by some filter. */
  ghost predicate Covered<T>(s: seq<T>, ps: seq<T -> bool>) {
    forall i :: 0 <= i < |s| ==> InSomeBucket(s[i], ps)
  }

  lemma {:induction false} CountEachSnoc<T>(s: seq<T>, x: T, ps: seq<T -> bool>)
    ensures CountEach(s + [x], ps) == CountEach(s, ps) + Hits(x, ps)
  {
    if |ps| > 0 {
      CountEachSnoc(s, x, ps[..|ps| - 1]);
      assert (s + [x])[..|s + [x]| - 1] == s;
    }
  }

  lemma {:induction false} HitsAtMostOne<T>(x: T, ps: seq<T -> bool>)
    requires forall j, k :: 0 <= j < k < |ps| ==> !(ps[j](x) && ps[k](x))
    ensures Hits(x, ps) <= 1
    ensures Hits(x, ps) == 0 <==> forall j :: 0 <= j < |ps| ==> !ps[j](x)
  {
    if |ps| > 0 {
      var qs := ps[..|ps| - 1];
      HitsAtMostOne(x, qs);
      if ps[|ps| - 1](x) {
        assert forall j :: 0 <= j < |qs| ==> !qs[j](x) by {
          forall j | 0 <= j < |qs| ensures !qs[j](x) { assert qs[j] == ps[j]; }
        }
      }
      if forall j :: 0 <= j < |qs| ==> !qs[j](x) {
        assert forall j :: 0 <= j < |ps| - 1 ==> !ps[j](x) by {
          forall j | 0 <= j < |ps| - 1 ensures !ps[j](x) { assert qs[j] == ps[j]; }
        }
      } else {
        var j :| 0 <= j < |qs| && qs[j](x);
        assert ps[j](x);
      }
    }
  }

  /**
   * Disjoint filters together count at most every row once; when they also cover every
   * row, they count every row exactly once.
   */
  lemma {:induction false} Buckets<T>(s: seq<T>, ps: seq<T -> bool>)
    requires Disjoint(s, ps)
    ensures CountEach(s, ps) <= |s|
    ensures Covered(s, ps) ==> CountEach(s, ps) == |s|
  {
    if |s| == 0 {
      assert CountEach(s, ps) == 0 by { CountEachEmpty(ps); }
    } else {
      var t, x := s[..|s| - 1], s[|s| - 1];
      assert s == t + [x];
      assert Disjoint(t, ps) by {
        forall i, j, k | 0 <= i < |t| && 0 <= j < k < |ps| ensures !(ps[j](t[i]) && ps[k](t[i])) {
          assert t[i] == s[i];
        }
      }
      Buckets(t, ps);
      CountEachSnoc(t, x, ps);
      HitsAtMostOne(x, ps);
      if Covered(s, ps) {
        assert Covered(t, ps) by {
          forall i | 0 <= i < |t| ensures InSomeBucket(t[i], ps) {
            assert t[i] == s[i];
          }
        }
        var j :| 0 <= j < |ps| && ps[j](s[|s| - 1]);
      }
    }
  }

  lemma CountEachOfThree<T>(s: seq<T>, a: T -> bool, b: T -> bool, c: T -> bool)
    ensures CountEach(s, [a, b, c]) == Count(s, a) + Count(s, b) + Count(s, c)
  {
    assert CountEach(s, [a]) == Count(s, a) by { assert [a][..0] == []; }
    assert CountEach(s, [a, b]) == CountEach(s, [a]) + Count(s, b) by { assert [a, b][..1] == [a]; }
    assert [a, b, c][..2] == [a, b];
  }

  lemma CountEachOfFour<T>(s: seq<T>, a: T -> bool, b: T -> bool, c: T -> bool, d: T -> bool)
    ensures CountEach(s, [a, b, c, d]) == Count(s, a) + Count(s, b) + Count(s, c) + Count(s, d)
  {
    assert [a, b, c, d][..3] == [a, b, c];
    CountEachOfThree(s, a, b, c);
  }

  lemma CountEachOfFive<T>(s: seq<T>, a: T -> bool, b: T -> bool, c: T -> bool, d: T -> bool, e: T -> bool)
    ensures CountEach(s, [a, b, c, d, e]) == Count(s, a) + Count(s, b) + Count(s, c) + Count(s, d) + Count(s, e)
  {
    assert [a, b, c, d, e][..4] == [a, b, c, d];
    CountEachOfFour(s, a, b, c, d);
  }

  lemma {:induction false} CountEachEmpty<T>(ps: seq<T -> bool>)
    ensures CountEach([], ps) == 0
  {
    if |ps| > 0 { CountEachEmpty(ps[..|ps| - 1]); }
  }

  // ---------------------------------------------------------------------------
  // Sums: `rows.reduce((acc, r) => acc + f(r), 0)`
  // ---------------------------------------------------------------------------

  function Sum<T>(s: seq<T>, f: T -> int): int {
    if |s| == 0 then 0 else Sum(s[..|s| - 1], f) + f(s[|s| - 1])
  }

  function RealSum<T>(s: seq<T>, f: T -> real): real {
    if |s| == 0 then 0.0 else RealSum(s[..|s| - 1], f) + f(s[|s| - 1])
  }

  /** A sum over concatenated tables is the sum of the two sums. */
  lemma {:induction false} SumAppend<T>(s: seq<T>, t: seq<T>, f: T -> int)
    ensures Sum(s + t, f) == Sum(s, f) + Sum(t, f)
  {
    if |t| > 0 {
      var t' := t[..|t| - 1];
      assert (s + t)[..|s + t| - 1] == s + t';
      SumAppend(s, t', f);
    } else {
      assert s + t == s;
    }
  }

  /** When every summand lies in [lo, hi], the sum lies in [lo * n, hi * n]. */
  lemma {:induction false} SumBounds<T>(s: seq<T>, f: T -> int, lo: int, hi: int)
    requires forall i :: 0 <= i < |s| ==> lo <= f(s[i]) <= hi
    ensures lo * |s| <= Sum(s, f) <= hi * |s|
  {
    if |s| > 0 {
      var t := s[..|s| - 1];
      assert forall i :: 0 <= i < |t| ==> lo <= f(t[i]) <= hi by {
        forall i | 0 <= i < |t| ensures lo <= f(t[i]) <= hi { assert t[i] == s[i]; }
      }
      SumBounds(t, f, lo, hi);
      assert lo * |s| == lo * |t| + lo;
      assert hi * |s| == hi * |t| + hi;
    }
  }

  /** The real counterpart of SumBounds. */
  lemma {:induction false} RealSumBounds<T>(s: seq<T>, f: T -> real, lo: real, hi: real)
    requires forall i :: 0 <= i < |s| ==> lo <= f(s[i]) <= hi
    ensures lo * (|s| as real) <= RealSum(s, f) <= hi * (|s| as real)
  {
    if |s| > 0 {
      var t := s[..|s| - 1];
      assert forall i :: 0 <= i < |t| ==> lo <= f(t[i]) <= hi by {
        forall i | 0 <= i < |t| ensures lo <= f(t[i]) <= hi { assert t[i] == s[i]; }
      }
      RealSumBounds(t, f, lo, hi);
      assert lo * (|s| as real) == lo * (|t| as real) + lo;
      assert hi * (|s| as real) == hi * (|t| as real) + hi;
    }
  }

  /** Dividing by a positive real keeps an order. */
  lemma DivideMonotone(a: real, b: real, n: real)
    requires n > 0.0 && a <= b
    ensures a / n <= b / n
  {
    assert b / n - a / n == (b - a) / n;
    assert (b - a) / n * n == b - a;
  }

  /** A total between `lo * n` and `hi * n` has a mean between `lo` and `hi`. */
  lemma MeanWithin(total: real, n: real, lo: real, hi: real)
    requires n > 0.0 && lo * n <= total <= hi * n
    ensures lo <= total / n <= hi
  {
    DivideMonotone(lo * n, total, n);
    DivideMonotone(total, hi * n, n);
    assert (lo * n) / n == lo;
    assert (hi * n) / n == hi;
  }

  /** Rows whose summand is zero do not change a sum: the sum of all-zero summands is 0. */
  lemma {:induction false} SumOfZeros<T>(s: seq<T>, f: T -> int)
    requires forall i :: 0 <= i < |s| ==> f(s[i]) == 0
    ensures Sum(s, f) == 0
  {
    if |s| > 0 {
      var t := s[..|s| - 1];
      assert forall i :: 0 <= i < |t| ==> f(t[i]) == 0 by {
        forall i | 0 <= i < |t| ensures f(t[i]) == 0 { assert t[i] == s[i]; }
      }
      SumOfZeros(t, f);
    }
  }

  /** The real sum of non-negative summands is non-negative. */
  lemma {:induction false} RealSumNonNegative<T>(s: seq<T>, f: T -> real)
    requires forall i :: 0 <= i < |s| ==> f(s[i]) >= 0.0
    ensures RealSum(s, f) >= 0.0
  {
    if |s| > 0 {
      var t := s[..|s| - 1];
      assert forall i :: 0 <= i < |t| ==> f(t[i]) >= 0.0 by {
        forall i | 0 <= i < |t| ensures f(t[i]) >= 0.0 { assert t[i] == s[i]; }
      }
      RealSumNonNegative(t, f);
    }
  }

  // ---------------------------------------------------------------------------
  // Id lists: `[...new Set(rows.map(key).filter(Boolean))]`
  // ---------------------------------------------------------------------------

  ghost predicate NoDuplicates<T>(s: seq<T>) {
    forall i, j :: 0 <= i < j < |s| ==> s[i] != s[j]
  }

  /**
   * The truthy ids of `ids`, each once, in order of first occurrence (the iteration
   * order of a JavaScript Set).
   */
  function DistinctTruthy(ids: seq<Option<string>>): (r: seq<string>)
    ensures NoDuplicates(r)
    ensures forall k :: k in r <==> (k != "" && Some(k) in ids)
  {
    if |ids| == 0 then []
    else
      var rest := DistinctTruthy(ids[..|ids| - 1]);
      var x := ids[|ids| - 1];
      assert ids == ids[..|ids| - 1] + [x];
      if Truthy(x) && x.value !in rest then rest + [x.value] else rest
  }

  // ---------------------------------------------------------------------------
  // Lookups: `.in(key, ids)` followed by `new Map(rows.map(r => [key(r), r]))`
  // ---------------------------------------------------------------------------

  /** The last row whose key is `k`, as `new Map(...).get(k)` finds it (later rows overwrite). */
  function LastMatch<T>(rows: seq<T>, key: T -> string, k: string): (r: Option<T>)
    ensures r.Some? ==> key(r.value) == k && r.value in rows
    ensures r.None? <==> forall i :: 0 <= i < |rows| ==> key(rows[i]) != k
  {
    if |rows| == 0 then None
    else if key(rows[|rows| - 1]) == k then Some(rows[|rows| - 1])
    else
      var r := LastMatch(rows[..|rows| - 1], key, k);
      assert forall i :: 0 <= i < |rows| - 1 ==> rows[..|rows| - 1][i] == rows[i];
      r
  }

  /** With unique keys, the lookup finds the one row that has the key. */
  lemma UniqueKeyMatch<T>(rows: seq<T>, key: T -> string, i: int)
    requires 0 <= i < |rows|
    requires forall a, b :: 0 <= a < b < |rows| ==> key(rows[a]) != key(rows[b])
    ensures LastMatch(rows, key, key(rows[i])) == Some(rows[i])
  {
    if i < |rows| - 1 {
      var t := rows[..|rows| - 1];
      assert t[i] == rows[i];
      UniqueKeyMatch(t, key, i);
    }
  }

  /** `new Map(rows.map(r => [key(r), r]))`. */
  function IndexBy<T>(rows: seq<T>, key: T -> string): (m: map<string, T>)
    ensures forall k :: k in m <==> LastMatch(rows, key, k).Some?
    ensures forall k :: k in m ==> LastMatch(rows, key, k) == Some(m[k])
  {
    if |rows| == 0 then map[]
    else IndexBy(rows[..|rows| - 1], key)[key(rows[|rows| - 1]) := rows[|rows| - 1]]
  }

  /** `m.get(k)`, with undefined as None. */
  function Get<T>(m: map<string, T>, k: string): Option<T> {
    if k in m then Some(m[k]) else None
  }

  /** The rows whose key is among `ids`, projected to the selected columns, in table order. */
  function SelectIn<R, C>(table: seq<R>, key: R -> string, ids: seq<string>, proj: R -> C): (r: seq<C>)
    ensures |r| <= |table|
  {
    if |table| == 0 then []
    else
      var d := table[|table| - 1];
      SelectIn(table[..|table| - 1], key, ids, proj) + (if key(d) in ids then [proj(d)] else [])
  }

  /** Every selected row carries one of the wanted keys. */
  lemma {:induction false} SelectInKeys<R, C>(table: seq<R>, key: R -> string, ids: seq<string>,
                                              proj: R -> C, ckey: C -> string)
    requires forall r :: ckey(proj(r)) == key(r)
    ensures forall i :: 0 <= i < |SelectIn(table, key, ids, proj)| ==> ckey(SelectIn(table, key, ids, proj)[i]) in ids
  {
    if |table| > 0 {
      var t, d := table[..|table| - 1], table[|table| - 1];
      SelectInKeys(t, key, ids, proj, ckey);
      var sel := SelectIn(t, key, ids, proj);
      var all := SelectIn(table, key, ids, proj);
      assert all == sel + (if key(d) in ids then [proj(d)] else []);
      forall i | 0 <= i < |all| ensures ckey(all[i]) in ids {
        if i < |sel| { assert all[i] == sel[i]; }
      }
    }
  }

  /** Looking a wanted key up in the selected rows finds the projection of the table's last match. */
  lemma {:induction false} SelectInMatch<R, C>(table: seq<R>, key: R -> string, ids: seq<string>,
                                               proj: R -> C, ckey: C -> string, k: string)
    requires forall r :: ckey(proj(r)) == key(r)
    requires k in ids
    ensures LastMatch(SelectIn(table, key, ids, proj), ckey, k)
         == match LastMatch(table, key, k) case None => None case Some(r) => Some(proj(r))
  {
    if |table| > 0 {
      var t, d := table[..|table| - 1], table[|table| - 1];
      var sel := SelectIn(t, key, ids, proj);
      SelectInMatch(t, key, ids, proj, ckey, k);
      if key(d) in ids {
        assert SelectIn(table, key, ids, proj) == sel + [proj(d)];
        assert (sel + [proj(d)])[..|sel + [proj(d)]| - 1] == sel;
      } else {
        assert SelectIn(table, key, ids, proj) == sel;
      }
    }
  }
}
