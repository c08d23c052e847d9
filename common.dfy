/** Helpers shared by the ledger model: optional values (Java's `null`),
    sums of amounts, and the two shapes a SQL `WHERE` clause takes in the
    model: keep every matching row, or take the first matching row. */
module Common {

  datatype Option<T> = None | Some(value: T)

  /** `Math.abs` on an amount. */
  function Abs(x: real): (r: real)
    ensures r >= 0.0
    ensures r == x || r == -x
  {
    if x < 0.0 then -x else x
  }

  /** The sum of a sequence of amounts, accumulated from the left as the
      source's loops and SQL `SUM` do. */
  function Sum(xs: seq<real>): real
  {
    if xs == [] then 0.0 else Sum(xs[..|xs| - 1]) + xs[|xs| - 1]
  }

  /** Replacing one amount changes the sum by the difference. */
  lemma {:induction false} SumUpdate(xs: seq<real>, i: nat, v: real)
    requires i < |xs|
    ensures Sum(xs[i := v]) == Sum(xs) - xs[i] + v
  {
    var n := |xs|;
    var ys := xs[i := v];
    if i == n - 1 {
      assert ys[..n - 1] == xs[..n - 1];
    } else {
      assert ys[..n - 1] == xs[..n - 1][i := v];
      SumUpdate(xs[..n - 1], i, v);
    }
  }

  /** n copies of the same amount add up to n times it. */
  lemma {:induction false} SumConstant(x: real, n: nat)
    ensures Sum(seq(n, _ => x)) == n as real * x
  {
    if n > 0 {
      assert seq(n, _ => x)[..n - 1] == seq(n - 1, _ => x);
      SumConstant(x, n - 1);
    }
  }

  /** A sequence without repetitions has as many elements as its set. */
  lemma {:induction false} DistinctCardinality<T>(xs: seq<T>)
    requires forall i, j :: 0 <= i < j < |xs| ==> xs[i] != xs[j]
    ensures |set x | x in xs| == |xs|
  {
    if xs != [] {
      var n := |xs|;
      var prefix := xs[..n - 1];
      DistinctCardinality(prefix);
      assert (set x | x in xs) == (set x | x in prefix) + {xs[n - 1]};
      assert xs[n - 1] !in prefix;
    }
  }

  /** The rows of `s` that satisfy `keep`, in table order: a `WHERE` clause,
      or a `DELETE` read as the rows it leaves behind. */
  function Filter<T>(s: seq<T>, keep: T -> bool): (r: seq<T>)
    ensures |r| <= |s|
  {
    if s == [] then []
    else Filter(s[..|s| - 1], keep) + (if keep(s[|s| - 1]) then [s[|s| - 1]] else [])
  }

  /** `Filter` keeps exactly the rows that satisfy `keep`: each kept row is a
      row of `s` that satisfies it, and each row of `s` that does is kept. */
  lemma {:induction false} FilterMembers<T>(s: seq<T>, keep: T -> bool)
    ensures forall i :: 0 <= i < |Filter(s, keep)| ==> Filter(s, keep)[i] in s && keep(Filter(s, keep)[i])
    ensures forall i :: 0 <= i < |s| && keep(s[i]) ==> s[i] in Filter(s, keep)
  {
    if s != [] {
      var pre := s[..|s| - 1];
      FilterMembers(pre, keep);
      assert forall x :: x in pre ==> x in s;
      assert forall i :: 0 <= i < |pre| ==> s[i] == pre[i];
    }
  }

  /** The first row of `s` that satisfies `p`: a query read with a single
      `rs.next()`. */
  function FirstWhere<T>(s: seq<T>, p: T -> bool): (r: Option<T>)
    ensures r.None? <==> forall i :: 0 <= i < |s| ==> !p(s[i])
    ensures r.Some? ==> exists i :: 0 <= i < |s| && s[i] == r.value && p(s[i])
                                   && forall j :: 0 <= j < i ==> !p(s[j])
  {
    if s == [] then None
    else if p(s[0]) then Some(s[0])
    else
      var r := FirstWhere(s[1..], p);
      assert r.Some? ==> exists i :: 1 <= i < |s| && s[i] == r.value && p(s[i])
                                   && forall j :: 0 <= j < i ==> !p(s[j]);
      r
  }

  /** The AUTOINCREMENT discipline of an `id` column: ids are at least 1,
      strictly increase along the table and stay below the next id to hand out. */
  ghost predicate KeysIncreasing<T>(rows: seq<T>, key: T -> int, next: int)
  {
    && (forall i :: 0 <= i < |rows| ==> 1 <= key(rows[i]) < next)
    && (forall i, j :: 0 <= i < j < |rows| ==> key(rows[i]) < key(rows[j]))
  }

  /** Appending a row with the next id keeps the discipline. */
  lemma KeysIncreasingAppend<T>(rows: seq<T>, key: T -> int, next: int, row: T)
    requires KeysIncreasing(rows, key, next) && key(row) == next && next >= 1
    ensures KeysIncreasing(rows + [row], key, next + 1)
  {
  }

  /** Deleting rows keeps the discipline. */
  lemma {:induction false} KeysIncreasingFilter<T>(rows: seq<T>, key: T -> int, next: int, keep: T -> bool)
    requires KeysIncreasing(rows, key, next)
    ensures KeysIncreasing(Filter(rows, keep), key, next)
  {
    if rows != [] {
      var pre := rows[..|rows| - 1];
      var last := rows[|rows| - 1];
      assert KeysIncreasing(pre, key, next);
      KeysIncreasingFilter(pre, key, next, keep);
      var f := Filter(pre, keep);
      FilterMembers(pre, keep);
      forall i | 0 <= i < |f| ensures key(f[i]) < key(last) {
        assert f[i] in pre;
      }
    }
  }
}
