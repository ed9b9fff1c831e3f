/**
 The reductions of all_reduce: one vector per rank, reduced column by column, over the reals. Each is
 characterised without the loop that computes it, and none depends on the order of the ranks.
 */
module Reduction {
  datatype ReduceOp = SUM | AVG | MIN | MAX

  function Sum(col: seq<real>): real {
    if col == [] then 0.0 else Sum(col[..|col| - 1]) + col[|col| - 1]
  }

  function Least(col: seq<real>): real
    requires col != []
  {
    if |col| == 1 then col[0]
    else var m := Least(col[..|col| - 1]); if col[|col| - 1] < m then col[|col| - 1] else m
  }

  function Greatest(col: seq<real>): real
    requires col != []
  {
    if |col| == 1 then col[0]
    else var m := Greatest(col[..|col| - 1]); if col[|col| - 1] > m then col[|col| - 1] else m
  }

  function ReduceColumn(op: ReduceOp, col: seq<real>): real
    requires col != []
  {
    match op
    case SUM => Sum(col)
    case AVG => Sum(col) / (|col| as real)
    case MIN => Least(col)
    case MAX => Greatest(col)
  }

  predicate Rectangular(rows: seq<seq<real>>) {
    rows != [] && forall r :: 0 <= r < |rows| ==> |rows[r]| == |rows[0]|
  }

  function Column(rows: seq<seq<real>>, j: nat): (col: seq<real>)
    requires Rectangular(rows) && j < |rows[0]|
    ensures |col| == |rows| && forall r :: 0 <= r < |rows| ==> col[r] == rows[r][j]
  {
    seq(|rows|, r requires 0 <= r < |rows| => rows[r][j])
  }

  // The reduction of all ranks' vectors, column by column.
  function Reduce(op: ReduceOp, rows: seq<seq<real>>): seq<real>
    requires Rectangular(rows)
  {
    seq(|rows[0]|, j requires 0 <= j < |rows[0]| => ReduceColumn(op, Column(rows, j)))
  }

  // ---- What a reduction is ----

  // The running totals of the rows: the first row, and then each with one more row added to it.
  ghost predicate RunningTotals(rows: seq<seq<real>>, totals: seq<seq<real>>)
    requires Rectangular(rows)
  {
    && |totals| == |rows| && totals[0] == rows[0]
    && (forall k :: 0 <= k < |rows| ==> |totals[k]| == |rows[0]|)
    && forall k, j :: 0 < k < |rows| && 0 <= j < |rows[0]| ==> totals[k][j] == totals[k - 1][j] + rows[k][j]
  }

  ghost predicate IsSum(rows: seq<seq<real>>, out: seq<real>)
    requires Rectangular(rows)
  {
    exists totals :: RunningTotals(rows, totals) && out == totals[|rows| - 1]
  }

  // The entry is one of the column's.
  ghost predicate Occurs(rows: seq<seq<real>>, j: nat, x: real)
    requires Rectangular(rows) && j < |rows[0]|
  {
    exists r :: 0 <= r < |rows| && rows[r][j] == x
  }

  ghost predicate IsReduction(op: ReduceOp, rows: seq<seq<real>>, out: seq<real>)
    requires Rectangular(rows)
  {
    && |out| == |rows[0]|
    && match op
       case SUM => IsSum(rows, out)
       case AVG => exists sum :: IsAverage(rows, sum, out)
       case MIN =>
         forall j :: 0 <= j < |out| ==>
           Occurs(rows, j, out[j]) && forall r :: 0 <= r < |rows| ==> out[j] <= rows[r][j]
       case MAX =>
         forall j :: 0 <= j < |out| ==>
           Occurs(rows, j, out[j]) && forall r :: 0 <= r < |rows| ==> out[j] >= rows[r][j]
  }

  // As many times the average as there are rows is the sum.
  ghost predicate IsAverage(rows: seq<seq<real>>, sum: seq<real>, out: seq<real>)
    requires Rectangular(rows)
  {
    && IsSum(rows, sum) && |out| == |sum|
    && forall j :: 0 <= j < |out| ==> |rows| as real * out[j] == sum[j]
  }

  // ---- The reductions are that ----

  lemma {:induction false} LeastIs(col: seq<real>)
    requires col != []
    ensures Least(col) in col && forall r :: 0 <= r < |col| ==> Least(col) <= col[r]
  {
    if |col| > 1 { LeastIs(col[..|col| - 1]); }
  }

  lemma {:induction false} GreatestIs(col: seq<real>)
    requires col != []
    ensures Greatest(col) in col && forall r :: 0 <= r < |col| ==> Greatest(col) >= col[r]
  {
    if |col| > 1 { GreatestIs(col[..|col| - 1]); }
  }

  lemma RowsBefore(rows: seq<seq<real>>, k: nat)
    requires Rectangular(rows) && 0 < k <= |rows|
    ensures Rectangular(rows[..k]) && rows[..k][0] == rows[0]
    ensures forall j :: 0 <= j < |rows[0]| ==> Column(rows[..k], j) == Column(rows, j)[..k]
  {
  }

  lemma SumOne(x: real)
    ensures Sum([x]) == x
  {
    assert [x][..0] == [];
  }

  /** The sum of one row is that row, and one more row adds its entry in every column. */
  lemma SumGrows(rows: seq<seq<real>>, k: nat)
    requires Rectangular(rows) && 0 < k <= |rows|
    ensures Rectangular(rows[..k]) && |Reduce(SUM, rows[..k])| == |rows[0]|
    ensures k == 1 ==> Reduce(SUM, rows[..k]) == rows[0]
    ensures k < |rows| ==>
              && Rectangular(rows[..k + 1]) && |Reduce(SUM, rows[..k + 1])| == |rows[0]|
              && forall j :: 0 <= j < |rows[0]| ==>
                   Reduce(SUM, rows[..k + 1])[j] == Reduce(SUM, rows[..k])[j] + rows[k][j]
  {
    RowsBefore(rows, k);
    if k == 1 {
      forall j | 0 <= j < |rows[0]| ensures Reduce(SUM, rows[..k])[j] == rows[0][j] {
        SumOne(rows[0][j]);
        assert Column(rows[..k], j) == [rows[0][j]];
      }
    }
    if k < |rows| {
      RowsBefore(rows, k + 1);
      forall j | 0 <= j < |rows[0]| ensures Reduce(SUM, rows[..k + 1])[j] == Reduce(SUM, rows[..k])[j] + rows[k][j] {
        assert Column(rows, j)[..k + 1][..k] == Column(rows, j)[..k];
      }
    }
  }

  ghost function Totals(rows: seq<seq<real>>): (totals: seq<seq<real>>)
    requires Rectangular(rows)
    ensures |totals| == |rows|
  {
    seq(|rows|, k requires 0 <= k < |rows| => RowsBefore(rows, k + 1); Reduce(SUM, rows[..k + 1]))
  }

  lemma SumIs(rows: seq<seq<real>>)
    requires Rectangular(rows)
    ensures IsSum(rows, Reduce(SUM, rows))
  {
    hide Reduce;
    var totals := Totals(rows);
    SumGrows(rows, 1);
    forall k | 0 <= k < |rows| ensures |totals[k]| == |rows[0]| { SumGrows(rows, k + 1); }
    forall k, j | 0 < k < |rows| && 0 <= j < |rows[0]| ensures totals[k][j] == totals[k - 1][j] + rows[k][j] {
      SumGrows(rows, k);
    }
    assert RunningTotals(rows, totals);
    assert rows[..|rows|] == rows;
  }

  /** Every reduction is what its name says of the columns. */
  lemma ReduceIs(op: ReduceOp, rows: seq<seq<real>>)
    requires Rectangular(rows)
    ensures IsReduction(op, rows, Reduce(op, rows))
  {
    var out := Reduce(op, rows);
    match op {
      case SUM => SumIs(rows);
      case AVG =>
        SumIs(rows);
        var sum := Reduce(SUM, rows);
        forall j | 0 <= j < |out| ensures |rows| as real * out[j] == sum[j] {
          TimesQuotient(Sum(Column(rows, j)), |rows|);
        }
        assert IsAverage(rows, sum, out);
      case MIN =>
        forall j | 0 <= j < |out|
          ensures Occurs(rows, j, out[j]) && forall r :: 0 <= r < |rows| ==> out[j] <= rows[r][j]
        {
          LeastIs(Column(rows, j));
        }
      case MAX =>
        forall j | 0 <= j < |out|
          ensures Occurs(rows, j, out[j]) && forall r :: 0 <= r < |rows| ==> out[j] >= rows[r][j]
        {
          GreatestIs(Column(rows, j));
        }
    }
  }

  lemma TimesQuotient(x: real, n: nat)
    requires n > 0
    ensures n as real * (x / n as real) == x
  {
  }

  // ---- A reduction is determined by what it is ----

  lemma {:induction false} TotalsUnique(rows: seq<seq<real>>, a: seq<seq<real>>, b: seq<seq<real>>, k: nat)
    requires Rectangular(rows) && RunningTotals(rows, a) && RunningTotals(rows, b) && k < |rows|
    ensures a[k] == b[k]
  {
    if k > 0 {
      TotalsUnique(rows, a, b, k - 1);
      forall j | 0 <= j < |rows[0]| ensures a[k][j] == b[k][j] {
        assert a[k][j] == a[k - 1][j] + rows[k][j] && b[k][j] == b[k - 1][j] + rows[k][j];
      }
    }
  }

  /** So no two vectors are the reduction of the same rows. */
  lemma ReductionUnique(op: ReduceOp, rows: seq<seq<real>>, a: seq<real>, b: seq<real>)
    requires Rectangular(rows) && IsReduction(op, rows, a) && IsReduction(op, rows, b)
    ensures a == b
  {
    match op {
      case SUM => SumUnique(rows, a, b);
      case AVG =>
        var x :| IsAverage(rows, x, a);
        var y :| IsAverage(rows, y, b);
        SumUnique(rows, x, y);
        forall j | 0 <= j < |a| ensures a[j] == b[j] {
          assert |rows| as real * a[j] == x[j] && |rows| as real * b[j] == y[j];
          CancelFactor(|rows| as real, a[j], b[j]);
        }
      case MIN =>
        forall j | 0 <= j < |a| ensures a[j] == b[j] { assert Occurs(rows, j, a[j]) && Occurs(rows, j, b[j]); }
      case MAX =>
        forall j | 0 <= j < |a| ensures a[j] == b[j] { assert Occurs(rows, j, a[j]) && Occurs(rows, j, b[j]); }
    }
  }

  lemma SumUnique(rows: seq<seq<real>>, a: seq<real>, b: seq<real>)
    requires Rectangular(rows) && IsSum(rows, a) && IsSum(rows, b)
    ensures a == b
  {
    var x :| RunningTotals(rows, x) && a == x[|rows| - 1];
    var y :| RunningTotals(rows, y) && b == y[|rows| - 1];
    TotalsUnique(rows, x, y, |rows| - 1);
  }

  lemma CancelFactor(n: real, a: real, b: real)
    requires n > 0.0 && n * a == n * b
    ensures a == b
  {
  }

  // ---- The order of the ranks does not matter ----

  function Without<T>(s: seq<T>, k: nat): seq<T>
    requires k < |s|
  {
    s[..k] + s[k + 1..]
  }

  lemma OneLess<T>(s: seq<T>, k: nat)
    requires k < |s|
    ensures multiset(s) == multiset(Without(s, k)) + multiset{s[k]} && |Without(s, k)| == |s| - 1
  {
    assert s == s[..k] + [s[k]] + s[k + 1..];
  }

  // Taking the same element out of both leaves the same elements.
  lemma OneOut<T>(a: seq<T>, i: nat, b: seq<T>, k: nat)
    requires i < |a| && k < |b| && a[i] == b[k] && multiset(a) == multiset(b)
    ensures multiset(Without(a, i)) == multiset(Without(b, k))
  {
    hide Without;
    OneLess(a, i);
    OneLess(b, k);
    CancelOne(multiset(Without(a, i)), multiset(Without(b, k)), a[i]);
  }

  lemma CancelOne<T>(x: multiset<T>, y: multiset<T>, e: T)
    requires x + multiset{e} == y + multiset{e}
    ensures x == y
  {
    assert x == x + multiset{e} - multiset{e};
  }

  lemma {:induction false} SumConcat(a: seq<real>, b: seq<real>)
    ensures Sum(a + b) == Sum(a) + Sum(b)
    decreases |b|
  {
    if b == [] {
      assert a + b == a;
    } else {
      assert (a + b)[..|a + b| - 1] == a + b[..|b| - 1];
      SumConcat(a, b[..|b| - 1]);
    }
  }

  lemma SumWithout(col: seq<real>, k: nat)
    requires k < |col|
    ensures Sum(col) == Sum(Without(col, k)) + col[k]
  {
    hide Sum;
    assert col == col[..k] + [col[k]] + col[k + 1..];
    SumConcat(col[..k] + [col[k]], col[k + 1..]);
    SumConcat(col[..k], [col[k]]);
    SumConcat(col[..k], col[k + 1..]);
    SumOne(col[k]);
  }

  lemma {:induction false} SumPermuted(a: seq<real>, b: seq<real>)
    requires multiset(a) == multiset(b)
    ensures Sum(a) == Sum(b)
    decreases |a|
  {
    hide Sum, Without;
    assert |multiset(a)| == |a| && |multiset(b)| == |b|;
    if a == [] {
      assert a == b;
    } else {
      assert a[0] in multiset(b);
      var k :| 0 <= k < |b| && b[k] == a[0];
      OneOut(a, 0, b, k);
      OneLess(a, 0);
      SumPermuted(Without(a, 0), Without(b, k));
      SumWithout(a, 0);
      SumWithout(b, k);
    }
  }

  lemma ColumnWithout(rows: seq<seq<real>>, k: nat, j: nat)
    requires Rectangular(rows) && k < |rows| && |rows| > 1 && j < |rows[0]|
    ensures var rest := Without(rows, k);
            && Rectangular(rest) && |rest[0]| == |rows[0]|
            && multiset(Column(rows, j)) == multiset(Column(rest, j)) + multiset{rows[k][j]}
  {
    assert Column(Without(rows, k), j) == Without(Column(rows, j), k);
    OneLess(Column(rows, j), k);
  }

  lemma {:induction false} ColumnPermuted(a: seq<seq<real>>, b: seq<seq<real>>, j: nat)
    requires Rectangular(a) && Rectangular(b) && multiset(a) == multiset(b) && j < |a[0]| == |b[0]|
    ensures multiset(Column(a, j)) == multiset(Column(b, j))
    decreases |a|
  {
    hide Rectangular, Column, Without;
    assert |multiset(a)| == |a| && |multiset(b)| == |b|;
    assert |a| > 0 by { NotEmpty(a); }
    assert a[0] in multiset(b);
    var k :| 0 <= k < |b| && b[k] == a[0];
    if |a| > 1 {
      ColumnWithout(a, 0, j);
      ColumnWithout(b, k, j);
      OneOut(a, 0, b, k);
      OneLess(a, 0);
      ColumnPermuted(Without(a, 0), Without(b, k), j);
    } else {
      assert a == b;
    }
  }

  lemma NotEmpty(rows: seq<seq<real>>)
    requires Rectangular(rows)
    ensures |rows| > 0
  {
  }

  lemma SameWidth(a: seq<seq<real>>, b: seq<seq<real>>)
    requires Rectangular(a) && Rectangular(b) && multiset(a) == multiset(b)
    ensures |a| == |b| && |a[0]| == |b[0]|
  {
    assert |multiset(a)| == |a| && |multiset(b)| == |b|;
    assert a[0] in multiset(b);
  }

  /** The same rows in another order reduce to the same vector. */
  lemma ReducePermuted(op: ReduceOp, a: seq<seq<real>>, b: seq<seq<real>>)
    requires Rectangular(a) && Rectangular(b) && multiset(a) == multiset(b)
    ensures Reduce(op, a) == Reduce(op, b)
  {
    SameWidth(a, b);
    forall j | 0 <= j < |a[0]| ensures Reduce(op, a)[j] == Reduce(op, b)[j] {
      var x, y := Column(a, j), Column(b, j);
      ColumnPermuted(a, b, j);
      SumPermuted(x, y);
      LeastIs(x);
      LeastIs(y);
      GreatestIs(x);
      GreatestIs(y);
      assert Least(x) in multiset(y) && Least(y) in multiset(x);
      assert Greatest(x) in multiset(y) && Greatest(y) in multiset(x);
    }
  }
}
