/** The strong-correlation report (lines 168-177): the pairs of numeric
    columns whose correlation exceeds 0.7 in absolute value, read from the
    strict upper triangle of the correlation matrix row by row. The matrix is
    an input; computing it is not part of this model. */
module Correlations {

  /** Correlations above this, in absolute value, are reported. */
  const StrongThreshold: real := 0.7

  function Abs(x: real): real {
    if x < 0.0 then -x else x
  }

  /** One reported entry: the two column names and their correlation. */
  datatype StrongPair = StrongPair(first: string, second: string, r: real)

  predicate Square(m: seq<seq<real>>) {
    forall i :: 0 <= i < |m| ==> |m[i]| == |m|
  }

  predicate IsStrong(m: seq<seq<real>>, i: nat, j: nat)
    requires Square(m) && i < |m| && j < |m|
  {
    Abs(m[i][j]) > StrongThreshold
  }

  /** The strong entries `(i, j')` of row `i` with `i < j' < j`, in column
      order: what the inner loop has found once it reaches `j`. */
  function RowPairs(m: seq<seq<real>>, i: nat, j: nat): (ps: seq<(nat, nat)>)
    requires Square(m) && i < j <= |m|
    ensures forall k :: 0 <= k < |ps| ==> ps[k].0 == i && i < ps[k].1 < j
    decreases j
  {
    if j == i + 1 then []
    else
      var ps := RowPairs(m, i, j - 1);
      if IsStrong(m, i, j - 1) then ps + [(i, j - 1)] else ps
  }

  /** The strong upper-triangle entries of rows `0 .. i - 1`, row by row. */
  function UpperPairs(m: seq<seq<real>>, i: nat): (ps: seq<(nat, nat)>)
    requires Square(m) && i <= |m|
    ensures forall k :: 0 <= k < |ps| ==> ps[k].0 < i && ps[k].0 < ps[k].1 < |m|
  {
    if i == 0 then [] else UpperPairs(m, i - 1) + RowPairs(m, i - 1, |m|)
  }

  /** A row's entries come in increasing column order, and exactly the strong
      ones of the scanned columns are there. */
  lemma {:induction false} RowPairsExact(m: seq<seq<real>>, i: nat, j: nat)
    requires Square(m) && i < j <= |m|
    ensures forall k, l :: 0 <= k < l < |RowPairs(m, i, j)| ==>
              RowPairs(m, i, j)[k].1 < RowPairs(m, i, j)[l].1
    ensures forall j' :: i < j' < j ==> ((i, j') in RowPairs(m, i, j) <==> IsStrong(m, i, j'))
    decreases j
  {
    if j > i + 1 {
      RowPairsExact(m, i, j - 1);
    }
  }

  predicate InOrder(ps: seq<(nat, nat)>) {
    forall k, l :: 0 <= k < l < |ps| ==> Before(ps[k], ps[l])
  }

  /** Two lists in order, the first wholly before the second, join in order. */
  lemma JoinInOrder(a: seq<(nat, nat)>, b: seq<(nat, nat)>)
    requires InOrder(a) && InOrder(b)
    requires forall k, l :: 0 <= k < |a| && 0 <= l < |b| ==> Before(a[k], b[l])
    ensures InOrder(a + b)
  {
    var ps := a + b;
    forall k, l | 0 <= k < l < |ps| ensures Before(ps[k], ps[l]) {
      if l < |a| {
        assert ps[k] == a[k] && ps[l] == a[l];
      } else if k < |a| {
        assert ps[k] == a[k] && ps[l] == b[l - |a|];
      } else {
        assert ps[k] == b[k - |a|] && ps[l] == b[l - |a|];
      }
    }
  }

  /** The pairs come in row-major order, each one once. */
  lemma {:induction false} UpperPairsOrdered(m: seq<seq<real>>, n: nat)
    requires Square(m) && n <= |m|
    ensures InOrder(UpperPairs(m, n))
  {
    if n > 0 {
      UpperPairsOrdered(m, n - 1);
      RowPairsExact(m, n - 1, |m|);
      var prev, row := UpperPairs(m, n - 1), RowPairs(m, n - 1, |m|);
      assert InOrder(row);
      JoinInOrder(prev, row);
    }
  }

  /** Row-major order of index pairs: by row, then by column. */
  predicate Before(p: (nat, nat), q: (nat, nat)) {
    p.0 < q.0 || (p.0 == q.0 && p.1 < q.1)
  }

  /** The strong pairs of the whole matrix, in loop order: above the
      diagonal, by the first column's position, then by the second's. */
  function StrongIndexPairs(m: seq<seq<real>>): (ps: seq<(nat, nat)>)
    requires Square(m)
    ensures forall k :: 0 <= k < |ps| ==> ps[k].0 < ps[k].1 < |m|
    ensures InOrder(ps)
  {
    UpperPairsOrdered(m, |m|);
    UpperPairs(m, |m|)
  }

  /** A pair is reported exactly when it lies strictly above the diagonal and
      is strong; no diagonal or lower-triangle entry is ever reported. */
  lemma {:induction false} StrongIndexPairsExact(m: seq<seq<real>>, i: nat, j: nat)
    requires Square(m)
    ensures (i, j) in StrongIndexPairs(m) <==> i < j < |m| && IsStrong(m, i, j)
  {
    UpperPairsExact(m, |m|, i, j);
  }

  lemma {:induction false} UpperPairsExact(m: seq<seq<real>>, n: nat, i: nat, j: nat)
    requires Square(m) && n <= |m|
    ensures (i, j) in UpperPairs(m, n) <==> i < n && i < j < |m| && IsStrong(m, i, j)
  {
    if n > 0 {
      UpperPairsExact(m, n - 1, i, j);
      RowPairsExact(m, n - 1, |m|);
      var prev, row := UpperPairs(m, n - 1), RowPairs(m, n - 1, |m|);
      assert UpperPairs(m, n) == prev + row;
      if (i, j) in row {
        var k :| 0 <= k < |row| && row[k] == (i, j);
      }
    }
  }

  function Labelled(names: seq<string>, m: seq<seq<real>>, p: (nat, nat)): StrongPair
    requires Square(m) && |names| == |m| && p.0 < |m| && p.1 < |m|
  {
    StrongPair(names[p.0], names[p.1], m[p.0][p.1])
  }

  /** Lines 169-177: the nested loops that collect the strong pairs. */
  method StrongCorrelations(names: seq<string>, m: seq<seq<real>>) returns (pairs: seq<StrongPair>)
    requires Square(m) && |names| == |m|
    ensures |pairs| == |StrongIndexPairs(m)|
    ensures forall k :: 0 <= k < |pairs| ==> pairs[k] == Labelled(names, m, StrongIndexPairs(m)[k])
  {
    pairs := [];
    ghost var found: seq<(nat, nat)> := [];
    var n := |names|;
    for i := 0 to n
      invariant found == UpperPairs(m, i)
      invariant |pairs| == |found|
      invariant forall k :: 0 <= k < |pairs| ==> pairs[k] == Labelled(names, m, found[k])
    {
      ghost var before := found;
      for j := i + 1 to n
        invariant found == before + RowPairs(m, i, j)
        invariant |pairs| == |found|
        invariant forall k :: 0 <= k < |pairs| ==> pairs[k] == Labelled(names, m, found[k])
      {
        assert RowPairs(m, i, j + 1) ==
          RowPairs(m, i, j) + if IsStrong(m, i, j) then [(i, j)] else [];
        if Abs(m[i][j]) > StrongThreshold {
          pairs := pairs + [StrongPair(names[i], names[j], m[i][j])];
          found := found + [(i, j)];
        }
      }
      assert UpperPairs(m, i + 1) == UpperPairs(m, i) + RowPairs(m, i, n);
    }
  }

  /** The report for the matrix [[1, 0.8, 0.1], [0.8, 1, -0.75], [0.1, -0.75, 1]]
      over columns a, b, c is (a, b, 0.8), then (b, c, -0.75). */
  method Example() returns (pairs: seq<StrongPair>)
    ensures pairs == [StrongPair("a", "b", 0.8), StrongPair("b", "c", -0.75)]
  {
    var m := [[1.0, 0.8, 0.1], [0.8, 1.0, -0.75], [0.1, -0.75, 1.0]];
    pairs := StrongCorrelations(["a", "b", "c"], m);
    assert RowPairs(m, 0, 3) == [(0, 1)];
    assert RowPairs(m, 1, 3) == [(1, 2)];
    assert RowPairs(m, 2, 3) == [];
    assert UpperPairs(m, 3) == [(0, 1), (1, 2)];
  }
}
