/** Stable descending sort by a real-valued key, and the "n largest" selection
    built on it. pandas' `sort_values(ascending=False)` and `nlargest` are
    modelled by these; the median takes its order statistics from them too. */
module Sorting {

  /** `s` is in descending order of `key`. */
  predicate SortedDesc<T>(s: seq<T>, key: T -> real) {
    forall i, j :: 0 <= i < j < |s| ==> key(s[i]) >= key(s[j])
  }

  /** Putting in front an element whose key bounds all others keeps the order. */
  lemma Cons<T>(y: T, s: seq<T>, key: T -> real)
    requires SortedDesc(s, key)
    requires forall z :: z in s ==> key(z) <= key(y)
    ensures SortedDesc([y] + s, key)
  {
    var r := [y] + s;
    forall i, j | 0 <= i < j < |r| ensures key(r[i]) >= key(r[j]) {
      assert r[j] == s[j - 1];
      if i == 0 {
        assert s[j - 1] in s;
      } else {
        assert r[i] == s[i - 1];
      }
    }
  }

  /** Places `x` in front of the first element whose key does not exceed its
      own, so that `x` precedes the elements with an equal key. */
  function Insert<T(==)>(x: T, s: seq<T>, key: T -> real): (r: seq<T>)
    requires SortedDesc(s, key)
    ensures multiset(r) == multiset(s) + multiset{x}
    ensures SortedDesc(r, key)
  {
    if s == [] || key(x) >= key(s[0]) then
      AboveAll(x, s, key);
      Cons(x, s, key);
      [x] + s
    else
      assert s == [s[0]] + s[1..];
      var rest := Insert(x, s[1..], key);
      BelowHead(x, s, rest, key);
      Cons(s[0], rest, key);
      [s[0]] + rest
  }

  /** An element whose key is at least the head's bounds a descending list. */
  lemma AboveAll<T>(x: T, s: seq<T>, key: T -> real)
    requires SortedDesc(s, key)
    requires s == [] || key(x) >= key(s[0])
    ensures forall z :: z in s ==> key(z) <= key(x)
  {
    forall z | z in s ensures key(z) <= key(x) {
      var j :| 0 <= j < |s| && s[j] == z;
    }
  }

  /** The head of a descending list bounds the tail with a smaller element
      added. */
  lemma BelowHead<T>(x: T, s: seq<T>, rest: seq<T>, key: T -> real)
    requires SortedDesc(s, key) && s != [] && key(x) < key(s[0])
    requires multiset(rest) == multiset(s[1..]) + multiset{x}
    ensures forall y :: y in rest ==> key(y) <= key(s[0])
  {
    forall y | y in rest ensures key(y) <= key(s[0]) {
      assert y in multiset(rest);
      if y != x {
        assert y in multiset(s[1..]);
        var j :| 0 <= j < |s[1..]| && s[1..][j] == y;
        assert s[j + 1] == y;
      }
    }
  }

  /** Insertion sort: descending in `key`, stable for equal keys. */
  function SortDesc<T(==)>(s: seq<T>, key: T -> real): (r: seq<T>)
    ensures multiset(r) == multiset(s)
    ensures |r| == |s|
    ensures SortedDesc(r, key)
  {
    if s == [] then []
    else
      var r := Insert(s[0], SortDesc(s[1..], key), key);
      assert s == [s[0]] + s[1..];
      assert |multiset(r)| == |r|;
      r
  }

  function Min(a: nat, b: nat): nat {
    if a <= b then a else b
  }

  /** The head of a descending list holds keys no smaller than its tail's. */
  lemma HeadAboveTail<T>(sorted: seq<T>, k: nat, key: T -> real)
    requires k <= |sorted| && SortedDesc(sorted, key)
    ensures forall y, z :: y in sorted[k..] && z in sorted[..k] ==> key(y) <= key(z)
  {
    forall y, z | y in sorted[k..] && z in sorted[..k] ensures key(y) <= key(z) {
      var i :| 0 <= i < |sorted| - k && sorted[k..][i] == y;
      var j :| 0 <= j < k && sorted[..k][j] == z;
      assert sorted[k + i] == y && sorted[j] == z;
    }
  }

  /** `nlargest(n)`: the (at most) `n` elements of largest key, largest first. */
  function Largest<T(==)>(s: seq<T>, n: nat, key: T -> real): (r: seq<T>)
    ensures |r| == Min(n, |s|)
    ensures SortedDesc(r, key)
    ensures multiset(r) <= multiset(s)
    ensures forall y, z :: y in multiset(s) - multiset(r) && z in r ==> key(y) <= key(z)
  {
    var sorted := SortDesc(s, key);
    var k := Min(n, |s|);
    assert sorted == sorted[..k] + sorted[k..];
    assert multiset(s) - multiset(sorted[..k]) == multiset(sorted[k..]);
    HeadAboveTail(sorted, k, key);
    sorted[..k]
  }
}
