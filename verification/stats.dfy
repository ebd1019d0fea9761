/** The median pandas computes for `Series.median()`: nulls are skipped, an
    even count averages the two middle values, and an empty series gives NaN
    (here `None`). */
module Stats {
  import opened Tables
  import opened Sorting

  function Id(x: real): real {
    x
  }

  /** The number of elements of `xs` that satisfy `p`. */
  function CountIf(xs: seq<real>, p: real -> bool): (n: nat)
    ensures n <= |xs|
  {
    if xs == [] then 0
    else (if p(xs[0]) then 1 else 0) + CountIf(xs[1..], p)
  }

  /** The middle value of a non-empty ordered list; the mean of the two
      middle values when the count is even. */
  function Middle(s: seq<real>): real
    requires |s| > 0
  {
    var h := |s| / 2;
    if |s| % 2 == 1 then s[h] else (s[h - 1] + s[h]) / 2.0
  }

  /** The middle of `xs` once ordered. The order is taken descending, which
      gives the same middle values as ascending. */
  function Median(xs: seq<real>): (m: Option<real>)
    ensures m.Some? <==> |xs| > 0
  {
    if |xs| == 0 then None else Some(Middle(SortDesc(xs, Id)))
  }

  lemma {:induction false} CountIfInsert(x: real, s: seq<real>, p: real -> bool)
    requires SortedDesc(s, Id)
    ensures CountIf(Insert(x, s, Id), p) == CountIf(s, p) + (if p(x) then 1 else 0)
  {
    if s == [] || Id(x) >= Id(s[0]) {
      assert ([x] + s)[1..] == s;
    } else {
      CountIfInsert(x, s[1..], p);
      assert ([s[0]] + Insert(x, s[1..], Id))[1..] == Insert(x, s[1..], Id);
    }
  }

  /** Sorting does not change how many elements satisfy a property. */
  lemma {:induction false} CountIfSort(xs: seq<real>, p: real -> bool)
    ensures CountIf(SortDesc(xs, Id), p) == CountIf(xs, p)
  {
    if xs != [] {
      CountIfSort(xs[1..], p);
      CountIfInsert(xs[0], SortDesc(xs[1..], Id), p);
    }
  }

  /** A run of `hi - lo` consecutive elements satisfying `p` is counted. */
  lemma {:induction false} CountIfRun(s: seq<real>, p: real -> bool, lo: nat, hi: nat)
    requires lo <= hi <= |s|
    requires forall i :: lo <= i < hi ==> p(s[i])
    ensures CountIf(s, p) >= hi - lo
  {
    if lo < hi {
      if lo == 0 {
        assert p(s[0]);
        CountIfRun(s[1..], p, 0, hi - 1);
      } else {
        CountIfRun(s[1..], p, lo - 1, hi - 1);
      }
    }
  }

  function AtMost(m: real): real -> bool {
    x => x <= m
  }

  function AtLeast(m: real): real -> bool {
    x => x >= m
  }

  /** In a descending list, the elements from the middle on are at most the
      middle value and those up to the middle are at least it. */
  lemma MiddleSplits(s: seq<real>, m: real)
    requires |s| > 0 && SortedDesc(s, Id) && m == Middle(s)
    ensures 2 * CountIf(s, AtMost(m)) >= |s|
    ensures 2 * CountIf(s, AtLeast(m)) >= |s|
  {
    var n, h := |s|, |s| / 2;
    assert forall i :: h <= i < n ==> AtMost(m)(s[i]) by {
      forall i | h <= i < n ensures AtMost(m)(s[i]) {
        assert Id(s[h]) >= Id(s[i]);
      }
    }
    CountIfRun(s, AtMost(m), h, n);
    var top := if n % 2 == 1 then h + 1 else h;
    assert forall i :: 0 <= i < top ==> AtLeast(m)(s[i]) by {
      forall i | 0 <= i < top ensures AtLeast(m)(s[i]) {
        assert Id(s[i]) >= Id(s[top - 1]);
        if n % 2 == 0 {
          assert Id(s[h - 1]) >= Id(s[h]);
        }
      }
    }
    CountIfRun(s, AtLeast(m), 0, top);
  }

  /** The median splits the values in halves: at least half of them are at
      most the median and at least half are at least the median. */
  lemma MedianHalves(xs: seq<real>)
    requires |xs| > 0
    ensures 2 * CountIf(xs, AtMost(Median(xs).value)) >= |xs|
    ensures 2 * CountIf(xs, AtLeast(Median(xs).value)) >= |xs|
  {
    var s := SortDesc(xs, Id);
    var m := Middle(s);
    assert Median(xs).value == m;
    MiddleSplits(s, m);
    CountIfSort(xs, AtMost(m));
    CountIfSort(xs, AtLeast(m));
  }

  /** The median lies between the smallest and the largest value. */
  lemma MedianWithinRange(xs: seq<real>)
    requires |xs| > 0
    ensures exists i :: 0 <= i < |xs| && xs[i] <= Median(xs).value
    ensures exists i :: 0 <= i < |xs| && xs[i] >= Median(xs).value
  {
    var m := Median(xs).value;
    MedianHalves(xs);
    if forall i :: 0 <= i < |xs| ==> xs[i] > m {
      NoneCounted(xs, AtMost(m));
    }
    if forall i :: 0 <= i < |xs| ==> xs[i] < m {
      NoneCounted(xs, AtLeast(m));
    }
  }

  lemma {:induction false} NoneCounted(xs: seq<real>, p: real -> bool)
    requires forall i :: 0 <= i < |xs| ==> !p(xs[i])
    ensures CountIf(xs, p) == 0
  {
    if xs != [] {
      NoneCounted(xs[1..], p);
    }
  }

  /** The median of two values is their mean. */
  lemma MedianOfTwo(a: real, b: real)
    ensures Median([a, b]) == Some((a + b) / 2.0)
  {
    assert [a, b][1..] == [b];
    assert SortDesc([b], Id) == [b];
  }
}
