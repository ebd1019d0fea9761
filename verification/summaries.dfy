/** The per-key summaries of the export step (lines 219-247), the industry
    ranking behind the bar chart (line 191) and the top-10 industries
    (line 254). They are computed on the cleaned table, which has no null. */
module Summaries {
  import opened Tables
  import opened Sorting

  const Industry: string := "industry"
  const AdoptionRate: string := "adoption_rate"
  const DailyActiveUsers: string := "daily_active_users"

  /** How many industries the top list keeps (line 254). */
  const TopCount: nat := 10

  /** `groupby(key)[measure].mean()`: one key and its group mean. */
  datatype MeanRow = MeanRow(key: Value, mean: real)

  /** One row of an industry, country or year summary. */
  datatype SummaryRow = SummaryRow(key: Value, adoptionRate: real, dailyActiveUsers: real, companyCount: nat)

  /** A summary is skipped when its key column is absent, and fails when a
      measure column is absent or cannot be averaged, so that the lookup or
      `mean` raises. Inside the export block (lines 216-269) the `except` of
      line 266 catches that and the remaining exports are not written; at
      line 191, outside that block, the error ends the script. */
  datatype Outcome<T> = Skipped | Failed | Done(value: T)

  /** The sum of the measures of the rows carrying key `k`. */
  function GroupSum(ks: seq<Value>, xs: seq<real>, k: Value): real
    requires |ks| == |xs|
  {
    if ks == [] then 0.0
    else
      var n := |ks| - 1;
      GroupSum(ks[..n], xs[..n], k) + (if ks[n] == k then xs[n] else 0.0)
  }

  /** The mean measure of the rows carrying key `k`. */
  function GroupMean(ks: seq<Value>, xs: seq<real>, k: Value): (m: real)
    requires |ks| == |xs| && k in ks
    ensures m * Count(ks, k) as real == GroupSum(ks, xs, k)
  {
    GroupSum(ks, xs, k) / Count(ks, k) as real
  }

  /** If every row of group `k` has its measure in `[lo, hi]`, so has the
      group mean. */
  lemma GroupMeanBounds(ks: seq<Value>, xs: seq<real>, k: Value, lo: real, hi: real)
    requires |ks| == |xs| && k in ks
    requires forall i :: 0 <= i < |ks| && ks[i] == k ==> lo <= xs[i] <= hi
    ensures lo <= GroupMean(ks, xs, k) <= hi
  {
    var n := Count(ks, k);
    var sum := GroupSum(ks, xs, k);
    GroupSumBounds(ks, xs, k, lo, hi);
    Repeated(lo, n);
    Repeated(hi, n);
    assert lo * n as real <= sum <= hi * n as real;
    DivideBounds(sum, n as real, lo, hi);
    assert GroupMean(ks, xs, k) == sum / n as real;
  }

  /** `a` added `n` times. */
  function Times(a: real, n: nat): real {
    if n == 0 then 0.0 else Times(a, n - 1) + a
  }

  lemma {:induction false} Repeated(a: real, n: nat)
    ensures Times(a, n) == a * n as real
  {
    if n > 0 {
      Repeated(a, n - 1);
      assert a * n as real == a * (n - 1) as real + a;
    }
  }

  lemma DivideBounds(s: real, c: real, lo: real, hi: real)
    requires c > 0.0 && lo * c <= s <= hi * c
    ensures lo <= s / c <= hi
  {
    var q := s / c;
    assert q * c == s;
    assert (q - lo) * c == s - lo * c;
    assert (hi - q) * c == hi * c - s;
  }

  lemma {:induction false} GroupSumBounds(ks: seq<Value>, xs: seq<real>, k: Value, lo: real, hi: real)
    requires |ks| == |xs|
    requires forall i :: 0 <= i < |ks| && ks[i] == k ==> lo <= xs[i] <= hi
    ensures Times(lo, Count(ks, k)) <= GroupSum(ks, xs, k) <= Times(hi, Count(ks, k))
  {
    if ks != [] {
      var n := |ks| - 1;
      var ks', xs' := ks[..n], xs[..n];
      assert forall i :: 0 <= i < |ks'| && ks'[i] == k ==> lo <= xs'[i] <= hi by {
        forall i | 0 <= i < |ks'| && ks'[i] == k ensures lo <= xs'[i] <= hi {
          assert ks'[i] == ks[i] && xs'[i] == xs[i];
        }
      }
      GroupSumBounds(ks', xs', k, lo, hi);
      var c := Count(ks', k);
      assert GroupSum(ks, xs, k) == GroupSum(ks', xs', k) + (if ks[n] == k then xs[n] else 0.0);
      if ks[n] == k {
        assert Count(ks, k) == c + 1;
        assert lo <= xs[n] <= hi;
      } else {
        assert Count(ks, k) == c;
      }
    }
  }

  /** `groupby(key)[measure].mean()`: one row per distinct key, in order of
      first appearance. */
  function GroupMeans(ks: seq<Value>, xs: seq<real>): (r: seq<MeanRow>)
    requires |ks| == |xs|
    ensures |r| == |Distinct(ks)|
    ensures forall i :: 0 <= i < |r| ==> r[i].key in ks && r[i].mean == GroupMean(ks, xs, r[i].key)
    ensures forall k :: k in ks ==> exists i :: 0 <= i < |r| && r[i].key == k
    ensures forall i, j :: 0 <= i < j < |r| ==> r[i].key != r[j].key
  {
    var d := Distinct(ks);
    var r := seq(|d|, i requires 0 <= i < |d| => MeanRow(d[i], GroupMean(ks, xs, d[i])));
    assert forall k :: k in ks ==> r[IndexIn(d, k)].key == k;
    r
  }

  /** The position of `k` in a list holding it. */
  function IndexIn(d: seq<Value>, k: Value): (i: nat)
    requires k in d
    ensures i < |d| && d[i] == k
  {
    if d[0] == k then 0 else 1 + IndexIn(d[1..], k)
  }

  /** The rows of `groupby(key).agg(mean, mean)` with `size()` added as
      `company_count`, one per key of `d`. */
  function SummaryRows(d: seq<Value>, ks: seq<Value>, adoption: seq<real>, users: seq<real>): (r: seq<SummaryRow>)
    requires |ks| == |adoption| == |users|
    requires forall k :: k in d ==> k in ks
    ensures |r| == |d|
    ensures forall i :: 0 <= i < |r| ==> r[i].key == d[i] && r[i].companyCount == Count(ks, d[i])
    ensures forall i :: 0 <= i < |r| ==>
              r[i].adoptionRate == GroupMean(ks, adoption, d[i]) &&
              r[i].dailyActiveUsers == GroupMean(ks, users, d[i])
  {
    if d == [] then []
    else
      var n := |d| - 1;
      SummaryRows(d[..n], ks, adoption, users)
      + [SummaryRow(d[n], GroupMean(ks, adoption, d[n]), GroupMean(ks, users, d[n]), Count(ks, d[n]))]
  }

  /** The per-key summary table: one row per distinct key. */
  function Summarize(ks: seq<Value>, adoption: seq<real>, users: seq<real>): (r: seq<SummaryRow>)
    requires |ks| == |adoption| == |users|
    ensures |r| == |Distinct(ks)|
    ensures forall i :: 0 <= i < |r| ==>
              && r[i].key == Distinct(ks)[i]
              && r[i].companyCount == Count(ks, r[i].key)
              && r[i].adoptionRate == GroupMean(ks, adoption, r[i].key)
              && r[i].dailyActiveUsers == GroupMean(ks, users, r[i].key)
  {
    SummaryRows(Distinct(ks), ks, adoption, users)
  }

  /** The total of the `company_count` column. */
  function TotalCount(rows: seq<SummaryRow>): nat {
    if rows == [] then 0 else TotalCount(rows[..|rows| - 1]) + rows[|rows| - 1].companyCount
  }

  /** The total, over the keys of `d`, of the number of rows carrying each. */
  function CountOver(d: seq<Value>, ks: seq<Value>): nat {
    if d == [] then 0 else CountOver(d[..|d| - 1], ks) + Count(ks, d[|d| - 1])
  }

  lemma {:induction false} TotalIsCountOver(d: seq<Value>, ks: seq<Value>, adoption: seq<real>, users: seq<real>)
    requires |ks| == |adoption| == |users|
    requires forall k :: k in d ==> k in ks
    ensures TotalCount(SummaryRows(d, ks, adoption, users)) == CountOver(d, ks)
  {
    if d != [] {
      var n := |d| - 1;
      TotalIsCountOver(d[..n], ks, adoption, users);
      var r := SummaryRows(d, ks, adoption, users);
      assert r[..|r| - 1] == SummaryRows(d[..n], ks, adoption, users);
    }
  }

  /** One more row adds, over `d`, one for each key of `d` equal to it. */
  lemma {:induction false} CountOverSnoc(d: seq<Value>, ks: seq<Value>, x: Value)
    ensures CountOver(d, ks + [x]) == CountOver(d, ks) + Count(d, x)
  {
    if d != [] {
      var n := |d| - 1;
      CountOverSnoc(d[..n], ks, x);
      assert (ks + [x])[..|ks|] == ks;
    }
  }

  /** Counting the rows key by key over a duplicate-free list of keys that
      covers every row counts every row once. */
  lemma {:induction false} CountOverCover(d: seq<Value>, ks: seq<Value>)
    requires NoDuplicates(d)
    requires forall k :: k in ks ==> k in d
    ensures CountOver(d, ks) == |ks|
  {
    if ks == [] {
      CountOverEmpty(d);
    } else {
      var n := |ks| - 1;
      assert ks == ks[..n] + [ks[n]];
      CountOverCover(d, ks[..n]);
      CountOverSnoc(d, ks[..n], ks[n]);
      CountInDistinct(d, ks[n]);
    }
  }

  lemma {:induction false} CountOverEmpty(d: seq<Value>)
    ensures CountOver(d, []) == 0
  {
    if d != [] {
      CountOverEmpty(d[..|d| - 1]);
    }
  }

  /** The summary has one row per distinct key, each row's count is the
      number of rows carrying its key, and the counts add up to the number of
      rows. */
  lemma SummarizeCounts(ks: seq<Value>, adoption: seq<real>, users: seq<real>)
    requires |ks| == |adoption| == |users|
    ensures |Summarize(ks, adoption, users)| == |Distinct(ks)|
    ensures forall k :: k in ks <==> exists i :: 0 <= i < |Summarize(ks, adoption, users)| &&
                                            Summarize(ks, adoption, users)[i].key == k
    ensures forall i :: 0 <= i < |Summarize(ks, adoption, users)| ==>
              Summarize(ks, adoption, users)[i].companyCount ==
              Count(ks, Summarize(ks, adoption, users)[i].key)
    ensures TotalCount(Summarize(ks, adoption, users)) == |ks|
  {
    var d := Distinct(ks);
    var r := Summarize(ks, adoption, users);
    TotalIsCountOver(d, ks, adoption, users);
    CountOverCover(d, ks);
    forall k | k in ks ensures exists i :: 0 <= i < |r| && r[i].key == k {
      var i := IndexIn(d, k);
      assert r[i].key == k;
    }
  }

  function MeanKey(r: MeanRow): real {
    r.mean
  }

  /** The key column's values, the cleaned table having no null. */
  function Keys(c: Column): (ks: seq<Value>)
    requires Complete(c.cells)
    ensures |ks| == |c.cells|
  {
    seq(|c.cells|, i requires 0 <= i < |c.cells| => c.cells[i].value)
  }

  /** A numeric measure column's numbers, the cleaned table having no null. */
  function Measures(c: Column): (xs: seq<real>)
    requires Complete(c.cells) && WellTyped(c) && Averages(c.dtype)
    ensures |xs| == |c.cells|
  {
    seq(|c.cells|, i requires 0 <= i < |c.cells| => c.cells[i].value.x)
  }

  /** The dtypes `mean` averages: the numeric ones, and bool, where True
      counts as 1. */
  predicate Averages(d: DType) {
    IsNumeric(d) || d == Bool
  }

  /** A present column `mean` can average. */
  predicate Averageable(c: Option<Column>) {
    c.Some? && Averages(c.value.dtype)
  }

  /** Lines 219-247: the summary grouped by the column `keyName`, which the
      script takes to be "industry", "country" and "year" in turn. */
  function SummaryBy(t: Table, keyName: string): (r: Outcome<seq<SummaryRow>>)
    requires WellFormed(t) && NoNulls(t)
    ensures r.Skipped? <==> Lookup(t.columns, keyName).None?
    ensures r.Failed? <==>
              && Lookup(t.columns, keyName).Some?
              && !(Averageable(Lookup(t.columns, AdoptionRate)) && Averageable(Lookup(t.columns, DailyActiveUsers)))
    ensures r.Done? ==>
              r.value == Summarize(Keys(Lookup(t.columns, keyName).value),
                                   Measures(Lookup(t.columns, AdoptionRate).value),
                                   Measures(Lookup(t.columns, DailyActiveUsers).value))
    ensures r.Done? ==> TotalCount(r.value) == t.rows
    ensures r.Done? ==> forall i, j :: 0 <= i < j < |r.value| ==> r.value[i].key != r.value[j].key
  {
    match Lookup(t.columns, keyName)
    case None => Skipped
    case Some(key) =>
      var adoption, users := Lookup(t.columns, AdoptionRate), Lookup(t.columns, DailyActiveUsers);
      if !(Averageable(adoption) && Averageable(users)) then Failed
      else
        var ks, a, u := Keys(key), Measures(adoption.value), Measures(users.value);
        SummarizeCounts(ks, a, u);
        Done(Summarize(ks, a, u))
  }

  /** The industry means of `adoption_rate`, one per industry. */
  function IndustryMeans(t: Table): (r: Outcome<seq<MeanRow>>)
    requires WellFormed(t) && NoNulls(t)
    ensures r.Skipped? <==> Lookup(t.columns, Industry).None? || Lookup(t.columns, AdoptionRate).None?
    ensures r.Failed? <==>
              && Lookup(t.columns, Industry).Some?
              && Lookup(t.columns, AdoptionRate).Some?
              && !Averages(Lookup(t.columns, AdoptionRate).value.dtype)
    ensures r.Done? ==>
              r.value == GroupMeans(Keys(Lookup(t.columns, Industry).value),
                                    Measures(Lookup(t.columns, AdoptionRate).value))
  {
    match (Lookup(t.columns, Industry), Lookup(t.columns, AdoptionRate))
    case (Some(key), Some(rate)) =>
      if !Averages(rate.dtype) then Failed
      else Done(GroupMeans(Keys(key), Measures(rate)))
    case _ => Skipped
  }

  /** Line 191: the industries sorted by mean adoption rate, highest first. */
  function IndustryRanking(t: Table): (r: Outcome<seq<MeanRow>>)
    requires WellFormed(t) && NoNulls(t)
    ensures r.Done? <==> IndustryMeans(t).Done?
    ensures r.Done? ==> SortedDesc(r.value, MeanKey) &&
                        multiset(r.value) == multiset(IndustryMeans(t).value)
  {
    match IndustryMeans(t)
    case Done(means) => Done(SortDesc(means, MeanKey))
    case Skipped => Skipped
    case Failed => Failed
  }

  /** Line 254: the ten industries of highest mean adoption rate, highest
      first. Every industry left out has a mean no higher than any kept. In
      the script a `Failed` here is never reached: the same error has already
      ended it at line 191. */
  function TopIndustries(t: Table): (r: Outcome<seq<MeanRow>>)
    requires WellFormed(t) && NoNulls(t)
    ensures r.Done? <==> IndustryMeans(t).Done?
    ensures r.Done? ==> |r.value| == Min(TopCount, |IndustryMeans(t).value|)
    ensures r.Done? ==> SortedDesc(r.value, MeanKey)
    ensures r.Done? ==> multiset(r.value) <= multiset(IndustryMeans(t).value)
    ensures r.Done? ==> forall y, z :: y in multiset(IndustryMeans(t).value) - multiset(r.value) && z in r.value
                          ==> y.mean <= z.mean
  {
    match IndustryMeans(t)
    case Done(means) => Done(Largest(means, TopCount, MeanKey))
    case Skipped => Skipped
    case Failed => Failed
  }

  /** Each of the (at most ten) top rows is an industry of the table with its
      mean adoption rate. */
  lemma TopIndustriesFromData(t: Table)
    requires WellFormed(t) && NoNulls(t)
    ensures TopIndustries(t).Done? ==>
              && |TopIndustries(t).value| <= TopCount
              && Lookup(t.columns, Industry).Some? && Lookup(t.columns, AdoptionRate).Some?
              && Averages(Lookup(t.columns, AdoptionRate).value.dtype)
              && forall z :: z in TopIndustries(t).value ==>
                   var key, rate := Lookup(t.columns, Industry).value, Lookup(t.columns, AdoptionRate).value;
                   && z.key in Keys(key)
                   && z.mean == GroupMean(Keys(key), Measures(rate), z.key)
  {
    if TopIndustries(t).Done? {
      var means := IndustryMeans(t).value;
      var top := TopIndustries(t).value;
      forall z | z in top ensures z in means {
        assert z in multiset(top);
      }
    }
  }

  lemma ExampleOne(ks: seq<Value>, xs: seq<real>)
    requires ks == [Str("A")] && xs == [0.2]
    ensures Distinct(ks) == [Str("A")]
    ensures GroupSum(ks, xs, Str("A")) == 0.2 && Count(ks, Str("A")) == 1
    ensures GroupSum(ks, xs, Str("B")) == 0.0
  {
    assert ks[..0] == [] && xs[..0] == [];
  }

  lemma ExampleTwo(ks: seq<Value>, xs: seq<real>)
    requires ks == [Str("A"), Str("A")] && xs == [0.2, 0.4]
    ensures Distinct(ks) == [Str("A")]
    ensures GroupSum(ks, xs, Str("A")) == 0.6 && Count(ks, Str("A")) == 2
    ensures GroupSum(ks, xs, Str("B")) == 0.0
  {
    assert ks[..1] == [Str("A")] && xs[..1] == [0.2];
    ExampleOne(ks[..1], xs[..1]);
  }

  lemma ExampleGroups(ks: seq<Value>, xs: seq<real>)
    requires ks == [Str("A"), Str("A"), Str("B")] && xs == [0.2, 0.4, 0.6]
    ensures Distinct(ks) == [Str("A"), Str("B")]
    ensures GroupSum(ks, xs, Str("A")) == 0.6 && Count(ks, Str("A")) == 2
    ensures GroupSum(ks, xs, Str("B")) == 0.6 && Count(ks, Str("B")) == 1
  {
    assert ks[..2] == [Str("A"), Str("A")] && xs[..2] == [0.2, 0.4];
    ExampleTwo(ks[..2], xs[..2]);
  }

  /** Industries [A, A, B] with adoption rates [0.2, 0.4, 0.6]: A has mean
      0.3 over 2 rows, B has 0.6 over 1 row, and the ranking is B then A. */
  lemma IndustryExample(ks: seq<Value>, xs: seq<real>)
    requires ks == [Str("A"), Str("A"), Str("B")] && xs == [0.2, 0.4, 0.6]
    ensures GroupMeans(ks, xs) == [MeanRow(Str("A"), 0.3), MeanRow(Str("B"), 0.6)]
    ensures Count(ks, Str("A")) == 2 && Count(ks, Str("B")) == 1
    ensures SortDesc(GroupMeans(ks, xs), MeanKey) == [MeanRow(Str("B"), 0.6), MeanRow(Str("A"), 0.3)]
  {
    var a, b := Str("A"), Str("B");
    ExampleGroups(ks, xs);
    var means := GroupMeans(ks, xs);
    assert means == [MeanRow(a, 0.3), MeanRow(b, 0.6)];
    assert means[1..] == [MeanRow(b, 0.6)];
    assert SortDesc(means[1..], MeanKey) == [MeanRow(b, 0.6)];
  }
}
