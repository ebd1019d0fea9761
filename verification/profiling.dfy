/** The column classification of `analisis_univariado` (lines 81-93) and the
    cardinality filter that decides which categorical columns get a
    frequency report (line 138). */
module Profiling {
  import opened Tables

  /** Categorical columns with at most this many distinct values are reported. */
  const MaxCardinality: nat := 50

  /** `select_dtypes(include=[np.number])`: the numeric columns, in order. */
  function NumericColumns(t: Table): (r: seq<Column>)
    ensures forall c :: c in r <==> c in t.columns && IsNumeric(c.dtype)
    ensures Subsequence(r, t.columns)
  {
    Select(t.columns, (c: Column) => IsNumeric(c.dtype))
  }

  /** `select_dtypes(include=['object'])`: the text columns, in order. */
  function CategoricalColumns(t: Table): (r: seq<Column>)
    ensures forall c :: c in r <==> c in t.columns && c.dtype == Object
    ensures Subsequence(r, t.columns)
  {
    Select(t.columns, (c: Column) => c.dtype == Object)
  }

  /** `nunique()`: the number of distinct non-null values. */
  function Cardinality(c: Column): (n: nat)
    ensures n == |set v | v in Present(c.cells)|
    ensures n + NullCount(c.cells) <= |c.cells|
    ensures n == 0 <==> NullCount(c.cells) == |c.cells|
  {
    var vs := Present(c.cells);
    var d := Distinct(vs);
    assert |vs| > 0 ==> vs[0] in d;
    assert (set v | v in d) == (set v | v in vs);
    SizeOfDuplicateFree(d);
    |d|
  }

  /** A list without duplicates has as many elements as its set. */
  lemma {:induction false} SizeOfDuplicateFree(vs: seq<Value>)
    requires NoDuplicates(vs)
    ensures |set v | v in vs| == |vs|
  {
    if vs != [] {
      var rest := vs[1..];
      assert NoDuplicates(rest) by {
        forall i, j | 0 <= i < j < |rest| ensures rest[i] != rest[j] {
          assert rest[i] == vs[i + 1] && rest[j] == vs[j + 1];
        }
      }
      SizeOfDuplicateFree(rest);
      assert vs[0] !in rest by {
        forall i | 0 <= i < |rest| ensures rest[i] != vs[0] {
          assert rest[i] == vs[i + 1];
        }
      }
      assert (set v | v in vs) == {vs[0]} + (set v | v in rest);
    }
  }

  /** Line 138: the categorical columns whose values get a top-5 report. */
  function ReportedColumns(t: Table): (r: seq<Column>)
    ensures forall c :: c in r <==> c in t.columns && c.dtype == Object && Cardinality(c) <= MaxCardinality
    ensures Subsequence(r, CategoricalColumns(t))
  {
    Select(CategoricalColumns(t), (c: Column) => Cardinality(c) <= MaxCardinality)
  }
}
