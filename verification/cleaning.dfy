/** The cleaning step of src/eda_ai_adoption.py: drop the columns that are
    more than half null, then fill the nulls left in each column, with the
    column's median when it is numeric and with the token "Desconocido"
    otherwise. */
module Cleaning {
  import opened Tables
  import opened Stats

  /** Fraction of nulls above which a column is dropped (line 65). */
  const NullThreshold: real := 0.5

  /** The token that fills the nulls of a non-numeric column. */
  const Unknown: string := "Desconocido"

  /** `nulos > len(df) * umbral_nulos`: the comparison is made in floating
      point between the null count and half the row count. */
  function TooSparse(c: Column, rows: nat): (b: bool)
    ensures b <==> 2 * NullCount(c.cells) > rows
  {
    NullCount(c.cells) as real > rows as real * NullThreshold
  }

  /** Lines 66-67: the table without its too-sparse columns. */
  function DropSparse(t: Table): (r: Table)
    ensures r.rows == t.rows
    ensures forall c :: c in r.columns <==> c in t.columns && 2 * NullCount(c.cells) <= t.rows
    ensures Subsequence(r.columns, t.columns)
    ensures WellFormed(t) ==> WellFormed(r)
  {
    t.(columns := Select(t.columns, c => !TooSparse(c, t.rows)))
  }

  /** A surviving column of a non-empty table has a non-null cell, so the
      median taken when it is filled is over a non-empty set of numbers. */
  lemma SurvivorHasValue(t: Table, c: Column)
    requires WellFormed(t) && t.rows > 0
    requires c in DropSparse(t).columns
    ensures NullCount(c.cells) < |c.cells|
    ensures IsNumeric(c.dtype) ==> Median(Numbers(c.cells)).Some?
  {
    if IsNumeric(c.dtype) {
      NumbersOfNumericColumn(c.cells);
    }
  }

  /** `fillna(fill)`: every null becomes `fill`. A NaN fill (`None`) leaves
      the nulls as they are. */
  function FillNa(cells: seq<Option<Value>>, fill: Option<Value>): (r: seq<Option<Value>>)
    ensures |r| == |cells|
    ensures forall i :: 0 <= i < |cells| && cells[i].Some? ==> r[i] == cells[i]
    ensures forall i :: 0 <= i < |cells| && cells[i].None? ==> r[i] == fill
    ensures fill.Some? ==> Complete(r)
  {
    seq(|cells|, i requires 0 <= i < |cells| => if cells[i].None? then fill else cells[i])
  }

  /** The value a column's nulls are filled with: its median when it is
      numeric (NaN when it has no number at all), the token otherwise. */
  function FillValue(c: Column): (v: Option<Value>)
    ensures !IsNumeric(c.dtype) ==> v == Some(Str(Unknown))
    ensures IsNumeric(c.dtype) ==> (v.Some? <==> |Numbers(c.cells)| > 0)
    ensures IsNumeric(c.dtype) && |Numbers(c.cells)| > 0 ==> v == Some(Num(Median(Numbers(c.cells)).value))
  {
    if IsNumeric(c.dtype) then
      match Median(Numbers(c.cells))
      case None => None
      case Some(m) => Some(Num(m))
    else Some(Str(Unknown))
  }

  /** A column after the fill step of lines 73-77: same name, type and
      length, non-null cells kept, every null replaced by the fill value. */
  function Filled(c: Column): (r: Column)
    ensures r.name == c.name && r.dtype == c.dtype && |r.cells| == |c.cells|
    ensures forall i :: 0 <= i < |c.cells| && c.cells[i].Some? ==> r.cells[i] == c.cells[i]
    ensures forall i :: 0 <= i < |c.cells| && c.cells[i].None? ==> r.cells[i] == FillValue(c)
  {
    c.(cells := FillNa(c.cells, FillValue(c)))
  }

  /** A column without nulls is left exactly as it was. */
  lemma FilledUnchanged(c: Column)
    requires Complete(c.cells)
    ensures Filled(c) == c
  {
    assert Filled(c).cells == c.cells;
  }

  /** Filling a well-typed column keeps it well typed. In a numeric column
      that has a value every null becomes the median of its numbers; in a
      text column every null becomes "Desconocido"; and a column that has a
      value is left with no null. */
  lemma FilledColumn(c: Column)
    requires WellTyped(c)
    ensures WellTyped(Filled(c))
    ensures IsNumeric(c.dtype) && |Numbers(c.cells)| > 0 ==>
              forall i :: 0 <= i < |c.cells| && c.cells[i].None? ==>
                Filled(c).cells[i] == Some(Num(Median(Numbers(c.cells)).value))
    ensures !IsNumeric(c.dtype) ==>
              forall i :: 0 <= i < |c.cells| && c.cells[i].None? ==> Filled(c).cells[i] == Some(Str(Unknown))
    ensures NullCount(c.cells) < |c.cells| ==> Complete(Filled(c).cells)
  {
    if c.dtype == Bool {
      FilledUnchanged(c);
    }
    if NullCount(c.cells) < |c.cells| && IsNumeric(c.dtype) {
      NumbersOfNumericColumn(c.cells);
    }
  }

  /** The float column [1, null, 3] has median 2. */
  lemma FillValueExample(c: Column)
    requires c == Column("x", Float64, [Some(Num(1.0)), None, Some(Num(3.0))])
    ensures FillValue(c) == Some(Num(2.0))
  {
    var cells := c.cells;
    assert cells[1..] == [None, Some(Num(3.0))];
    assert cells[1..][1..] == [Some(Num(3.0))];
    assert cells[1..][1..][1..] == [];
    assert Numbers(cells) == [1.0, 3.0];
    MedianOfTwo(1.0, 3.0);
  }

  /** The float column [1, null, 3] is filled to [1, 2, 3]. */
  lemma FillExample(c: Column)
    requires c == Column("x", Float64, [Some(Num(1.0)), None, Some(Num(3.0))])
    ensures Filled(c).cells == [Some(Num(1.0)), Some(Num(2.0)), Some(Num(3.0))]
  {
    FillValueExample(c);
    FillNaExample(c.cells, FillValue(c));
  }

  lemma FillNaExample(cells: seq<Option<Value>>, fill: Option<Value>)
    requires cells == [Some(Num(1.0)), None, Some(Num(3.0))]
    ensures FillNa(cells, fill) == [Some(Num(1.0)), fill, Some(Num(3.0))]
  {
    var r := FillNa(cells, fill);
    assert r[1] == fill;
  }

  /** `df_clean`, the table being cleaned in place. */
  class Frame {
    var rows: nat
    var columns: seq<Column>

    /** `df.copy()` (line 62), here of the table already stripped of its
        sparse columns. */
    constructor (t: Table)
      ensures rows == t.rows && columns == t.columns
    {
      rows := t.rows;
      columns := t.columns;
    }

    function Contents(): Table
      reads this
    {
      Table(rows, columns)
    }

    /** Lines 72-77: each column that has a null is filled in place. */
    method FillMissing()
      modifies this
      ensures rows == old(rows)
      ensures |columns| == |old(columns)|
      ensures forall i :: 0 <= i < |columns| ==> columns[i] == Filled(old(columns)[i])
    {
      var i := 0;
      while i < |columns|
        invariant i <= |columns| == |old(columns)|
        invariant rows == old(rows)
        invariant forall k :: 0 <= k < i ==> columns[k] == Filled(old(columns)[k])
        invariant forall k :: i <= k < |columns| ==> columns[k] == old(columns)[k]
      {
        var c := columns[i];
        if NullCount(c.cells) > 0 {
          if IsNumeric(c.dtype) {
            var m := Median(Numbers(c.cells));
            var fill := if m.Some? then Some(Num(m.value)) else None;
            columns := columns[i := c.(cells := FillNa(c.cells, fill))];
          } else {
            columns := columns[i := c.(cells := FillNa(c.cells, Some(Str(Unknown))))];
          }
        } else {
          FilledUnchanged(c);
        }
        i := i + 1;
      }
    }
  }

  /** Lines 62-77: the cleaned table has no null, keeps the rows, and holds
      the surviving columns, in order, each filled. */
  method Clean(raw: Table) returns (clean: Table)
    requires WellFormed(raw)
    ensures clean.rows == raw.rows
    ensures |clean.columns| == |DropSparse(raw).columns| <= |raw.columns|
    ensures forall i :: 0 <= i < |clean.columns| ==>
              clean.columns[i] == Filled(DropSparse(raw).columns[i])
    ensures WellFormed(clean) && NoNulls(clean)
  {
    var kept := DropSparse(raw);
    SubsequenceNoLonger(kept.columns, raw.columns);
    var df := new Frame(kept);
    df.FillMissing();
    clean := df.Contents();
    forall c | c in clean.columns
      ensures |c.cells| == clean.rows && WellTyped(c) && Complete(c.cells)
    {
      var i :| 0 <= i < |clean.columns| && clean.columns[i] == c;
      var k := kept.columns[i];
      assert k in kept.columns;
      FilledColumn(k);
      if raw.rows > 0 {
        SurvivorHasValue(raw, k);
      }
    }
  }

  lemma {:induction false} SubsequenceNoLonger(a: seq<Column>, b: seq<Column>)
    requires Subsequence(a, b)
    ensures |a| <= |b|
    decreases |b|
  {
    if a != [] {
      if a[0] == b[0] {
        SubsequenceNoLonger(a[1..], b[1..]);
      } else {
        SubsequenceNoLonger(a, b[1..]);
      }
    }
  }
}
