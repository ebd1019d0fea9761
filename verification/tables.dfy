/** The abstract data frame the analysis works on: a row count and an ordered
    list of named, typed columns whose cells are values or null (NaN). */
module Tables {

  datatype Option<+T> = None | Some(value: T)

  /** A non-null cell: a number (int64 and float64 columns, and bool columns
      with True as 1 and False as 0) or text. */
  datatype Value = Num(x: real) | Str(s: string)

  /** The dtypes pandas infers when it reads a CSV. */
  datatype DType = Int64 | Float64 | Bool | Object

  datatype Column = Column(name: string, dtype: DType, cells: seq<Option<Value>>)

  datatype Table = Table(rows: nat, columns: seq<Column>)

  /** The dtypes that `select_dtypes(include=[np.number])` selects, and the
      two dtypes the cleaning loop fills with a median. For the dtypes a CSV
      yields the two tests coincide. */
  predicate IsNumeric(d: DType) {
    d == Int64 || d == Float64
  }

  /** A numeric column holds only numbers (or nulls). A bool column holds
      only 0 and 1 and no null: a CSV column with missing booleans is read
      with the object dtype. */
  predicate WellTyped(c: Column) {
    && (IsNumeric(c.dtype) ==>
          forall i :: 0 <= i < |c.cells| && c.cells[i].Some? ==> c.cells[i].value.Num?)
    && (c.dtype == Bool ==>
          forall i :: 0 <= i < |c.cells| ==> c.cells[i] == Some(Num(0.0)) || c.cells[i] == Some(Num(1.0)))
  }

  /** Every column has one cell per row and is well typed. */
  predicate WellFormed(t: Table) {
    forall c :: c in t.columns ==> |c.cells| == t.rows && WellTyped(c)
  }

  /** No cell is null. */
  predicate Complete(cells: seq<Option<Value>>) {
    forall i :: 0 <= i < |cells| ==> cells[i].Some?
  }

  predicate NoNulls(t: Table) {
    forall c :: c in t.columns ==> Complete(c.cells)
  }

  /** `isnull().sum()` of one column. */
  function NullCount(cells: seq<Option<Value>>): (n: nat)
    ensures n <= |cells|
    ensures n == 0 <==> Complete(cells)
  {
    if cells == [] then 0
    else (if cells[0].None? then 1 else 0) + NullCount(cells[1..])
  }

  /** The non-null cells, in row order. */
  function Present(cells: seq<Option<Value>>): (vs: seq<Value>)
    ensures |vs| + NullCount(cells) == |cells|
    ensures forall v :: v in vs <==> Some(v) in cells
  {
    if cells == [] then []
    else (if cells[0].Some? then [cells[0].value] else []) + Present(cells[1..])
  }

  /** The numbers of a column, skipping nulls (and any non-number). */
  function Numbers(cells: seq<Option<Value>>): (xs: seq<real>)
    ensures |xs| + NullCount(cells) <= |cells|
    ensures forall x :: x in xs <==> Some(Num(x)) in cells
  {
    if cells == [] then []
    else (if cells[0].Some? && cells[0].value.Num? then [cells[0].value.x] else [])
         + Numbers(cells[1..])
  }

  /** In a well-typed numeric column every non-null cell is a number, so the
      numbers are exactly the non-null cells. */
  lemma {:induction false} NumbersOfNumericColumn(cells: seq<Option<Value>>)
    requires forall i :: 0 <= i < |cells| && cells[i].Some? ==> cells[i].value.Num?
    ensures |Numbers(cells)| + NullCount(cells) == |cells|
  {
    if cells != [] {
      NumbersOfNumericColumn(cells[1..]);
    }
  }

  /** `a` is `b` with some elements removed, the rest in their original order. */
  predicate Subsequence<T(==)>(a: seq<T>, b: seq<T>)
    decreases |b|
  {
    if a == [] then true
    else if b == [] then false
    else if a[0] == b[0] then Subsequence(a[1..], b[1..])
    else Subsequence(a, b[1..])
  }

  /** The columns that satisfy `p`, in their original order. */
  function Select(cols: seq<Column>, p: Column -> bool): (r: seq<Column>)
    ensures forall c :: c in r <==> c in cols && p(c)
    ensures Subsequence(r, cols)
  {
    if cols == [] then []
    else if p(cols[0]) then [cols[0]] + Select(cols[1..], p)
    else Select(cols[1..], p)
  }

  /** `name in df.columns`, giving the first column so named. */
  function Lookup(cols: seq<Column>, name: string): (r: Option<Column>)
    ensures r.None? <==> forall c :: c in cols ==> c.name != name
    ensures r.Some? ==> r.value in cols && r.value.name == name
  {
    if cols == [] then None
    else if cols[0].name == name then Some(cols[0])
    else Lookup(cols[1..], name)
  }

  predicate NoDuplicates<K(==,!new)>(ks: seq<K>) {
    forall i, j :: 0 <= i < j < |ks| ==> ks[i] != ks[j]
  }

  /** The distinct values of `ks` in order of first appearance. */
  function Distinct<K(==,!new)>(ks: seq<K>): (d: seq<K>)
    ensures forall k :: k in d <==> k in ks
    ensures NoDuplicates(d)
    ensures |d| <= |ks|
  {
    if ks == [] then []
    else
      var d := Distinct(ks[..|ks| - 1]);
      if ks[|ks| - 1] in d then d else d + [ks[|ks| - 1]]
  }

  /** The number of occurrences of `k` in `ks`. */
  function Count<K(==,!new)>(ks: seq<K>, k: K): (n: nat)
    ensures n <= |ks|
    ensures n > 0 <==> k in ks
  {
    if ks == [] then 0
    else Count(ks[..|ks| - 1], k) + (if ks[|ks| - 1] == k then 1 else 0)
  }

  /** A value that occurs in a list without duplicates occurs there once. */
  lemma {:induction false} CountInDistinct<K(!new)>(ks: seq<K>, k: K)
    requires NoDuplicates(ks) && k in ks
    ensures Count(ks, k) == 1
  {
    var init := ks[..|ks| - 1];
    if ks[|ks| - 1] == k {
      assert k !in init by {
        forall i | 0 <= i < |init| ensures init[i] != k {
          assert ks[i] == init[i];
        }
      }
    } else {
      assert k in init by {
        var i :| 0 <= i < |ks| && ks[i] == k;
        assert init[i] == k;
      }
      assert NoDuplicates(init) by {
        forall i, j | 0 <= i < j < |init| ensures init[i] != init[j] {
          assert ks[i] == init[i] && ks[j] == init[j];
        }
      }
      CountInDistinct(init, k);
    }
  }
}
