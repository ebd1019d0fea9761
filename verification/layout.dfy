/** The panel grid of the distribution figure (lines 99-126): one panel per
    numeric column, at most three panels to a row, and the panels left over
    in the last row hidden. */
module Layout {

  /** At most this many panels to a row. */
  const MaxPanelsPerRow: nat := 3

  datatype Grid = Grid(rows: nat, cols: nat)

  /** Lines 100-101 for `k` numeric columns (the figure is drawn only when
      there is at least one): `cols` is the smaller of 3 and `k`, and `rows`
      is the ceiling of `k / cols`, so the grid is the smallest one of that
      width holding `k` panels. */
  function DistributionGrid(k: nat): (g: Grid)
    requires k >= 1
    ensures g.cols == (if k < MaxPanelsPerRow then k else MaxPanelsPerRow)
    ensures g.rows >= 1
    ensures g.rows * g.cols >= k
    ensures (g.rows - 1) * g.cols < k
  {
    var cols := if k < MaxPanelsPerRow then k else MaxPanelsPerRow;
    var rows := (k + cols - 1) / cols;
    CeilingDivision(k, cols);
    Grid(rows, cols)
  }

  lemma CeilingDivision(k: nat, c: nat)
    requires k >= 1 && c >= 1
    ensures (k + c - 1) / c >= 1
    ensures (k + c - 1) / c * c >= k
    ensures ((k + c - 1) / c - 1) * c < k
  {
    var q, r := (k + c - 1) / c, (k + c - 1) % c;
    assert q * c + r == k + c - 1;
    assert (q - 1) * c == q * c - c;
  }

  /** The panels left over are fewer than one row: every row of the grid
      holds at least one drawn panel. */
  lemma HiddenPanelsFewerThanARow(k: nat)
    requires k >= 1
    ensures 0 <= DistributionGrid(k).rows * DistributionGrid(k).cols - k < DistributionGrid(k).cols
  {
    var g := DistributionGrid(k);
    assert (g.rows - 1) * g.cols == g.rows * g.cols - g.cols;
  }

  /** Lines 125-126: `axes[i].set_visible(False)` for every panel from `k`
      on; `visible[i]` says whether panel `i` is shown. */
  method HideUnusedPanels(visible: array<bool>, k: nat)
    modifies visible
    ensures forall i :: 0 <= i < visible.Length ==> visible[i] == (i < k && old(visible[i]))
  {
    var i := k;
    while i < visible.Length
      invariant forall j :: 0 <= j < visible.Length ==>
                  visible[j] == (if j < k || j >= i then old(visible[j]) else false)
    {
      visible[i] := false;
      i := i + 1;
    }
  }

  /** Lines 100-126 for `k >= 1` numeric columns: the grid's panels, all
      shown at first, then the unused ones hidden. Panel `i` is shown exactly
      when it draws column `i`; since the grid holds at least `k` panels the
      `i < len(axes)` guard of line 112 never skips a column. */
  method LayoutPanels(k: nat) returns (g: Grid, visible: seq<bool>)
    requires k >= 1
    ensures g.rows * g.cols >= k && |visible| == g.rows * g.cols
    ensures g.cols == (if k < MaxPanelsPerRow then k else MaxPanelsPerRow)
    ensures forall i :: 0 <= i < |visible| ==> (visible[i] <==> i < k)
    ensures |visible| - k < g.cols
  {
    g := DistributionGrid(k);
    HiddenPanelsFewerThanARow(k);
    var axes := new bool[g.rows * g.cols](_ => true);
    HideUnusedPanels(axes, k);
    visible := axes[..];
  }
}
