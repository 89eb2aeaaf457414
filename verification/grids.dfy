/**
 * Value views of grid fields, and reductions over the cells of a grid.
 *
 * A field lives in an `array2` indexed (i, j).  The point loop of the grid visits
 * the cells row by row: i = 0 .. Mx-1, and within a row j = 0 .. My-1.  The
 * reductions below follow that order: `CountWhere(sel, my, i, j)` is the number of
 * selected cells visited before (i, j), so a nested loop keeps its accumulator
 * equal to it without any arithmetic on flattened indices.
 */
module Grids {

  /** The contents of a field as a value: g[i][j] is the cell (i, j). */
  type Grid<T> = seq<seq<T>>

  predicate IsGrid<T>(g: Grid<T>, mx: nat, my: nat) {
    |g| == mx && forall i :: 0 <= i < mx ==> |g[i]| == my
  }

  predicate InGrid<T>(g: Grid<T>, i: int, j: int) {
    0 <= i < |g| && 0 <= j < |g[i]|
  }

  /** The current contents of an array field. */
  ghost function Snapshot<T>(a: array2<T>): (g: Grid<T>)
    reads a
    ensures IsGrid(g, a.Length0, a.Length1)
    ensures forall i, j :: 0 <= i < a.Length0 && 0 <= j < a.Length1 ==> g[i][j] == a[i, j]
  {
    seq(a.Length0, i requires 0 <= i < a.Length0 reads a =>
      seq(a.Length1, j requires 0 <= j < a.Length1 reads a => a[i, j]))
  }

  /** A real field as a total function of the cell index (0 outside the grid). */
  function Values(g: Grid<real>): (int, int) -> real {
    (i, j) => if InGrid(g, i, j) then g[i][j] else 0.0
  }

  /** Cell (p, q) is visited before cell (i, j). */
  predicate Before(p: int, q: int, i: int, j: int) {
    p < i || (p == i && q < j)
  }

  /** Number of cells selected by `sel` among those visited before (i, j). */
  function CountWhere(sel: (int, int) -> bool, my: nat, i: nat, j: nat): nat
    requires j <= my
    decreases i, j
  {
    if j > 0 then CountWhere(sel, my, i, j - 1) + (if sel(i, j - 1) then 1 else 0)
    else if i > 0 then CountWhere(sel, my, i - 1, my)
    else 0
  }

  /** Sum of `val` over the cells selected by `sel` among those visited before (i, j). */
  function SumWhere(sel: (int, int) -> bool, val: (int, int) -> real, my: nat, i: nat, j: nat): real
    requires j <= my
    decreases i, j
  {
    if j > 0 then SumWhere(sel, val, my, i, j - 1) + (if sel(i, j - 1) then val(i, j - 1) else 0.0)
    else if i > 0 then SumWhere(sel, val, my, i - 1, my)
    else 0.0
  }

  /** A count only depends on which of the visited cells are selected. */
  lemma {:induction false} CountWhereFrame(s1: (int, int) -> bool, s2: (int, int) -> bool, my: nat, i: nat, j: nat)
    requires j <= my
    requires forall p, q :: 0 <= p && 0 <= q < my && Before(p, q, i, j) ==> s1(p, q) == s2(p, q)
    ensures CountWhere(s1, my, i, j) == CountWhere(s2, my, i, j)
    decreases i, j
  {
    if j > 0 {
      CountWhereFrame(s1, s2, my, i, j - 1);
    } else if i > 0 {
      CountWhereFrame(s1, s2, my, i - 1, my);
    }
  }

  /** A sum only depends on the selection and on the values at selected visited cells. */
  lemma {:induction false} SumWhereFrame(s1: (int, int) -> bool, v1: (int, int) -> real,
                                         s2: (int, int) -> bool, v2: (int, int) -> real,
                                         my: nat, i: nat, j: nat)
    requires j <= my
    requires forall p, q :: 0 <= p && 0 <= q < my && Before(p, q, i, j) ==>
               s1(p, q) == s2(p, q) && (s1(p, q) ==> v1(p, q) == v2(p, q))
    ensures SumWhere(s1, v1, my, i, j) == SumWhere(s2, v2, my, i, j)
    decreases i, j
  {
    if j > 0 {
      SumWhereFrame(s1, v1, s2, v2, my, i, j - 1);
    } else if i > 0 {
      SumWhereFrame(s1, v1, s2, v2, my, i - 1, my);
    }
  }

  /** A selected cell that has been visited is counted: the count is at least 1. */
  lemma {:induction false} SelectedCellIsCounted(sel: (int, int) -> bool, my: nat, i: nat, j: nat, p: nat, q: nat)
    requires j <= my && q < my
    requires Before(p, q, i, j) && sel(p, q)
    ensures CountWhere(sel, my, i, j) >= 1
    decreases i, j
  {
    if j > 0 {
      if !(p == i && q == j - 1) {
        SelectedCellIsCounted(sel, my, i, j - 1, p, q);
      }
    } else {
      SelectedCellIsCounted(sel, my, i - 1, my, p, q);
    }
  }

  /** With no selected cell the sum is empty, hence exactly 0. */
  lemma {:induction false} EmptySelectionSumsToZero(sel: (int, int) -> bool, val: (int, int) -> real, my: nat, i: nat, j: nat)
    requires j <= my
    requires CountWhere(sel, my, i, j) == 0
    ensures SumWhere(sel, val, my, i, j) == 0.0
    decreases i, j
  {
    if j > 0 {
      EmptySelectionSumsToZero(sel, val, my, i, j - 1);
    } else if i > 0 {
      EmptySelectionSumsToZero(sel, val, my, i - 1, my);
    }
  }

  /** n copies of a added together. */
  function Times(a: real, n: nat): real {
    if n == 0 then 0.0 else Times(a, n - 1) + a
  }

  lemma {:induction false} TimesIsProduct(a: real, n: nat)
    ensures Times(a, n) == a * (n as real)
  {
    if n > 0 {
      TimesIsProduct(a, n - 1);
    }
  }

  /**
   * If every selected visited value lies in [lo, hi], the sum lies between the count
   * copies of lo and of hi; so a mean over a non-empty selection lies in [lo, hi].
   */
  lemma {:induction false} SumWhereBounds(sel: (int, int) -> bool, val: (int, int) -> real, lo: real, hi: real,
                                          my: nat, i: nat, j: nat)
    requires j <= my
    requires forall p, q :: 0 <= p && 0 <= q < my && Before(p, q, i, j) && sel(p, q) ==> lo <= val(p, q) <= hi
    ensures Times(lo, CountWhere(sel, my, i, j)) <= SumWhere(sel, val, my, i, j) <= Times(hi, CountWhere(sel, my, i, j))
    decreases i, j
  {
    if j > 0 {
      SumWhereBounds(sel, val, lo, hi, my, i, j - 1);
      if sel(i, j - 1) {
        assert Before(i, j - 1, i, j);
      }
    } else if i > 0 {
      SumWhereBounds(sel, val, lo, hi, my, i - 1, my);
    }
  }

  lemma MulRight(a: real, b: real, n: real)
    requires n > 0.0 && a < b
    ensures a * n < b * n
  {
    assert (b - a) * n > 0.0;
  }

  lemma DivBetween(lo: real, hi: real, sum: real, n: real)
    requires n > 0.0 && lo * n <= sum <= hi * n
    ensures lo <= sum / n <= hi
  {
    var x := sum / n;
    assert x * n == sum;
    if x < lo {
      MulRight(x, lo, n);
    }
    if hi < x {
      MulRight(hi, x, n);
    }
  }

  /** Mean of the selected values over all cells of an mx-by-my grid, 0 when nothing is selected. */
  function MeanWhere(sel: (int, int) -> bool, val: (int, int) -> real, mx: nat, my: nat): real {
    var n := CountWhere(sel, my, mx, 0);
    if n > 0 then SumWhere(sel, val, my, mx, 0) / (n as real) else 0.0
  }

  /** A mean lies between the least and the greatest of the values it averages. */
  lemma MeanWhereBounds(sel: (int, int) -> bool, val: (int, int) -> real, lo: real, hi: real, mx: nat, my: nat)
    requires forall p, q :: 0 <= p < mx && 0 <= q < my && sel(p, q) ==> lo <= val(p, q) <= hi
    requires CountWhere(sel, my, mx, 0) > 0
    ensures lo <= MeanWhere(sel, val, mx, my) <= hi
  {
    var c := CountWhere(sel, my, mx, 0);
    var sum := SumWhere(sel, val, my, mx, 0);
    SumWhereBounds(sel, val, lo, hi, my, mx, 0);
    ScaledBounds(lo, hi, sum, c);
    assert MeanWhere(sel, val, mx, my) == sum / (c as real);
  }

  /** Between c copies of lo and c copies of hi, divided by c, is between lo and hi. */
  lemma ScaledBounds(lo: real, hi: real, sum: real, c: nat)
    requires c > 0 && Times(lo, c) <= sum <= Times(hi, c)
    ensures lo <= sum / (c as real) <= hi
  {
    TimesIsProduct(lo, c);
    TimesIsProduct(hi, c);
    DivBetween(lo, hi, sum, c as real);
  }

  /** A mean only depends on the values at the selected cells. */
  lemma MeanWhereFrame(sel: (int, int) -> bool, v1: (int, int) -> real, v2: (int, int) -> real, mx: nat, my: nat)
    requires forall p, q :: 0 <= p < mx && 0 <= q < my && sel(p, q) ==> v1(p, q) == v2(p, q)
    ensures MeanWhere(sel, v1, mx, my) == MeanWhere(sel, v2, mx, my)
  {
    SumWhereFrame(sel, v1, sel, v2, my, mx, 0);
  }
}
