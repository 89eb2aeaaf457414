/**
 * Properties of PICO's box-0 input and basin means that relate several of the
 * definitions in PicoOcean: the per-basin cell counts of a shelf partition its cells,
 * so the weighted box-0 input of a shelf is a convex combination of basin inputs; a
 * basin input lies within the range of the ocean field over the basin; and the clamp
 * keeps every box-0 temperature at or above the pressure melting point.
 */
module PicoProperties {

  import opened Grids
  import opened PicoOcean

  /** Sum of the first n entries of a sequence of counts. */
  function Total(w: seq<nat>, n: nat): nat
    requires n <= |w|
  {
    if n == 0 then 0 else Total(w, n - 1) + w[n - 1]
  }

  /** Number of basins among 0 .. n-1 that select cell (p, q) for shelf s: 1 or 0. */
  function BasinHits(shelf: Grid<int>, basins: Grid<real>, s: int, n: nat, p: int, q: int): nat {
    if n == 0 then 0
    else BasinHits(shelf, basins, s, n - 1, p, q) + (if ShelfBasinSel(shelf, basins, s, n - 1)(p, q) then 1 else 0)
  }

  /** Sum over basins 0 .. n-1 of the cells of shelf s in the basin, visited before (i, j). */
  function BasinCountSum(shelf: Grid<int>, basins: Grid<real>, s: int, n: nat, my: nat, i: nat, j: nat): nat
    requires j <= my
  {
    if n == 0 then 0
    else BasinCountSum(shelf, basins, s, n - 1, my, i, j) + CountWhere(ShelfBasinSel(shelf, basins, s, n - 1), my, i, j)
  }

  /** A cell of shelf s whose basin id is in [0, n) lies in exactly one of the basins 0 .. n-1. */
  lemma {:induction false} BasinHitsIsIndicator(shelf: Grid<int>, basins: Grid<real>, s: int, n: nat, p: int, q: int)
    ensures BasinHits(shelf, basins, s, n, p, q) ==
            (if ShelfSel(shelf, s)(p, q) && InGrid(basins, p, q) && 0 <= AsInt(basins[p][q]) < n then 1 else 0)
  {
    if n > 0 {
      BasinHitsIsIndicator(shelf, basins, s, n - 1, p, q);
    }
  }

  /** Visiting one more cell adds, summed over the basins, the number of basins that select it. */
  lemma {:induction false} BasinCountSumStep(shelf: Grid<int>, basins: Grid<real>, s: int, n: nat, my: nat, i: nat, j: nat)
    requires j < my
    ensures BasinCountSum(shelf, basins, s, n, my, i, j + 1) ==
            BasinCountSum(shelf, basins, s, n, my, i, j) + BasinHits(shelf, basins, s, n, i, j)
  {
    if n > 0 {
      BasinCountSumStep(shelf, basins, s, n - 1, my, i, j);
    }
  }

  /** Moving to the next row does not change any count. */
  lemma {:induction false} BasinCountSumRow(shelf: Grid<int>, basins: Grid<real>, s: int, n: nat, my: nat, i: nat)
    ensures BasinCountSum(shelf, basins, s, n, my, i + 1, 0) == BasinCountSum(shelf, basins, s, n, my, i, my)
  {
    if n > 0 {
      BasinCountSumRow(shelf, basins, s, n - 1, my, i);
    }
  }

  /**
   * When every basin id of the visited cells is in [0, n), the per-basin counts of
   * shelf s add up to the number of its cells.
   */
  lemma {:induction false} BasinCountsPartitionPrefix(shelf: Grid<int>, basins: Grid<real>, s: int, n: nat,
                                                      my: nat, i: nat, j: nat)
    requires j <= my && IsGrid(basins, |basins|, my) && IsGrid(shelf, |basins|, my)
    requires i < |basins| || (i == |basins| && j == 0)
    requires forall p, q :: 0 <= p < |basins| && 0 <= q < my ==> 0 <= AsInt(basins[p][q]) < n
    ensures BasinCountSum(shelf, basins, s, n, my, i, j) == CountWhere(ShelfSel(shelf, s), my, i, j)
    decreases i, j
  {
    if j > 0 {
      BasinCountsPartitionPrefix(shelf, basins, s, n, my, i, j - 1);
      BasinCountSumStep(shelf, basins, s, n, my, i, j - 1);
      BasinHitsIsIndicator(shelf, basins, s, n, i, j - 1);
    } else if i > 0 {
      BasinCountsPartitionPrefix(shelf, basins, s, n, my, i - 1, my);
      BasinCountSumRow(shelf, basins, s, n, my, i - 1);
    } else {
      assert BasinCountSum(shelf, basins, s, n, my, 0, 0) == 0 by {
        BasinCountSumEmpty(shelf, basins, s, n, my);
      }
    }
  }

  lemma {:induction false} BasinCountSumEmpty(shelf: Grid<int>, basins: Grid<real>, s: int, n: nat, my: nat)
    ensures BasinCountSum(shelf, basins, s, n, my, 0, 0) == 0
  {
    if n > 0 {
      BasinCountSumEmpty(shelf, basins, s, n - 1, my);
    }
  }

  lemma {:induction false} TotalOfBasinCounts(shelf: Grid<int>, basins: Grid<real>, mx: nat, my: nat, s: int, nb: nat, n: nat)
    requires n <= nb
    ensures Total(ShelfBasinCounts(shelf, basins, mx, my, s, nb), n) == BasinCountSum(shelf, basins, s, n, my, mx, 0)
  {
    if n > 0 {
      TotalOfBasinCounts(shelf, basins, mx, my, s, nb, n - 1);
    }
  }

  /**
   * The per-basin cell counts of a shelf partition its cells: with every basin id in
   * [0, nb), they add up to the shelf's cell count.
   */
  lemma ShelfBasinCountsPartition(shelf: Grid<int>, basins: Grid<real>, mx: nat, my: nat, s: int, nb: nat)
    requires IsGrid(basins, mx, my) && IsGrid(shelf, mx, my)
    requires forall p, q :: 0 <= p < mx && 0 <= q < my ==> 0 <= AsInt(basins[p][q]) < nb
    ensures Total(ShelfBasinCounts(shelf, basins, mx, my, s, nb), nb) == CountWhere(ShelfSel(shelf, s), my, mx, 0)
  {
    TotalOfBasinCounts(shelf, basins, mx, my, s, nb, nb);
    BasinCountsPartitionPrefix(shelf, basins, s, nb, my, mx, 0);
  }

  /** sum of values[b] * weights[b] over b in [1, n). */
  function WeightedSum(values: seq<real>, weights: seq<nat>, n: nat): real
    requires n <= |values| && n <= |weights|
  {
    if n <= 1 then 0.0 else WeightedSum(values, weights, n - 1) + values[n - 1] * (weights[n - 1] as real)
  }

  /** Total of the weights of basins 1 .. n-1. */
  function TotalAfterFirst(weights: seq<nat>, n: nat): nat
    requires n <= |weights|
  {
    if n <= 1 then 0 else TotalAfterFirst(weights, n - 1) + weights[n - 1]
  }

  lemma {:induction false} WeightedIsQuotient(values: seq<real>, weights: seq<nat>, total: nat, n: nat)
    requires n <= |values| && n <= |weights| && total > 0
    ensures Weighted(values, weights, total, n) == WeightedSum(values, weights, n) / (total as real)
  {
    if n > 1 {
      WeightedIsQuotient(values, weights, total, n - 1);
      var t := total as real;
      var a := WeightedSum(values, weights, n - 1);
      var b := values[n - 1] * (weights[n - 1] as real);
      assert a / t + b / t == (a + b) / t;
    }
  }

  lemma ScaleByWeight(lo: real, v: real, hi: real, w: real)
    requires lo <= v <= hi && w >= 0.0
    ensures lo * w <= v * w <= hi * w
  {
    assert (v - lo) * w >= 0.0;
    assert (hi - v) * w >= 0.0;
  }

  /** Adding one more weighted value between lo and hi keeps a weighted sum within bounds. */
  lemma BoundsStep(lo: real, hi: real, t: real, w: real, a: real, v: real)
    requires lo * t <= a <= hi * t && lo <= v <= hi && w >= 0.0
    ensures lo * (t + w) <= a + v * w <= hi * (t + w)
  {
    ScaleByWeight(lo, v, hi, w);
    assert lo * (t + w) == lo * t + lo * w;
    assert hi * (t + w) == hi * t + hi * w;
  }

  lemma {:induction false} WeightedSumBounds(values: seq<real>, weights: seq<nat>, n: nat, lo: real, hi: real)
    requires n <= |values| && n <= |weights|
    requires forall b :: 1 <= b < n ==> lo <= values[b] <= hi
    ensures lo * (TotalAfterFirst(weights, n) as real) <= WeightedSum(values, weights, n)
                                                        <= hi * (TotalAfterFirst(weights, n) as real)
  {
    if n > 1 {
      WeightedSumBounds(values, weights, n - 1, lo, hi);
      BoundsStep(lo, hi, TotalAfterFirst(weights, n - 1) as real, weights[n - 1] as real,
                 WeightedSum(values, weights, n - 1), values[n - 1]);
    }
  }

  lemma {:induction false} TotalSplitsFirst(weights: seq<nat>, n: nat)
    requires 1 <= n <= |weights|
    ensures Total(weights, n) == weights[0] + TotalAfterFirst(weights, n)
  {
    if n > 1 {
      TotalSplitsFirst(weights, n - 1);
    }
  }

  /**
   * The weighted box-0 input is a convex combination when basin 0 carries no weight:
   * with weights adding up to the divisor it lies between the least and the greatest
   * of the basin values 1 .. n-1.
   */
  lemma WeightedIsConvex(values: seq<real>, weights: seq<nat>, total: nat, n: nat, lo: real, hi: real)
    requires 1 <= n <= |values| && n <= |weights| && total > 0
    requires weights[0] == 0 && Total(weights, n) == total
    requires forall b :: 1 <= b < n ==> lo <= values[b] <= hi
    ensures lo <= Weighted(values, weights, total, n) <= hi
  {
    var sum, t := WeightedSum(values, weights, n), total as real;
    assert lo * t <= sum <= hi * t by {
      WeightedSumBounds(values, weights, n, lo, hi);
      TotalSplitsFirst(weights, n);
    }
    DivBetween(lo, hi, sum, t);
    assert Weighted(values, weights, total, n) == sum / t by {
      WeightedIsQuotient(values, weights, total, n);
    }
  }

  /**
   * set_ocean_input_fields: a shelf none of whose cells lies in basin 0 gets a box-0
   * input between the least and the greatest input of the basins 1 .. nb-1.
   */
  lemma ShelfInputWithinBasinInputs(values: seq<real>, shelf: Grid<int>, basins: Grid<real>, mx: nat, my: nat,
                                    s: int, lo: real, hi: real)
    requires |values| >= 1 && IsGrid(basins, mx, my) && IsGrid(shelf, mx, my)
    requires forall p, q :: 0 <= p < mx && 0 <= q < my ==> 0 <= AsInt(basins[p][q]) < |values|
    requires CountWhere(ShelfSel(shelf, s), my, mx, 0) > 0
    requires CountWhere(ShelfBasinSel(shelf, basins, s, 0), my, mx, 0) == 0
    requires forall b :: 1 <= b < |values| ==> lo <= values[b] <= hi
    ensures lo <= ShelfInput(values, shelf, basins, mx, my, s) <= hi
  {
    var weights := ShelfBasinCounts(shelf, basins, mx, my, s, |values|);
    ShelfBasinCountsPartition(shelf, basins, mx, my, s, |values|);
    WeightedIsConvex(values, weights, CountWhere(ShelfSel(shelf, s), my, mx, 0), |values|, lo, hi);
  }

  /**
   * The input of the basin a cell lies in, for basins 1 .. |values|-1; 0 for a cell in
   * basin 0, outside that range or outside the grid.
   */
  function CellBasinValue(values: seq<real>, basins: Grid<real>): (int, int) -> real {
    (p, q) => if InGrid(basins, p, q) && 1 <= AsInt(basins[p][q]) < |values| then values[AsInt(basins[p][q])] else 0.0
  }

  /** sum of values[b] * (cells of shelf s in basin b visited before (i, j)) over b in [1, n). */
  function BasinValueSum(values: seq<real>, shelf: Grid<int>, basins: Grid<real>, s: int, n: nat,
                         my: nat, i: nat, j: nat): real
    requires n <= |values| && j <= my
  {
    if n <= 1 then 0.0
    else BasinValueSum(values, shelf, basins, s, n - 1, my, i, j) +
         values[n - 1] * (CountWhere(ShelfBasinSel(shelf, basins, s, n - 1), my, i, j) as real)
  }

  /** What cell (p, q) adds to BasinValueSum: the value of its basin, if that is among 1 .. n-1. */
  function BasinValueHit(values: seq<real>, shelf: Grid<int>, basins: Grid<real>, s: int, n: nat, p: int, q: int): real
    requires n <= |values|
  {
    if n <= 1 then 0.0
    else BasinValueHit(values, shelf, basins, s, n - 1, p, q) +
         (if ShelfBasinSel(shelf, basins, s, n - 1)(p, q) then values[n - 1] else 0.0)
  }

  lemma {:induction false} BasinValueHitIsCellValue(values: seq<real>, shelf: Grid<int>, basins: Grid<real>, s: int,
                                                    n: nat, p: int, q: int)
    requires n <= |values|
    ensures BasinValueHit(values, shelf, basins, s, n, p, q) ==
            (if ShelfSel(shelf, s)(p, q) && InGrid(basins, p, q) && 1 <= AsInt(basins[p][q]) < n
             then values[AsInt(basins[p][q])] else 0.0)
  {
    if n > 1 {
      BasinValueHitIsCellValue(values, shelf, basins, s, n - 1, p, q);
    }
  }

  lemma {:induction false} BasinValueSumStep(values: seq<real>, shelf: Grid<int>, basins: Grid<real>, s: int,
                                             n: nat, my: nat, i: nat, j: nat)
    requires n <= |values| && j < my
    ensures BasinValueSum(values, shelf, basins, s, n, my, i, j + 1) ==
            BasinValueSum(values, shelf, basins, s, n, my, i, j) + BasinValueHit(values, shelf, basins, s, n, i, j)
  {
    if n > 1 {
      BasinValueSumStep(values, shelf, basins, s, n - 1, my, i, j);
      var c := CountWhere(ShelfBasinSel(shelf, basins, s, n - 1), my, i, j) as real;
      var v := values[n - 1];
      assert v * (c + 1.0) == v * c + v;
    }
  }

  lemma {:induction false} BasinValueSumRow(values: seq<real>, shelf: Grid<int>, basins: Grid<real>, s: int,
                                            n: nat, my: nat, i: nat)
    requires n <= |values|
    ensures BasinValueSum(values, shelf, basins, s, n, my, i + 1, 0) == BasinValueSum(values, shelf, basins, s, n, my, i, my)
  {
    if n > 1 {
      BasinValueSumRow(values, shelf, basins, s, n - 1, my, i);
    }
  }

  lemma {:induction false} BasinValueSumEmpty(values: seq<real>, shelf: Grid<int>, basins: Grid<real>, s: int,
                                              n: nat, my: nat)
    requires n <= |values|
    ensures BasinValueSum(values, shelf, basins, s, n, my, 0, 0) == 0.0
  {
    if n > 1 {
      BasinValueSumEmpty(values, shelf, basins, s, n - 1, my);
    }
  }

  /** Summed basin by basin or cell by cell, the basin values of a shelf's cells agree. */
  lemma {:induction false} BasinValueSumIsCellSum(values: seq<real>, shelf: Grid<int>, basins: Grid<real>, s: int,
                                                  my: nat, i: nat, j: nat)
    requires j <= my
    ensures BasinValueSum(values, shelf, basins, s, |values|, my, i, j) ==
            SumWhere(ShelfSel(shelf, s), CellBasinValue(values, basins), my, i, j)
    decreases i, j
  {
    if j > 0 {
      BasinValueSumIsCellSum(values, shelf, basins, s, my, i, j - 1);
      BasinValueSumStep(values, shelf, basins, s, |values|, my, i, j - 1);
      BasinValueHitIsCellValue(values, shelf, basins, s, |values|, i, j - 1);
    } else if i > 0 {
      BasinValueSumIsCellSum(values, shelf, basins, s, my, i - 1, my);
      BasinValueSumRow(values, shelf, basins, s, |values|, my, i - 1);
    } else {
      BasinValueSumEmpty(values, shelf, basins, s, |values|, my);
    }
  }

  lemma {:induction false} WeightedSumOfBasinCounts(values: seq<real>, shelf: Grid<int>, basins: Grid<real>,
                                                    mx: nat, my: nat, s: int, n: nat)
    requires n <= |values|
    ensures WeightedSum(values, ShelfBasinCounts(shelf, basins, mx, my, s, |values|), n) ==
            BasinValueSum(values, shelf, basins, s, n, my, mx, 0)
  {
    if n > 1 {
      WeightedSumOfBasinCounts(values, shelf, basins, mx, my, s, n - 1);
    }
  }

  /**
   * set_ocean_input_fields: the box-0 input of a shelf is the mean, over all of its
   * cells, of the input of the basin each cell lies in.  Cells in basin 0 add nothing
   * to the sum but are counted in the divisor, so they pull the input towards 0.
   */
  lemma ShelfInputIsCellMean(values: seq<real>, shelf: Grid<int>, basins: Grid<real>, mx: nat, my: nat, s: int)
    ensures ShelfInput(values, shelf, basins, mx, my, s) ==
            MeanWhere(ShelfSel(shelf, s), CellBasinValue(values, basins), mx, my)
  {
    var total := CountWhere(ShelfSel(shelf, s), my, mx, 0);
    if total > 0 {
      var weights := ShelfBasinCounts(shelf, basins, mx, my, s, |values|);
      WeightedIsQuotient(values, weights, total, |values|);
      WeightedSumOfBasinCounts(values, shelf, basins, mx, my, s, |values|);
      BasinValueSumIsCellSum(values, shelf, basins, s, my, mx, 0);
    }
  }

  /**
   * compute_ocean_input_per_basin: the input of a basin with continental shelf cells
   * lies within the range of the ocean field over those cells; a basin b > 0 without
   * any gets the dummy value.
   */
  lemma BasinInputWithinField(field: Grid<real>, cont: Grid<int>, basins: Grid<real>, mx: nat, my: nat,
                              b: int, dummy: real, lo: real, hi: real)
    requires IsGrid(field, mx, my)
    requires forall p, q :: 0 <= p < mx && 0 <= q < my && InnerBasinSel(cont, basins, b)(p, q) ==>
               lo <= field[p][q] <= hi
    ensures CountWhere(InnerBasinSel(cont, basins, b), my, mx, 0) > 0 ==>
              lo <= BasinInput(field, cont, basins, mx, my, b, dummy) <= hi
    ensures b > 0 && CountWhere(InnerBasinSel(cont, basins, b), my, mx, 0) == 0 ==>
              BasinInput(field, cont, basins, mx, my, b, dummy) == dummy
  {
    var sel := InnerBasinSel(cont, basins, b);
    if CountWhere(sel, my, mx, 0) > 0 {
      MeanWhereBounds(sel, Values(field), lo, hi, mx, my);
    }
  }

  /**
   * compute_box_average: the mean of a field over a non-empty box of a shelf lies
   * within the range of the field there; an empty box has mean 0.
   */
  lemma BoxMeanWithinField(field: Grid<real>, shelf: Grid<int>, box: Grid<int>, mx: nat, my: nat,
                           k: int, s: int, lo: real, hi: real)
    requires IsGrid(field, mx, my)
    requires forall p, q :: 0 <= p < mx && 0 <= q < my && BoxSel(shelf, box, k, s)(p, q) ==>
               lo <= field[p][q] <= hi
    ensures CountWhere(BoxSel(shelf, box, k, s), my, mx, 0) > 0 ==>
              lo <= BoxMean(field, shelf, box, mx, my, k, s) <= hi
    ensures CountWhere(BoxSel(shelf, box, k, s), my, mx, 0) == 0 ==>
              BoxMean(field, shelf, box, mx, my, k, s) == 0.0
  {
    var sel := BoxSel(shelf, box, k, s);
    if CountWhere(sel, my, mx, 0) > 0 {
      MeanWhereBounds(sel, Values(field), lo, hi, mx, my);
    }
  }

  /**
   * set_ocean_input_fields: floating ice of a shelf s > 0 gets the salinity of its
   * shelf and a temperature at or above the pressure melting point, the shelf's own
   * when that is warm enough; every other cell gets (0, 0).
   */
  lemma Box0InputAboveMeltingPoint(physics: PicoPhysics, cellType: int, s: int, thickness: real,
                                   tIn: seq<real>, sIn: seq<real>)
    ensures var r := Box0Input(physics, cellType, s, thickness, tIn, sIn);
            if cellType == MASK_FLOATING && 0 < s < |tIn| && s < |sIn| then
              var thetaPm := physics.thetaPm(sIn[s], physics.pressure(thickness));
              r.1 == sIn[s] && r.0 >= thetaPm && (tIn[s] >= thetaPm ==> r.0 == tIn[s]) &&
              (tIn[s] < thetaPm ==> r.0 == thetaPm + MELTING_POINT_MARGIN)
            else r == (0.0, 0.0)
  {
  }
}
