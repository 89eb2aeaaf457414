/**
 * PICO, the Potsdam Ice-shelf Cavity mOdel: sub-shelf melt rates from ocean boxes.
 *
 * Every ice shelf is divided into boxes numbered from the grounding line (box 1)
 * towards the calving front.  Ocean temperature and salinity averaged over the
 * continental shelf of each drainage basin give the input of "box 0" in front of each
 * shelf; box 1 is solved from box 0, and every further box from the mean of the box
 * before it.  Cells that cannot be handled that way keep the simpler Beckmann-Goosse
 * parameterization.
 *
 * The geometry masks (cell type, ice shelf ids, box ids, continental shelf) come from
 * PICO's geometry component and the ocean fields from the climate input; both are
 * parameters here.  The physics formulas are uninterpreted functions in PicoPhysics.
 */
module PicoOcean {

  import opened Grids
  import PicoBasins

  // Cell type mask values.
  const MASK_ICE_FREE_BEDROCK: int := 0
  const MASK_GROUNDED: int := 2
  const MASK_FLOATING: int := 3
  const MASK_ICE_FREE_OCEAN: int := 4

  /** Value of the continental shelf mask on the shelf region used for ocean input. */
  const INNER: int := 2

  /** The number of basins before the configuration is read. */
  const DEFAULT_N_BASINS: nat := 20

  /** The margin added to the pressure melting temperature when box-0 input is too cold. */
  const MELTING_POINT_MARGIN: real := 0.001

  /** Reading a mask stored as a real field: the nearest integer, halves rounded up. */
  function AsInt(x: real): (r: int)
    ensures r as real - 0.5 <= x < r as real + 0.5
  {
    (x + 0.5).Floor
  }

  /** Result of the box-1 temperature formula, with a flag for a negative square-root argument. */
  datatype TocBox1Result = TocBox1Result(value: real, failed: bool)

  /** The PICO physics: formulas the model treats as given functions, and its constants. */
  datatype PicoPhysics = PicoPhysics(
    pressure: real -> real,                                // ice thickness -> pressure
    thetaPm: (real, real) -> real,                         // (salinity, pressure) -> pressure-melting potential temperature
    tPm: (real, real) -> real,                             // (salinity, pressure) -> pressure-melting in-situ temperature
    tStar: (real, real, real) -> real,                     // (salinity, temperature, pressure)
    tocBox1: (real, real, real, real) -> TocBox1Result,    // (area, T_star, Soc_box0, Toc_box0)
    socBox1: (real, real, real) -> real,                   // (Toc_box0, Soc_box0, Toc)
    overturning: (real, real, real, real) -> real,         // (Soc_box0, Soc, Toc_box0, Toc)
    toc: (real, real, real, real, real) -> real,           // (area, T_previous, T_star, overturning, S_previous)
    soc: (real, real, real) -> real,                       // (S_previous, T_previous, Toc)
    meltRate: (real, real) -> real,                        // (theta_pm, Toc)
    meltRateBeckmannGoosse: (real, real) -> real,          // (theta_pm, Toc)
    tDummy: real,
    sDummy: real,
    iceDensity: real)

  /** Physical constants of the configuration used for floating ice away from the ocean. */
  datatype Constants = Constants(
    meltingPointTemperature: real,   // T0
    betaClausiusClapeyron: real,
    standardGravity: real,
    iceDensity: real)

  // ---------------------------------------------------------------------------
  // Specification of the reductions over the grid.
  // ---------------------------------------------------------------------------

  /** Cells of the continental shelf (INNER) in basin b. */
  function InnerBasinSel(cont: Grid<int>, basins: Grid<real>, b: int): (int, int) -> bool {
    (i, j) => InGrid(cont, i, j) && InGrid(basins, i, j) && cont[i][j] == INNER && AsInt(basins[i][j]) == b
  }

  /** Cells of ice shelf s. */
  function ShelfSel(shelf: Grid<int>, s: int): (int, int) -> bool {
    (i, j) => InGrid(shelf, i, j) && shelf[i][j] == s
  }

  /** Cells of ice shelf s lying in basin b. */
  function ShelfBasinSel(shelf: Grid<int>, basins: Grid<real>, s: int, b: int): (int, int) -> bool {
    (i, j) => InGrid(shelf, i, j) && InGrid(basins, i, j) && shelf[i][j] == s && AsInt(basins[i][j]) == b
  }

  /** Cells of box k of ice shelf s. */
  function BoxSel(shelf: Grid<int>, box: Grid<int>, k: int, s: int): (int, int) -> bool {
    (i, j) => InGrid(shelf, i, j) && InGrid(box, i, j) && box[i][j] == k && shelf[i][j] == s
  }

  /**
   * Ocean input of basin b: the mean of the ocean field over the basin's continental
   * shelf cells; the dummy value for a basin other than 0 without such cells.
   */
  function BasinInput(field: Grid<real>, cont: Grid<int>, basins: Grid<real>, mx: nat, my: nat,
                      b: int, dummy: real): real {
    var sel := InnerBasinSel(cont, basins, b);
    if b > 0 && CountWhere(sel, my, mx, 0) == 0 then dummy else MeanWhere(sel, Values(field), mx, my)
  }

  /** Mean of a field over box k of shelf s (0 for an empty box). */
  function BoxMean(field: Grid<real>, shelf: Grid<int>, box: Grid<int>, mx: nat, my: nat, k: int, s: int): real {
    MeanWhere(BoxSel(shelf, box, k, s), Values(field), mx, my)
  }

  /** The ocean inputs of basins 0 .. n-1. */
  function BasinInputs(field: Grid<real>, cont: Grid<int>, basins: Grid<real>, mx: nat, my: nat,
                       n: nat, dummy: real): (r: seq<real>)
    ensures |r| == n
  {
    seq(n, b => BasinInput(field, cont, basins, mx, my, b, dummy))
  }

  /** The means of a field over box k of shelves 0 .. n-1. */
  function BoxMeans(field: Grid<real>, shelf: Grid<int>, box: Grid<int>, mx: nat, my: nat, k: int, n: nat): (r: seq<real>)
    ensures |r| == n
  {
    seq(n, s => BoxMean(field, shelf, box, mx, my, k, s))
  }

  /** Area of box k of shelf s; shelf 0 (no shelf) has no boxes. */
  function BoxArea(area: Grid<real>, shelf: Grid<int>, box: Grid<int>, mx: nat, my: nat, k: int, s: int): real {
    if s > 0 then SumWhere(BoxSel(shelf, box, k, s), Values(area), my, mx, 0) else 0.0
  }

  /**
   * sum of values[b] * weights[b] / total over b in [1, n): the box-0 input of a shelf
   * weighted by the number of its cells in each basin (basin 0 is left out).
   */
  function Weighted(values: seq<real>, weights: seq<nat>, total: nat, n: nat): real
    requires n <= |values| && n <= |weights| && total > 0
  {
    if n <= 1 then 0.0
    else Weighted(values, weights, total, n - 1) + values[n - 1] * (weights[n - 1] as real) / (total as real)
  }

  /** Number of cells of shelf s in each basin 0 .. nb-1. */
  function ShelfBasinCounts(shelf: Grid<int>, basins: Grid<real>, mx: nat, my: nat, s: int, nb: nat): (r: seq<nat>)
    ensures |r| == nb
  {
    seq(nb, b => CountWhere(ShelfBasinSel(shelf, basins, s, b), my, mx, 0))
  }

  /** Box-0 input of shelf s (0 for a shelf without cells). */
  function ShelfInput(values: seq<real>, shelf: Grid<int>, basins: Grid<real>, mx: nat, my: nat, s: int): real {
    var total := CountWhere(ShelfSel(shelf, s), my, mx, 0);
    if total == 0 then 0.0
    else Weighted(values, ShelfBasinCounts(shelf, basins, mx, my, s, |values|), total, |values|)
  }

  /** Box-0 temperature after the clamp: never below the pressure melting point. */
  function ClampToMelting(t: real, thetaPm: real): (r: real)
    ensures r >= thetaPm
    ensures t >= thetaPm ==> r == t
  {
    if t < thetaPm then thetaPm + MELTING_POINT_MARGIN else t
  }

  /** Floating cells of a shelf, the cells that receive box-0 input. */
  function ShelfInputSel(cellType: Grid<int>, shelf: Grid<int>): (int, int) -> bool {
    (i, j) => InGrid(cellType, i, j) && InGrid(shelf, i, j) && cellType[i][j] == MASK_FLOATING && shelf[i][j] > 0
  }

  /** Floating shelf cells whose weighted input temperature is below the pressure melting point. */
  function TooColdSel(physics: PicoPhysics, cellType: Grid<int>, shelf: Grid<int>, thickness: Grid<real>,
                      tIn: seq<real>, sIn: seq<real>): (int, int) -> bool {
    (i, j) => ShelfInputSel(cellType, shelf)(i, j) && InGrid(thickness, i, j) &&
              0 <= shelf[i][j] < |tIn| && shelf[i][j] < |sIn| &&
              tIn[shelf[i][j]] < physics.thetaPm(sIn[shelf[i][j]], physics.pressure(thickness[i][j]))
  }

  /**
   * Box-0 input (temperature, salinity) of a cell: for floating ice of a shelf s > 0,
   * the shelf's weighted basin input, with the temperature raised to just above the
   * pressure melting point when it is below; (0, 0) elsewhere.
   */
  function Box0Input(physics: PicoPhysics, cellType: int, s: int, thickness: real,
                     tIn: seq<real>, sIn: seq<real>): (real, real) {
    if cellType == MASK_FLOATING && 0 < s < |tIn| && s < |sIn| then
      var soc0 := sIn[s];
      (ClampToMelting(tIn[s], physics.thetaPm(soc0, physics.pressure(thickness))), soc0)
    else (0.0, 0.0)
  }

  /** The box-0 inputs of all shelves 0 .. n-1 from the per-basin values. */
  function ShelfInputs(values: seq<real>, shelf: Grid<int>, basins: Grid<real>, mx: nat, my: nat, n: nat): (r: seq<real>)
    ensures |r| == n
  {
    seq(n, s => ShelfInput(values, shelf, basins, mx, my, s))
  }

  /** A shelf that has a cell has a non-zero cell count. */
  lemma ShelfCellsAreCounted(shelf: Grid<int>, counts: seq<nat>, mx: nat, my: nat)
    requires IsGrid(shelf, mx, my)
    requires forall s :: 0 <= s < |counts| ==> counts[s] == CountWhere(ShelfSel(shelf, s), my, mx, 0)
    ensures forall p, q :: 0 <= p < mx && 0 <= q < my && 0 <= shelf[p][q] < |counts| ==> counts[shelf[p][q]] > 0
  {
    forall p, q | 0 <= p < mx && 0 <= q < my && 0 <= shelf[p][q] < |counts|
      ensures counts[shelf[p][q]] > 0
    {
      SelectedCellIsCounted(ShelfSel(shelf, shelf[p][q]), my, mx, 0, p, q);
    }
  }

  /** The box-0 input of a shelf with cells is its basin-weighted mean, from the cell counts. */
  lemma ShelfInputsAreWeighted(values: seq<real>, shelf: Grid<int>, basins: Grid<real>, mx: nat, my: nat, n: nat,
                               perBasin: seq<seq<nat>>, counts: seq<nat>)
    requires |perBasin| == n && |counts| == n
    requires forall s :: 0 <= s < n ==>
               perBasin[s] == ShelfBasinCounts(shelf, basins, mx, my, s, |values|) &&
               counts[s] == CountWhere(ShelfSel(shelf, s), my, mx, 0)
    ensures forall s :: 0 <= s < n && counts[s] > 0 ==>
              |perBasin[s]| == |values| &&
              ShelfInputs(values, shelf, basins, mx, my, n)[s] == Weighted(values, perBasin[s], counts[s], |values|)
  {
  }

  /** The values PICO computes for one cell, one per output field. */
  datatype CellState = CellState(tStar: real, toc: real, soc: real, overturning: real, meltRate: real, tPm: real)

  /** The inputs PICO reads at one cell: cell type, shelf id, box id, ice thickness and box-0 input. */
  datatype CellInput = CellInput(cellType: int, shelf: int, box: int, thickness: real, toc0: real, soc0: real)

  /**
   * Beckmann-Goosse defaults for floating ice: under a shelf, melt and pressure melting
   * temperature from the box-0 input, which also becomes the ocean temperature and
   * salinity; floating ice not connected to the ocean does not melt and sits at the
   * melting point lowered by its overburden pressure.  Other cells keep their values.
   */
  function BeckmannGoosseCell(physics: PicoPhysics, constants: Constants, x: CellInput, c: CellState): CellState {
    if x.cellType != MASK_FLOATING then c
    else if x.shelf > 0 then
      var p := physics.pressure(x.thickness);
      c.(meltRate := physics.meltRateBeckmannGoosse(physics.thetaPm(x.soc0, p), x.toc0),
         tPm := physics.tPm(x.soc0, p), toc := x.toc0, soc := x.soc0)
    else
      var p := constants.iceDensity * constants.standardGravity * x.thickness;
      c.(tPm := constants.meltingPointTemperature - constants.betaClausiusClapeyron * p, meltRate := 0.0)
  }

  /** Box 1: every output solved from the box-0 input of the cell and the area of box 1 of its shelf. */
  function Box1Cell(physics: PicoPhysics, area: real, x: CellInput): CellState {
    var p := physics.pressure(x.thickness);
    var tStar := physics.tStar(x.soc0, x.toc0, p);
    var toc := physics.tocBox1(area, tStar, x.soc0, x.toc0).value;
    var soc := physics.socBox1(x.toc0, x.soc0, toc);
    CellState(tStar, toc, soc, physics.overturning(x.soc0, soc, x.toc0, toc),
              physics.meltRate(physics.thetaPm(soc, p), toc), physics.tPm(soc, p))
  }

  /** A shelf falls back to Beckmann-Goosse in a box when any input from the boxes before it is 0. */
  predicate UseBeckmannGoosse(salinity: real, temperature: real, overturning: real) {
    salinity == 0.0 || temperature == 0.0 || overturning == 0.0
  }

  /**
   * Box k >= 2: solved from the means of box k-1 of the shelf and the box-1 overturning,
   * unless the shelf falls back to Beckmann-Goosse; the overturning field is kept.
   */
  function OtherBoxCell(physics: PicoPhysics, area: real, x: CellInput,
                        tPrev: real, sPrev: real, overturning: real, c: CellState): CellState {
    if UseBeckmannGoosse(sPrev, tPrev, overturning) then c
    else
      var p := physics.pressure(x.thickness);
      var tStar := physics.tStar(sPrev, tPrev, p);
      var toc := physics.toc(area, tPrev, tStar, overturning, sPrev);
      var soc := physics.soc(sPrev, tPrev, toc);
      c.(tStar := tStar, toc := toc, soc := soc,
         meltRate := physics.meltRate(physics.thetaPm(soc, p), toc), tPm := physics.tPm(soc, p))
  }

  /** One pass of PICO over the grid, with the per-shelf values it was prepared with. */
  datatype Stage =
    | BeckmannGoosseStage(physics: PicoPhysics, constants: Constants)
    | Box1Stage(physics: PicoPhysics, area: seq<real>)
    | OtherBoxStage(physics: PicoPhysics, box: int, area: seq<real>,
                    temperature: seq<real>, salinity: seq<real>, overturning: seq<real>)

  /** What a pass does to one cell; the box passes touch only shelf cells of their box. */
  function Apply(stage: Stage, x: CellInput, c: CellState): CellState {
    match stage
    case BeckmannGoosseStage(physics, constants) => BeckmannGoosseCell(physics, constants, x, c)
    case Box1Stage(physics, area) =>
      if x.box == 1 && 0 < x.shelf < |area| then Box1Cell(physics, area[x.shelf], x) else c
    case OtherBoxStage(physics, k, area, temperature, salinity, overturning) =>
      var s := x.shelf;
      if x.box == k && 0 < s && s < |area| && s < |temperature| && s < |salinity| && s < |overturning|
      then OtherBoxCell(physics, area[s], x, temperature[s], salinity[s], overturning[s], c)
      else c
  }

  /**
   * The fields PICO reads from the ice model and from its geometry component: ice
   * thickness, cell type, ice shelf ids, box ids, continental shelf mask and cell areas.
   */
  datatype Inputs = Inputs(iceThickness: array2<real>, cellType: array2<int>, shelfMask: array2<int>,
                           boxMask: array2<int>, contShelfMask: array2<int>, cellArea: array2<real>)

  /** Changing a field only in box k leaves the means of the field over every other box. */
  lemma BoxMeansElsewhere(f1: Grid<real>, f2: Grid<real>, shelf: Grid<int>, box: Grid<int>, mx: nat, my: nat, k: int)
    requires IsGrid(f1, mx, my) && IsGrid(f2, mx, my) && IsGrid(box, mx, my)
    requires forall p, q :: 0 <= p < mx && 0 <= q < my && box[p][q] != k ==> f1[p][q] == f2[p][q]
    ensures forall kk, s :: kk != k ==> BoxMean(f1, shelf, box, mx, my, kk, s) == BoxMean(f2, shelf, box, mx, my, kk, s)
  {
    forall kk, s | kk != k
      ensures BoxMean(f1, shelf, box, mx, my, kk, s) == BoxMean(f2, shelf, box, mx, my, kk, s)
    {
      MeanWhereFrame(BoxSel(shelf, box, kk, s), Values(f1), Values(f2), mx, my);
    }
  }

  /**
   * The state of the PICO ocean model: the basin mask it owns, the box-0 input fields,
   * and the fields it computes.  Grid fields are Mx-by-My arrays indexed (i, j).
   */
  class Pico {
    const Mx: nat
    const My: nat
    var nBasins: nat
    var nBoxes: nat
    /** One more than the largest ice shelf id. */
    var nShelves: nat

    const basinMask: array2<real>
    const tocBox0: array2<real>
    const socBox0: array2<real>
    const tStar: array2<real>
    const toc: array2<real>
    const soc: array2<real>
    const overturning: array2<real>
    const basalMeltRate: array2<real>
    const shelfBaseTemperature: array2<real>
    const shelfBaseMassFlux: array2<real>
    /** Uniform outputs of the ocean model, held as their single value. */
    var seaLevelElevation: real
    var melangeBackPressureFraction: real

    ghost function Fields(): seq<array2<real>> {
      [basinMask, tocBox0, socBox0, tStar, toc, soc, overturning, basalMeltRate,
       shelfBaseTemperature, shelfBaseMassFlux]
    }

    /** Every field covers the grid, and no two fields share storage. */
    ghost predicate Valid() {
      OnGrid(basinMask) && OnGrid(tocBox0) && OnGrid(socBox0) && OnGrid(tStar) && OnGrid(toc) &&
      OnGrid(soc) && OnGrid(overturning) && OnGrid(basalMeltRate) && OnGrid(shelfBaseTemperature) &&
      OnGrid(shelfBaseMassFlux) &&
      Distinct()
    }

    /** No two fields share storage. */
    ghost predicate Distinct() {
      basinMask != tocBox0 && basinMask != socBox0 && basinMask != tStar && basinMask != toc && basinMask != soc && basinMask != overturning && basinMask != basalMeltRate && basinMask != shelfBaseTemperature && basinMask != shelfBaseMassFlux &&
      tocBox0 != socBox0 && tocBox0 != tStar && tocBox0 != toc && tocBox0 != soc && tocBox0 != overturning && tocBox0 != basalMeltRate && tocBox0 != shelfBaseTemperature && tocBox0 != shelfBaseMassFlux &&
      socBox0 != tStar && socBox0 != toc && socBox0 != soc && socBox0 != overturning && socBox0 != basalMeltRate && socBox0 != shelfBaseTemperature && socBox0 != shelfBaseMassFlux &&
      tStar != toc && tStar != soc && tStar != overturning && tStar != basalMeltRate && tStar != shelfBaseTemperature && tStar != shelfBaseMassFlux &&
      toc != soc && toc != overturning && toc != basalMeltRate && toc != shelfBaseTemperature && toc != shelfBaseMassFlux &&
      soc != overturning && soc != basalMeltRate && soc != shelfBaseTemperature && soc != shelfBaseMassFlux &&
      overturning != basalMeltRate && overturning != shelfBaseTemperature && overturning != shelfBaseMassFlux &&
      basalMeltRate != shelfBaseTemperature && basalMeltRate != shelfBaseMassFlux &&
      shelfBaseTemperature != shelfBaseMassFlux
    }


    /** The array has the dimensions of the grid. */
    predicate OnGrid<T>(a: array2<T>) {
      a.Length0 == Mx && a.Length1 == My
    }

    constructor(mx: nat, my: nat)
      ensures Valid() && Mx == mx && My == my
      ensures nBasins == DEFAULT_N_BASINS
      ensures fresh(Fields())
    {
      Mx, My := mx, my;
      nBasins, nBoxes, nShelves := DEFAULT_N_BASINS, 0, 0;
      basinMask := new real[mx, my];
      tocBox0 := new real[mx, my];
      socBox0 := new real[mx, my];
      tStar := new real[mx, my];
      toc := new real[mx, my];
      soc := new real[mx, my];
      overturning := new real[mx, my];
      basalMeltRate := new real[mx, my];
      shelfBaseTemperature := new real[mx, my];
      shelfBaseMassFlux := new real[mx, my];
      seaLevelElevation, melangeBackPressureFraction := 0.0, 0.0;
    }

    /** Number of continental shelf cells and sums of the two ocean fields in every basin. */
    method BasinSums(contShelfMask: array2<int>, salinityOcean: array2<real>, thetaOcean: array2<real>)
      returns (count: seq<nat>, temperature: seq<real>, salinity: seq<real>)
      requires OnGrid(basinMask) && OnGrid(contShelfMask) && OnGrid(salinityOcean) && OnGrid(thetaOcean)
      requires forall i, j :: 0 <= i < Mx && 0 <= j < My && contShelfMask[i, j] == INNER ==>
                 0 <= AsInt(basinMask[i, j]) < nBasins
      ensures |count| == nBasins && |temperature| == nBasins && |salinity| == nBasins
      ensures forall b :: 0 <= b < nBasins ==>
                var sel := InnerBasinSel(Snapshot(contShelfMask), Snapshot(basinMask), b);
                count[b] == CountWhere(sel, My, Mx, 0) &&
                temperature[b] == SumWhere(sel, Values(Snapshot(thetaOcean)), My, Mx, 0) &&
                salinity[b] == SumWhere(sel, Values(Snapshot(salinityOcean)), My, Mx, 0)
    {
      ghost var cont, basins := Snapshot(contShelfMask), Snapshot(basinMask);
      ghost var theta, sal := Values(Snapshot(thetaOcean)), Values(Snapshot(salinityOcean));
      count := seq(nBasins, _ => 0);
      temperature := seq(nBasins, _ => 0.0);
      salinity := seq(nBasins, _ => 0.0);
      var i := 0;
      while i < Mx
        invariant 0 <= i <= Mx
        invariant |count| == nBasins && |temperature| == nBasins && |salinity| == nBasins
        invariant forall b :: 0 <= b < nBasins ==>
                    count[b] == CountWhere(InnerBasinSel(cont, basins, b), My, i, 0) &&
                    temperature[b] == SumWhere(InnerBasinSel(cont, basins, b), theta, My, i, 0) &&
                    salinity[b] == SumWhere(InnerBasinSel(cont, basins, b), sal, My, i, 0)
      {
        var j := 0;
        while j < My
          invariant 0 <= j <= My
          invariant |count| == nBasins && |temperature| == nBasins && |salinity| == nBasins
          invariant forall b :: 0 <= b < nBasins ==>
                      count[b] == CountWhere(InnerBasinSel(cont, basins, b), My, i, j) &&
                      temperature[b] == SumWhere(InnerBasinSel(cont, basins, b), theta, My, i, j) &&
                      salinity[b] == SumWhere(InnerBasinSel(cont, basins, b), sal, My, i, j)
        {
          if contShelfMask[i, j] == INNER {
            var b := AsInt(basinMask[i, j]);
            count := count[b := count[b] + 1];
            salinity := salinity[b := salinity[b] + salinityOcean[i, j]];
            temperature := temperature[b := temperature[b] + thetaOcean[i, j]];
          }
          j := j + 1;
        }
        i := i + 1;
      }
    }

    /**
     * compute_ocean_input_per_basin: per basin, the mean ocean temperature and salinity
     * over the basin's continental shelf cells, or the dummy values when a basin other
     * than 0 has none.
     */
    method ComputeOceanInputPerBasin(physics: PicoPhysics, contShelfMask: array2<int>,
                                     salinityOcean: array2<real>, thetaOcean: array2<real>)
      returns (temperature: seq<real>, salinity: seq<real>)
      requires OnGrid(basinMask) && OnGrid(contShelfMask) && OnGrid(salinityOcean) && OnGrid(thetaOcean)
      requires forall i, j :: 0 <= i < Mx && 0 <= j < My && contShelfMask[i, j] == INNER ==>
                 0 <= AsInt(basinMask[i, j]) < nBasins
      ensures |temperature| == nBasins && |salinity| == nBasins
      ensures forall b :: 0 <= b < nBasins ==>
                temperature[b] == BasinInput(Snapshot(thetaOcean), Snapshot(contShelfMask), Snapshot(basinMask),
                                             Mx, My, b, physics.tDummy) &&
                salinity[b] == BasinInput(Snapshot(salinityOcean), Snapshot(contShelfMask), Snapshot(basinMask),
                                          Mx, My, b, physics.sDummy)
    {
      ghost var cont, basins := Snapshot(contShelfMask), Snapshot(basinMask);
      ghost var theta, sal := Values(Snapshot(thetaOcean)), Values(Snapshot(salinityOcean));
      var count;
      count, temperature, salinity := BasinSums(contShelfMask, salinityOcean, thetaOcean);
      var b := 0;
      while b < nBasins
        invariant 0 <= b <= nBasins
        invariant |temperature| == nBasins && |salinity| == nBasins
        invariant forall c :: 0 <= c < b ==>
                    temperature[c] == BasinInput(Snapshot(thetaOcean), cont, basins, Mx, My, c, physics.tDummy) &&
                    salinity[c] == BasinInput(Snapshot(salinityOcean), cont, basins, Mx, My, c, physics.sDummy)
        invariant forall c :: b <= c < nBasins ==>
                    temperature[c] == SumWhere(InnerBasinSel(cont, basins, c), theta, My, Mx, 0) &&
                    salinity[c] == SumWhere(InnerBasinSel(cont, basins, c), sal, My, Mx, 0)
      {
        if b > 0 && count[b] == 0 {
          temperature := temperature[b := physics.tDummy];
          salinity := salinity[b := physics.sDummy];
        } else if count[b] > 0 {
          salinity := salinity[b := salinity[b] / count[b] as real];
          temperature := temperature[b := temperature[b] / count[b] as real];
        } else {
          // Basin 0 without shelf cells: both sums are empty.
          EmptySelectionSumsToZero(InnerBasinSel(cont, basins, b), theta, My, Mx, 0);
          EmptySelectionSumsToZero(InnerBasinSel(cont, basins, b), sal, My, Mx, 0);
        }
        b := b + 1;
      }
    }

    /**
     * Number of cells of every shelf, and of every shelf within every basin, over all
     * cells of the grid.
     */
    method ShelfCellCounts(shelfMask: array2<int>)
      returns (nShelfCellsPerBasin: seq<seq<nat>>, nShelfCells: seq<nat>)
      requires OnGrid(basinMask) && OnGrid(shelfMask)
      requires forall i, j :: 0 <= i < Mx && 0 <= j < My ==>
                 0 <= shelfMask[i, j] < nShelves && 0 <= AsInt(basinMask[i, j]) < nBasins
      ensures |nShelfCellsPerBasin| == nShelves && |nShelfCells| == nShelves
      ensures forall s :: 0 <= s < nShelves ==>
                nShelfCellsPerBasin[s] == ShelfBasinCounts(Snapshot(shelfMask), Snapshot(basinMask), Mx, My, s, nBasins) &&
                nShelfCells[s] == CountWhere(ShelfSel(Snapshot(shelfMask), s), My, Mx, 0)
    {
      ghost var shelf, basins := Snapshot(shelfMask), Snapshot(basinMask);
      var nb := nBasins;
      nShelfCellsPerBasin := seq(nShelves, _ => seq(nb, _ => 0));
      nShelfCells := seq(nShelves, _ => 0);
      var i := 0;
      while i < Mx
        invariant 0 <= i <= Mx
        invariant |nShelfCellsPerBasin| == nShelves && |nShelfCells| == nShelves
        invariant forall s :: 0 <= s < nShelves ==> |nShelfCellsPerBasin[s]| == nBasins
        invariant forall s, b :: 0 <= s < nShelves && 0 <= b < nBasins ==>
                    nShelfCellsPerBasin[s][b] == CountWhere(ShelfBasinSel(shelf, basins, s, b), My, i, 0)
        invariant forall s :: 0 <= s < nShelves ==> nShelfCells[s] == CountWhere(ShelfSel(shelf, s), My, i, 0)
      {
        var j := 0;
        while j < My
          invariant 0 <= j <= My
          invariant |nShelfCellsPerBasin| == nShelves && |nShelfCells| == nShelves
          invariant forall s :: 0 <= s < nShelves ==> |nShelfCellsPerBasin[s]| == nBasins
          invariant forall s, b :: 0 <= s < nShelves && 0 <= b < nBasins ==>
                      nShelfCellsPerBasin[s][b] == CountWhere(ShelfBasinSel(shelf, basins, s, b), My, i, j)
          invariant forall s :: 0 <= s < nShelves ==> nShelfCells[s] == CountWhere(ShelfSel(shelf, s), My, i, j)
        {
          var s := shelfMask[i, j];
          var b := AsInt(basinMask[i, j]);
          nShelfCellsPerBasin := nShelfCellsPerBasin[s := nShelfCellsPerBasin[s][b := nShelfCellsPerBasin[s][b] + 1]];
          nShelfCells := nShelfCells[s := nShelfCells[s] + 1];
          j := j + 1;
        }
        i := i + 1;
      }
      forall s | 0 <= s < nShelves
        ensures nShelfCellsPerBasin[s] == ShelfBasinCounts(shelf, basins, Mx, My, s, nBasins)
      {
      }
    }

    /**
     * The box-0 input of a shelf: the basin values weighted by the shelf's number of
     * cells in each basin 1 .. nBasins-1, divided by its total number of cells.
     */
    method WeightedInputs(basinTemperature: seq<real>, basinSalinity: seq<real>, weights: seq<nat>, total: nat)
      returns (temperature: real, salinity: real)
      requires |basinTemperature| == |basinSalinity| == |weights| && total > 0
      ensures temperature == Weighted(basinTemperature, weights, total, |weights|)
      ensures salinity == Weighted(basinSalinity, weights, total, |weights|)
    {
      temperature, salinity := 0.0, 0.0;
      if |weights| <= 1 {
        return;
      }
      var b := 1;
      while b < |weights|
        invariant 1 <= b <= |weights|
        invariant temperature == Weighted(basinTemperature, weights, total, b)
        invariant salinity == Weighted(basinSalinity, weights, total, b)
      {
        temperature := temperature + basinTemperature[b] * (weights[b] as real) / (total as real);
        salinity := salinity + basinSalinity[b] * (weights[b] as real) / (total as real);
        b := b + 1;
      }
    }

    /**
     * The body of the point loop of set_ocean_input_fields for cell (i, j) with cell
     * type ct, shelf id s and ice thickness h: its box-0 input, and whether the input
     * temperature was raised to the pressure melting point.
     */
    method Box0Cell(physics: PicoPhysics, ct: int, s: int, h: real,
                    basinTemperature: seq<real>, basinSalinity: seq<real>,
                    nShelfCellsPerBasin: seq<seq<nat>>, nShelfCells: seq<nat>,
                    ghost tIn: seq<real>, ghost sIn: seq<real>)
      returns (toc0: real, soc0: real, raised: bool)
      requires |basinTemperature| == nBasins && |basinSalinity| == nBasins
      requires |nShelfCellsPerBasin| == nShelves && |nShelfCells| == nShelves && 0 <= s < nShelves
      requires |tIn| == nShelves && |sIn| == nShelves
      requires ct == MASK_FLOATING && s > 0 ==>
                 nShelfCells[s] > 0 && |nShelfCellsPerBasin[s]| == nBasins &&
                 tIn[s] == Weighted(basinTemperature, nShelfCellsPerBasin[s], nShelfCells[s], nBasins) &&
                 sIn[s] == Weighted(basinSalinity, nShelfCellsPerBasin[s], nShelfCells[s], nBasins)
      ensures (toc0, soc0) == Box0Input(physics, ct, s, h, tIn, sIn)
      ensures raised <==> ct == MASK_FLOATING && s > 0 && tIn[s] < physics.thetaPm(sIn[s], physics.pressure(h))
    {
      toc0, soc0, raised := 0.0, 0.0, false;
      if ct == MASK_FLOATING && s > 0 {
        toc0, soc0 := WeightedInputs(basinTemperature, basinSalinity, nShelfCellsPerBasin[s], nShelfCells[s]);
        var thetaPm := physics.thetaPm(soc0, physics.pressure(h));
        if toc0 < thetaPm {
          toc0 := thetaPm + MELTING_POINT_MARGIN;
          raised := true;
        }
      }
    }

    /** One row i of the point loop of set_ocean_input_fields. */
    method SetOceanInputRow(physics: PicoPhysics, iceThickness: array2<real>, cellType: array2<int>,
                            shelfMask: array2<int>, basinTemperature: seq<real>, basinSalinity: seq<real>,
                            nShelfCellsPerBasin: seq<seq<nat>>, nShelfCells: seq<nat>, i: nat, counter: nat,
                            ghost tIn: seq<real>, ghost sIn: seq<real>, ghost tooCold: (int, int) -> bool)
      returns (counter': nat)
      requires OnGrid(tocBox0) && OnGrid(socBox0) && tocBox0 != socBox0
      requires OnGrid(iceThickness) && OnGrid(cellType) && OnGrid(shelfMask) && i < Mx
      requires iceThickness != tocBox0 && iceThickness != socBox0
      requires |basinTemperature| == nBasins && |basinSalinity| == nBasins
      requires |nShelfCellsPerBasin| == nShelves && |nShelfCells| == nShelves
      requires |tIn| == nShelves && |sIn| == nShelves
      requires forall q :: 0 <= q < My ==> 0 <= shelfMask[i, q] < nShelves
      requires forall q :: 0 <= q < My && cellType[i, q] == MASK_FLOATING && shelfMask[i, q] > 0 ==>
                 nShelfCells[shelfMask[i, q]] > 0
      requires forall s :: 0 < s < nShelves && nShelfCells[s] > 0 ==>
                 |nShelfCellsPerBasin[s]| == nBasins &&
                 tIn[s] == Weighted(basinTemperature, nShelfCellsPerBasin[s], nShelfCells[s], nBasins) &&
                 sIn[s] == Weighted(basinSalinity, nShelfCellsPerBasin[s], nShelfCells[s], nBasins)
      requires forall q :: 0 <= q < My ==>
                 (tooCold(i, q) <==> cellType[i, q] == MASK_FLOATING && shelfMask[i, q] > 0 &&
                                     tIn[shelfMask[i, q]] < physics.thetaPm(sIn[shelfMask[i, q]], physics.pressure(iceThickness[i, q])))
      requires counter == CountWhere(tooCold, My, i, 0)
      modifies tocBox0, socBox0
      ensures forall q :: 0 <= q < My ==>
                (tocBox0[i, q], socBox0[i, q]) == Box0Input(physics, cellType[i, q], shelfMask[i, q], iceThickness[i, q], tIn, sIn)
      ensures forall p, q :: 0 <= p < Mx && p != i && 0 <= q < My ==>
                tocBox0[p, q] == old(tocBox0[p, q]) && socBox0[p, q] == old(socBox0[p, q])
      ensures counter' == CountWhere(tooCold, My, i + 1, 0)
    {
      counter' := counter;
      var j := 0;
      while j < My
        invariant 0 <= j <= My
        invariant forall q :: 0 <= q < j ==>
                    (tocBox0[i, q], socBox0[i, q]) == Box0Input(physics, cellType[i, q], shelfMask[i, q], iceThickness[i, q], tIn, sIn)
        invariant forall p, q :: 0 <= p < Mx && 0 <= q < My && (p != i || q >= j) ==>
                    tocBox0[p, q] == old(tocBox0[p, q]) && socBox0[p, q] == old(socBox0[p, q])
        invariant counter' == CountWhere(tooCold, My, i, j)
      {
        var toc0, soc0, raised := Box0Cell(physics, cellType[i, j], shelfMask[i, j], iceThickness[i, j],
                                           basinTemperature, basinSalinity, nShelfCellsPerBasin, nShelfCells,
                                           tIn, sIn);
        tocBox0[i, j] := toc0;
        socBox0[i, j] := soc0;
        if raised {
          counter' := counter' + 1;
        }
        j := j + 1;
      }
    }

    /**
     * set_ocean_input_fields: the box-0 temperature and salinity of every cell (see
     * Box0Input), and the number of cells whose input temperature had to be raised to
     * the pressure melting point.
     */
    method SetOceanInputFields(physics: PicoPhysics, iceThickness: array2<real>, cellType: array2<int>,
                               shelfMask: array2<int>, basinTemperature: seq<real>, basinSalinity: seq<real>)
      returns (lowTemperatureCounter: nat)
      requires Valid() && OnGrid(iceThickness) && OnGrid(cellType) && OnGrid(shelfMask)
      requires iceThickness != tocBox0 && iceThickness != socBox0
      requires |basinTemperature| == nBasins && |basinSalinity| == nBasins
      requires forall i, j :: 0 <= i < Mx && 0 <= j < My ==>
                 0 <= shelfMask[i, j] < nShelves && 0 <= AsInt(basinMask[i, j]) < nBasins
      modifies tocBox0, socBox0
      ensures var shelf, basins := Snapshot(shelfMask), Snapshot(basinMask);
              var tIn := ShelfInputs(basinTemperature, shelf, basins, Mx, My, nShelves);
              var sIn := ShelfInputs(basinSalinity, shelf, basins, Mx, My, nShelves);
              (forall i, j :: 0 <= i < Mx && 0 <= j < My ==>
                 (tocBox0[i, j], socBox0[i, j]) == Box0Input(physics, cellType[i, j], shelfMask[i, j], iceThickness[i, j], tIn, sIn)) &&
              lowTemperatureCounter == CountWhere(TooColdSel(physics, Snapshot(cellType), shelf, Snapshot(iceThickness), tIn, sIn), My, Mx, 0)
    {
      ghost var shelf, basins := Snapshot(shelfMask), Snapshot(basinMask);
      ghost var tIn := ShelfInputs(basinTemperature, shelf, basins, Mx, My, nShelves);
      ghost var sIn := ShelfInputs(basinSalinity, shelf, basins, Mx, My, nShelves);
      ghost var tooCold := TooColdSel(physics, Snapshot(cellType), shelf, Snapshot(iceThickness), tIn, sIn);
      var nShelfCellsPerBasin, nShelfCells := ShelfCellCounts(shelfMask);
      ShelfCellsAreCounted(shelf, nShelfCells, Mx, My);
      ShelfInputsAreWeighted(basinTemperature, shelf, basins, Mx, My, nShelves, nShelfCellsPerBasin, nShelfCells);
      ShelfInputsAreWeighted(basinSalinity, shelf, basins, Mx, My, nShelves, nShelfCellsPerBasin, nShelfCells);
      lowTemperatureCounter := 0;
      var i := 0;
      while i < Mx
        invariant 0 <= i <= Mx
        invariant forall p, q :: 0 <= p < i && 0 <= q < My ==>
                    (tocBox0[p, q], socBox0[p, q]) == Box0Input(physics, cellType[p, q], shelfMask[p, q], iceThickness[p, q], tIn, sIn)
        invariant lowTemperatureCounter == CountWhere(tooCold, My, i, 0)
      {
        lowTemperatureCounter := SetOceanInputRow(physics, iceThickness, cellType, shelfMask, basinTemperature, basinSalinity,
                                                  nShelfCellsPerBasin, nShelfCells, i, lowTemperatureCounter,
                                                  tIn, sIn, tooCold);
        i := i + 1;
      }
    }

    /** Number of cells and sum of a field over box boxId of every shelf. */
    method BoxSums(boxId: int, field: array2<real>, shelfMask: array2<int>, boxMask: array2<int>)
      returns (nCells: seq<nat>, sums: seq<real>)
      requires OnGrid(field) && OnGrid(shelfMask) && OnGrid(boxMask)
      requires forall i, j :: 0 <= i < Mx && 0 <= j < My && boxMask[i, j] == boxId ==>
                 0 <= shelfMask[i, j] < nShelves
      ensures |nCells| == nShelves && |sums| == nShelves
      ensures forall s :: 0 <= s < nShelves ==>
                nCells[s] == CountWhere(BoxSel(Snapshot(shelfMask), Snapshot(boxMask), boxId, s), My, Mx, 0) &&
                sums[s] == SumWhere(BoxSel(Snapshot(shelfMask), Snapshot(boxMask), boxId, s), Values(Snapshot(field)), My, Mx, 0)
    {
      ghost var shelf, box, f := Snapshot(shelfMask), Snapshot(boxMask), Values(Snapshot(field));
      nCells := seq(nShelves, _ => 0);
      sums := seq(nShelves, _ => 0.0);
      var i := 0;
      while i < Mx
        invariant 0 <= i <= Mx
        invariant |nCells| == nShelves && |sums| == nShelves
        invariant forall s :: 0 <= s < nShelves ==>
                    nCells[s] == CountWhere(BoxSel(shelf, box, boxId, s), My, i, 0) &&
                    sums[s] == SumWhere(BoxSel(shelf, box, boxId, s), f, My, i, 0)
      {
        var j := 0;
        while j < My
          invariant 0 <= j <= My
          invariant |nCells| == nShelves && |sums| == nShelves
          invariant forall s :: 0 <= s < nShelves ==>
                      nCells[s] == CountWhere(BoxSel(shelf, box, boxId, s), My, i, j) &&
                      sums[s] == SumWhere(BoxSel(shelf, box, boxId, s), f, My, i, j)
        {
          var shelfId := shelfMask[i, j];
          if boxMask[i, j] == boxId {
            nCells := nCells[shelfId := nCells[shelfId] + 1];
            sums := sums[shelfId := sums[shelfId] + field[i, j]];
          }
          j := j + 1;
        }
        i := i + 1;
      }
    }

    /**
     * compute_box_average: per shelf, the mean of a field over the shelf's box boxId,
     * 0 when that box has no cell.
     */
    method ComputeBoxAverage(boxId: int, field: array2<real>, shelfMask: array2<int>, boxMask: array2<int>)
      returns (result: seq<real>)
      requires OnGrid(field) && OnGrid(shelfMask) && OnGrid(boxMask)
      requires forall i, j :: 0 <= i < Mx && 0 <= j < My && boxMask[i, j] == boxId ==>
                 0 <= shelfMask[i, j] < nShelves
      ensures |result| == nShelves
      ensures forall s :: 0 <= s < nShelves ==>
                result[s] == BoxMean(Snapshot(field), Snapshot(shelfMask), Snapshot(boxMask), Mx, My, boxId, s)
    {
      ghost var shelf, box, f := Snapshot(shelfMask), Snapshot(boxMask), Values(Snapshot(field));
      var nCells;
      nCells, result := BoxSums(boxId, field, shelfMask, boxMask);
      var s := 0;
      while s < nShelves
        invariant 0 <= s <= nShelves
        invariant |result| == nShelves
        invariant forall t :: 0 <= t < s ==>
                    result[t] == BoxMean(Snapshot(field), shelf, box, Mx, My, boxId, t)
        invariant forall t :: s <= t < nShelves ==>
                    result[t] == SumWhere(BoxSel(shelf, box, boxId, t), f, My, Mx, 0)
      {
        if nCells[s] > 0 {
          result := result[s := result[s] / nCells[s] as real];
        } else {
          EmptySelectionSumsToZero(BoxSel(shelf, box, boxId, s), f, My, Mx, 0);
        }
        s := s + 1;
      }
    }

    /** compute_box_area: per shelf, the area of the shelf's box boxId; entry 0 stays 0. */
    method ComputeBoxArea(boxId: int, shelfMask: array2<int>, boxMask: array2<int>, cellArea: array2<real>)
      returns (result: seq<real>)
      requires OnGrid(shelfMask) && OnGrid(boxMask) && OnGrid(cellArea)
      requires forall i, j :: 0 <= i < Mx && 0 <= j < My && shelfMask[i, j] > 0 && boxMask[i, j] == boxId ==>
                 shelfMask[i, j] < nShelves
      ensures |result| == nShelves
      ensures forall s :: 0 <= s < nShelves ==>
                result[s] == BoxArea(Snapshot(cellArea), Snapshot(shelfMask), Snapshot(boxMask), Mx, My, boxId, s)
    {
      ghost var shelf, box, area := Snapshot(shelfMask), Snapshot(boxMask), Values(Snapshot(cellArea));
      result := seq(nShelves, _ => 0.0);
      var i := 0;
      while i < Mx
        invariant 0 <= i <= Mx
        invariant |result| == nShelves
        invariant forall s :: 0 < s < nShelves ==> result[s] == SumWhere(BoxSel(shelf, box, boxId, s), area, My, i, 0)
        invariant nShelves > 0 ==> result[0] == 0.0
      {
        var j := 0;
        while j < My
          invariant 0 <= j <= My
          invariant |result| == nShelves
          invariant forall s :: 0 < s < nShelves ==> result[s] == SumWhere(BoxSel(shelf, box, boxId, s), area, My, i, j)
          invariant nShelves > 0 ==> result[0] == 0.0
        {
          var shelfId := shelfMask[i, j];
          if shelfId > 0 && boxMask[i, j] == boxId {
            result := result[shelfId := result[shelfId] + cellArea[i, j]];
          }
          j := j + 1;
        }
        i := i + 1;
      }
    }

    /** The values of the six computed fields at cell (i, j). */
    ghost function At(i: int, j: int): CellState
      requires Valid() && 0 <= i < Mx && 0 <= j < My
      reads tStar, toc, soc, overturning, basalMeltRate, shelfBaseTemperature
    {
      CellState(tStar[i, j], toc[i, j], soc[i, j], overturning[i, j], basalMeltRate[i, j], shelfBaseTemperature[i, j])
    }

    /** The input fields cover the grid, and the real-valued ones are not fields of the model. */
    ghost predicate Fits(g: Inputs) {
      OnGrid(g.iceThickness) && OnGrid(g.cellType) && OnGrid(g.shelfMask) && OnGrid(g.boxMask) &&
      OnGrid(g.contShelfMask) && OnGrid(g.cellArea) &&
      External(g.iceThickness) && External(g.cellArea)
    }

    /** The array is not one of the fields of the model. */
    ghost predicate External(a: array2<real>) {
      a != basinMask && a != tocBox0 && a != socBox0 && a != tStar && a != toc && a != soc &&
      a != overturning && a != basalMeltRate && a != shelfBaseTemperature && a != shelfBaseMassFlux
    }

    /** What PICO reads at cell (i, j). */
    ghost function InputAt(g: Inputs, i: int, j: int): CellInput
      requires Valid() && Fits(g) && 0 <= i < Mx && 0 <= j < My
      reads g.iceThickness, g.cellType, g.shelfMask, g.boxMask, tocBox0, socBox0
    {
      CellInput(g.cellType[i, j], g.shelfMask[i, j], g.boxMask[i, j], g.iceThickness[i, j], tocBox0[i, j], socBox0[i, j])
    }

    /** Stores the values of one cell. */
    method Put(i: nat, j: nat, c: CellState)
      requires Valid() && i < Mx && j < My
      modifies tStar, toc, soc, overturning, basalMeltRate, shelfBaseTemperature
      ensures At(i, j) == c
      ensures forall p, q :: 0 <= p < Mx && 0 <= q < My && (p != i || q != j) ==> At(p, q) == old(At(p, q))
    {
      tStar[i, j] := c.tStar;
      toc[i, j] := c.toc;
      soc[i, j] := c.soc;
      overturning[i, j] := c.overturning;
      basalMeltRate[i, j] := c.meltRate;
      shelfBaseTemperature[i, j] := c.tPm;
    }

    /** Row i of a pass over the grid. */
    method SweepRow(stage: Stage, g: Inputs, i: nat)
      requires Valid() && Fits(g) && i < Mx
      modifies tStar, toc, soc, overturning, basalMeltRate, shelfBaseTemperature
      ensures forall q :: 0 <= q < My ==> At(i, q) == Apply(stage, InputAt(g, i, q), old(At(i, q)))
      ensures forall p, q :: 0 <= p < Mx && p != i && 0 <= q < My ==> At(p, q) == old(At(p, q))
    {
      var j := 0;
      while j < My
        invariant 0 <= j <= My
        invariant forall q :: 0 <= q < j ==> At(i, q) == Apply(stage, InputAt(g, i, q), old(At(i, q)))
        invariant forall p, q :: 0 <= p < Mx && 0 <= q < My && (p != i || q >= j) ==> At(p, q) == old(At(p, q))
      {
        var x := CellInput(g.cellType[i, j], g.shelfMask[i, j], g.boxMask[i, j], g.iceThickness[i, j],
                           tocBox0[i, j], socBox0[i, j]);
        var c := CellState(tStar[i, j], toc[i, j], soc[i, j], overturning[i, j], basalMeltRate[i, j],
                           shelfBaseTemperature[i, j]);
        Put(i, j, Apply(stage, x, c));
        j := j + 1;
      }
    }

    /** The point loop of a pass: every cell gets what the pass does to it. */
    method Sweep(stage: Stage, g: Inputs)
      requires Valid() && Fits(g)
      modifies tStar, toc, soc, overturning, basalMeltRate, shelfBaseTemperature
      ensures forall i, j :: 0 <= i < Mx && 0 <= j < My ==> At(i, j) == Apply(stage, InputAt(g, i, j), old(At(i, j)))
    {
      var i := 0;
      while i < Mx
        invariant 0 <= i <= Mx
        invariant forall p, q :: 0 <= p < i && 0 <= q < My ==> At(p, q) == Apply(stage, InputAt(g, p, q), old(At(p, q)))
        invariant forall p, q :: i <= p < Mx && 0 <= q < My ==> At(p, q) == old(At(p, q))
      {
        SweepRow(stage, g, i);
        i := i + 1;
      }
    }

    /**
     * beckmann_goosse: the Beckmann-Goosse defaults at every floating cell (see
     * BeckmannGoosseCell); every other cell keeps its values.
     */
    method BeckmannGoosse(physics: PicoPhysics, constants: Constants, g: Inputs)
      requires Valid() && Fits(g)
      modifies tStar, toc, soc, overturning, basalMeltRate, shelfBaseTemperature
      ensures forall i, j :: 0 <= i < Mx && 0 <= j < My ==>
                At(i, j) == BeckmannGoosseCell(physics, constants, InputAt(g, i, j), old(At(i, j)))
    {
      Sweep(BeckmannGoosseStage(physics, constants), g);
    }

    /**
     * process_box1: every cell of box 1 of a shelf is solved from its box-0 input and
     * the area of box 1 of its shelf; no other cell changes.
     */
    method ProcessBox1(physics: PicoPhysics, g: Inputs)
      requires Valid() && Fits(g)
      requires forall i, j :: 0 <= i < Mx && 0 <= j < My && g.shelfMask[i, j] > 0 && g.boxMask[i, j] == 1 ==>
                 g.shelfMask[i, j] < nShelves
      modifies tStar, toc, soc, overturning, basalMeltRate, shelfBaseTemperature
      ensures var area, shelf, box := Snapshot(g.cellArea), Snapshot(g.shelfMask), Snapshot(g.boxMask);
              forall i, j :: 0 <= i < Mx && 0 <= j < My ==>
                if g.boxMask[i, j] == 1 && g.shelfMask[i, j] > 0
                then At(i, j) == Box1Cell(physics, BoxArea(area, shelf, box, Mx, My, 1, g.shelfMask[i, j]), InputAt(g, i, j))
                else At(i, j) == old(At(i, j))
    {
      var area1 := ComputeBoxArea(1, g.shelfMask, g.boxMask, g.cellArea);
      Sweep(Box1Stage(physics, area1), g);
    }

    /**
     * One iteration of the box loop of process_other_boxes: the cells of box k of every
     * shelf are solved from the means of box k-1 over the current fields.
     */
    method ProcessBox(physics: PicoPhysics, g: Inputs, k: int, overturningBox1: seq<real>)
      requires Valid() && Fits(g) && |overturningBox1| == nShelves
      requires forall i, j :: 0 <= i < Mx && 0 <= j < My ==> 0 <= g.shelfMask[i, j] < nShelves
      modifies tStar, toc, soc, overturning, basalMeltRate, shelfBaseTemperature
      ensures var area, shelf, box := Snapshot(g.cellArea), Snapshot(g.shelfMask), Snapshot(g.boxMask);
              forall i, j :: 0 <= i < Mx && 0 <= j < My ==>
                var s := g.shelfMask[i, j];
                if g.boxMask[i, j] == k && s > 0
                then At(i, j) == OtherBoxCell(physics, BoxArea(area, shelf, box, Mx, My, k, s), InputAt(g, i, j),
                                              old(BoxMean(Snapshot(toc), shelf, box, Mx, My, k - 1, s)),
                                              old(BoxMean(Snapshot(soc), shelf, box, Mx, My, k - 1, s)),
                                              overturningBox1[s], old(At(i, j)))
                else At(i, j) == old(At(i, j))
      ensures var shelf, box := Snapshot(g.shelfMask), Snapshot(g.boxMask);
              forall kk, s :: kk != k ==>
                BoxMean(Snapshot(toc), shelf, box, Mx, My, kk, s) == old(BoxMean(Snapshot(toc), shelf, box, Mx, My, kk, s)) &&
                BoxMean(Snapshot(soc), shelf, box, Mx, My, kk, s) == old(BoxMean(Snapshot(soc), shelf, box, Mx, My, kk, s))
    {
      ghost var shelf, box := Snapshot(g.shelfMask), Snapshot(g.boxMask);
      ghost var tocBefore, socBefore := Snapshot(toc), Snapshot(soc);
      var temperature := ComputeBoxAverage(k - 1, toc, g.shelfMask, g.boxMask);
      var salinity := ComputeBoxAverage(k - 1, soc, g.shelfMask, g.boxMask);
      var area := ComputeBoxArea(k, g.shelfMask, g.boxMask, g.cellArea);
      label before:
      Sweep(OtherBoxStage(physics, k, area, temperature, salinity, overturningBox1), g);
      forall p, q | 0 <= p < Mx && 0 <= q < My && g.boxMask[p, q] != k
        ensures Snapshot(toc)[p][q] == tocBefore[p][q] && Snapshot(soc)[p][q] == socBefore[p][q]
      {
        assert At(p, q) == old@before(At(p, q));
      }
      BoxMeansElsewhere(Snapshot(toc), tocBefore, shelf, box, Mx, My, k);
      BoxMeansElsewhere(Snapshot(soc), socBefore, shelf, box, Mx, My, k);
    }

    /** The values of the six computed fields on the whole grid. */
    ghost function States(): (r: Grid<CellState>)
      requires Valid()
      reads tStar, toc, soc, overturning, basalMeltRate, shelfBaseTemperature
      ensures IsGrid(r, Mx, My)
      ensures forall i, j :: 0 <= i < Mx && 0 <= j < My ==> r[i][j] == At(i, j)
    {
      seq(Mx, i requires 0 <= i < Mx reads tStar, toc, soc, overturning, basalMeltRate, shelfBaseTemperature =>
        seq(My, j requires 0 <= j < My reads tStar, toc, soc, overturning, basalMeltRate, shelfBaseTemperature => At(i, j)))
    }

    /**
     * Boxes 2 .. k-1 are done: their cells hold what OtherBoxCell gives from the current
     * means of the box before and from the values in `start`; every other cell holds its
     * value in `start`.
     */
    ghost predicate OtherBoxesDone(physics: PicoPhysics, g: Inputs, k: int, overturningBox1: seq<real>, start: Grid<CellState>)
      requires Valid() && Fits(g) && IsGrid(start, Mx, My)
      reads tStar, toc, soc, overturning, basalMeltRate, shelfBaseTemperature
      reads g.iceThickness, g.cellType, g.shelfMask, g.boxMask, g.cellArea, tocBox0, socBox0
    {
      var area, shelf, box := Snapshot(g.cellArea), Snapshot(g.shelfMask), Snapshot(g.boxMask);
      forall i, j :: 0 <= i < Mx && 0 <= j < My ==>
        var kk, s := g.boxMask[i, j], g.shelfMask[i, j];
        if 2 <= kk < k && 0 < s < |overturningBox1|
        then At(i, j) == OtherBoxCell(physics, BoxArea(area, shelf, box, Mx, My, kk, s), InputAt(g, i, j),
                                      BoxMean(Snapshot(toc), shelf, box, Mx, My, kk - 1, s),
                                      BoxMean(Snapshot(soc), shelf, box, Mx, My, kk - 1, s),
                                      overturningBox1[s], start[i][j])
        else At(i, j) == start[i][j]
    }

    /** The body of the box loop of process_other_boxes, for box k. */
    method ProcessBoxStep(physics: PicoPhysics, g: Inputs, k: int, overturningBox1: seq<real>, ghost start: Grid<CellState>)
      requires Valid() && Fits(g) && |overturningBox1| == nShelves && IsGrid(start, Mx, My) && 2 <= k
      requires forall i, j :: 0 <= i < Mx && 0 <= j < My ==> 0 <= g.shelfMask[i, j] < nShelves
      requires OtherBoxesDone(physics, g, k, overturningBox1, start)
      modifies tStar, toc, soc, overturning, basalMeltRate, shelfBaseTemperature
      ensures OtherBoxesDone(physics, g, k + 1, overturningBox1, start)
    {
      ghost var area, shelf, box := Snapshot(g.cellArea), Snapshot(g.shelfMask), Snapshot(g.boxMask);
      label before:
      ProcessBox(physics, g, k, overturningBox1);
      assert Snapshot(g.shelfMask) == shelf && Snapshot(g.boxMask) == box;
      forall i, j | 0 <= i < Mx && 0 <= j < My
        ensures var kk, s := g.boxMask[i, j], g.shelfMask[i, j];
                if 2 <= kk < k + 1 && 0 < s < |overturningBox1|
                then At(i, j) == OtherBoxCell(physics, BoxArea(area, shelf, box, Mx, My, kk, s), InputAt(g, i, j),
                                              BoxMean(Snapshot(toc), shelf, box, Mx, My, kk - 1, s),
                                              BoxMean(Snapshot(soc), shelf, box, Mx, My, kk - 1, s),
                                              overturningBox1[s], start[i][j])
                else At(i, j) == start[i][j]
      {
        var kk, s := g.boxMask[i, j], g.shelfMask[i, j];
        if kk != k {
          assert At(i, j) == old@before(At(i, j));
        }
        if 2 <= kk <= k && 0 < s {
          assert BoxMean(Snapshot(toc), shelf, box, Mx, My, kk - 1, s) == old@before(BoxMean(Snapshot(toc), shelf, box, Mx, My, kk - 1, s));
          assert BoxMean(Snapshot(soc), shelf, box, Mx, My, kk - 1, s) == old@before(BoxMean(Snapshot(soc), shelf, box, Mx, My, kk - 1, s));
        }
      }
    }

    /**
     * process_other_boxes: for k = 2 .. nBoxes, every cell of box k of a shelf is solved
     * from the final means of box k-1 of its shelf and the mean box-1 overturning, unless
     * one of those is 0 (see OtherBoxesDone); no other cell changes.
     */
    method ProcessOtherBoxes(physics: PicoPhysics, g: Inputs)
      requires Valid() && Fits(g)
      requires forall i, j :: 0 <= i < Mx && 0 <= j < My ==> 0 <= g.shelfMask[i, j] < nShelves
      modifies tStar, toc, soc, overturning, basalMeltRate, shelfBaseTemperature
      ensures OtherBoxesDone(physics, g, nBoxes + 1,
                             old(BoxMeans(Snapshot(overturning), Snapshot(g.shelfMask), Snapshot(g.boxMask), Mx, My, 1, nShelves)),
                             old(States()))
      ensures forall i, j :: 0 <= i < Mx && 0 <= j < My && (g.shelfMask[i, j] == 0 || g.boxMask[i, j] < 2) ==>
                At(i, j) == old(At(i, j))
    {
      ghost var start := States();
      var overturningBox1 := ComputeBoxAverage(1, overturning, g.shelfMask, g.boxMask);
      var k := 2;
      while k <= nBoxes
        invariant 2 <= k && (k == 2 || k <= nBoxes + 1)
        invariant OtherBoxesDone(physics, g, k, overturningBox1, start)
      {
        ProcessBoxStep(physics, g, k, overturningBox1, start);
        k := k + 1;
      }
      assert overturningBox1 == old(BoxMeans(Snapshot(overturning), Snapshot(g.shelfMask), Snapshot(g.boxMask), Mx, My, 1, nShelves));
    }

    /** The largest value of an integer field (the grid is not empty). */
    method MaxValue(a: array2<int>) returns (m: int)
      requires OnGrid(a) && Mx > 0 && My > 0
      ensures exists i, j :: 0 <= i < Mx && 0 <= j < My && a[i, j] == m
      ensures forall i, j :: 0 <= i < Mx && 0 <= j < My ==> a[i, j] <= m
    {
      m := a[0, 0];
      ghost var wi, wj := 0, 0;
      var i := 0;
      while i < Mx
        invariant 0 <= i <= Mx
        invariant 0 <= wi < Mx && 0 <= wj < My && a[wi, wj] == m
        invariant forall p, q :: 0 <= p < i && 0 <= q < My ==> a[p, q] <= m
      {
        var j := 0;
        while j < My
          invariant 0 <= j <= My
          invariant 0 <= wi < Mx && 0 <= wj < My && a[wi, wj] == m
          invariant forall p, q :: 0 <= p < i && 0 <= q < My ==> a[p, q] <= m
          invariant forall q :: 0 <= q < j ==> a[i, q] <= m
        {
          if a[i, j] > m {
            m := a[i, j];
            wi, wj := i, j;
          }
          j := j + 1;
        }
        i := i + 1;
      }
    }

    /** The shelf base mass flux is the basal melt rate scaled by the ice density. */
    method SetMassFlux(iceDensity: real)
      requires Valid()
      modifies shelfBaseMassFlux
      ensures forall i, j :: 0 <= i < Mx && 0 <= j < My ==>
                shelfBaseMassFlux[i, j] == basalMeltRate[i, j] * iceDensity
    {
      var i := 0;
      while i < Mx
        invariant 0 <= i <= Mx
        invariant forall p, q :: 0 <= p < i && 0 <= q < My ==> shelfBaseMassFlux[p, q] == basalMeltRate[p, q] * iceDensity
      {
        var j := 0;
        while j < My
          invariant 0 <= j <= My
          invariant forall p, q :: 0 <= p < i && 0 <= q < My ==> shelfBaseMassFlux[p, q] == basalMeltRate[p, q] * iceDensity
          invariant forall q :: 0 <= q < j ==> shelfBaseMassFlux[i, q] == basalMeltRate[i, q] * iceDensity
        {
          shelfBaseMassFlux[i, j] := basalMeltRate[i, j] * iceDensity;
          j := j + 1;
        }
        i := i + 1;
      }
    }

    /** The mass flux from a finished melt computation, which it leaves as it is. */
    method SetMassFluxAfterMelt(physics: PicoPhysics, constants: Constants, g: Inputs)
      requires Valid() && Fits(g)
      requires DisconnectedIceFrozen(constants, g) && Box1Solved(physics, g)
      modifies shelfBaseMassFlux
      ensures DisconnectedIceFrozen(constants, g) && Box1Solved(physics, g)
      ensures forall i, j :: 0 <= i < Mx && 0 <= j < My ==>
                shelfBaseMassFlux[i, j] == basalMeltRate[i, j] * physics.iceDensity
    {
      SetMassFlux(physics.iceDensity);
    }

    /** PICO leaves sea level and melange back pressure to other components: both are 0. */
    method ClearSeaLevelAndMelange()
      modifies this`seaLevelElevation, this`melangeBackPressureFraction
      ensures seaLevelElevation == 0.0 && melangeBackPressureFraction == 0.0
    {
      seaLevelElevation := 0.0;
      melangeBackPressureFraction := 0.0;
    }

    /**
     * The box-0 input of every cell is that of its shelf, from the basin means of the
     * ocean fields over the continental shelf (see Box0Input).
     */
    ghost predicate Box0InputFromOcean(physics: PicoPhysics, g: Inputs, salinityOcean: array2<real>, thetaOcean: array2<real>,
                                       nBasins: nat, nShelves: nat)
      requires Valid() && Fits(g) && OnGrid(salinityOcean) && OnGrid(thetaOcean)
      reads basinMask, tocBox0, socBox0, salinityOcean, thetaOcean
      reads g.iceThickness, g.cellType, g.shelfMask, g.contShelfMask
    {
      var shelf, basins, cont := Snapshot(g.shelfMask), Snapshot(basinMask), Snapshot(g.contShelfMask);
      var tIn := ShelfInputs(BasinInputs(Snapshot(thetaOcean), cont, basins, Mx, My, nBasins, physics.tDummy),
                             shelf, basins, Mx, My, nShelves);
      var sIn := ShelfInputs(BasinInputs(Snapshot(salinityOcean), cont, basins, Mx, My, nBasins, physics.sDummy),
                             shelf, basins, Mx, My, nShelves);
      forall i, j :: 0 <= i < Mx && 0 <= j < My ==>
        (tocBox0[i, j], socBox0[i, j]) == Box0Input(physics, g.cellType[i, j], g.shelfMask[i, j], g.iceThickness[i, j], tIn, sIn)
    }

    /** n is one more than the largest shelf id. */
    ghost predicate ShelvesCounted(g: Inputs, n: nat)
      requires Fits(g)
      reads g.shelfMask
    {
      (forall i, j :: 0 <= i < Mx && 0 <= j < My ==> g.shelfMask[i, j] < n) &&
      exists i, j :: 0 <= i < Mx && 0 <= j < My && g.shelfMask[i, j] == n - 1
    }

    /**
     * Floating ice not connected to the ocean does not melt, and its base is at the
     * melting point lowered by the overburden pressure of the ice.
     */
    ghost predicate DisconnectedIceFrozen(constants: Constants, g: Inputs)
      requires Valid() && Fits(g)
      reads tStar, toc, soc, overturning, basalMeltRate, shelfBaseTemperature, g.cellType, g.shelfMask, g.iceThickness
    {
      forall i, j :: 0 <= i < Mx && 0 <= j < My && g.cellType[i, j] == MASK_FLOATING && g.shelfMask[i, j] == 0 ==>
        At(i, j).meltRate == 0.0 &&
        At(i, j).tPm == constants.meltingPointTemperature -
          constants.betaClausiusClapeyron * (constants.iceDensity * constants.standardGravity * g.iceThickness[i, j])
    }

    /** Every cell of box 1 of a shelf holds the box-1 solution from its box-0 input. */
    ghost predicate Box1Solved(physics: PicoPhysics, g: Inputs)
      requires Valid() && Fits(g)
      reads tStar, toc, soc, overturning, basalMeltRate, shelfBaseTemperature
      reads g.iceThickness, g.cellType, g.shelfMask, g.boxMask, g.cellArea, tocBox0, socBox0
    {
      var area, shelf, box := Snapshot(g.cellArea), Snapshot(g.shelfMask), Snapshot(g.boxMask);
      forall i, j :: 0 <= i < Mx && 0 <= j < My && g.boxMask[i, j] == 1 && g.shelfMask[i, j] > 0 ==>
        At(i, j) == Box1Cell(physics, BoxArea(area, shelf, box, Mx, My, 1, g.shelfMask[i, j]), InputAt(g, i, j))
    }

    /**
     * The first half of update_impl: the number of shelves from the shelf mask, and the
     * box-0 input of every cell from the basin means of the ocean fields.
     */
    method PrepareBox0Input(physics: PicoPhysics, g: Inputs, salinityOcean: array2<real>, thetaOcean: array2<real>)
      requires Valid() && Fits(g) && OnGrid(salinityOcean) && OnGrid(thetaOcean) && Mx > 0 && My > 0
      requires External(salinityOcean) && External(thetaOcean)
      requires forall i, j :: 0 <= i < Mx && 0 <= j < My ==>
                 0 <= g.shelfMask[i, j] && 0 <= AsInt(basinMask[i, j]) < nBasins
      modifies this`nShelves, tocBox0, socBox0
      ensures ShelvesCounted(g, nShelves)
      ensures Box0InputFromOcean(physics, g, salinityOcean, thetaOcean, nBasins, nShelves)
    {
      var maxShelf := MaxValue(g.shelfMask);
      nShelves := maxShelf + 1;
      var basinTemperature, basinSalinity := ComputeOceanInputPerBasin(physics, g.contShelfMask, salinityOcean, thetaOcean);
      ghost var basins, cont := Snapshot(basinMask), Snapshot(g.contShelfMask);
      assert basinTemperature == BasinInputs(Snapshot(thetaOcean), cont, basins, Mx, My, nBasins, physics.tDummy);
      assert basinSalinity == BasinInputs(Snapshot(salinityOcean), cont, basins, Mx, My, nBasins, physics.sDummy);
      var _ := SetOceanInputFields(physics, g.iceThickness, g.cellType, g.shelfMask, basinTemperature, basinSalinity);
    }

    /** Beckmann-Goosse defaults, then box 1. */
    method DefaultsAndBox1(physics: PicoPhysics, constants: Constants, g: Inputs)
      requires Valid() && Fits(g)
      requires forall i, j :: 0 <= i < Mx && 0 <= j < My ==> 0 <= g.shelfMask[i, j] < nShelves
      modifies tStar, toc, soc, overturning, basalMeltRate, shelfBaseTemperature
      ensures DisconnectedIceFrozen(constants, g)
      ensures Box1Solved(physics, g)
    {
      BeckmannGoosse(physics, constants, g);
      forall i, j | 0 <= i < Mx && 0 <= j < My && g.cellType[i, j] == MASK_FLOATING && g.shelfMask[i, j] == 0
        ensures At(i, j).meltRate == 0.0
        ensures At(i, j).tPm == constants.meltingPointTemperature -
                  constants.betaClausiusClapeyron * (constants.iceDensity * constants.standardGravity * g.iceThickness[i, j])
      {
        assert InputAt(g, i, j).cellType == MASK_FLOATING && InputAt(g, i, j).shelf == 0;
      }
      label bg:
      ProcessBox1(physics, g);
      forall i, j | 0 <= i < Mx && 0 <= j < My && g.shelfMask[i, j] == 0
        ensures At(i, j) == old@bg(At(i, j))
      {
      }
    }

    /**
     * The second half of update_impl: Beckmann-Goosse defaults, then box 1, then the
     * other boxes.
     */
    method ComputeMelt(physics: PicoPhysics, constants: Constants, g: Inputs)
      requires Valid() && Fits(g)
      requires forall i, j :: 0 <= i < Mx && 0 <= j < My ==> 0 <= g.shelfMask[i, j] < nShelves
      modifies tStar, toc, soc, overturning, basalMeltRate, shelfBaseTemperature
      ensures DisconnectedIceFrozen(constants, g)
      ensures Box1Solved(physics, g)
    {
      DefaultsAndBox1(physics, constants, g);
      label box1:
      ProcessOtherBoxes(physics, g);
      forall i, j | 0 <= i < Mx && 0 <= j < My && g.cellType[i, j] == MASK_FLOATING && g.shelfMask[i, j] == 0
        ensures At(i, j).meltRate == 0.0
        ensures At(i, j).tPm == constants.meltingPointTemperature -
                  constants.betaClausiusClapeyron * (constants.iceDensity * constants.standardGravity * g.iceThickness[i, j])
      {
        assert At(i, j) == old@box1(At(i, j));
      }
      ghost var area, shelf, box := Snapshot(g.cellArea), Snapshot(g.shelfMask), Snapshot(g.boxMask);
      forall i, j | 0 <= i < Mx && 0 <= j < My && g.boxMask[i, j] == 1 && g.shelfMask[i, j] > 0
        ensures At(i, j) == Box1Cell(physics, BoxArea(area, shelf, box, Mx, My, 1, g.shelfMask[i, j]), InputAt(g, i, j))
      {
        assert At(i, j) == old@box1(At(i, j));
      }
    }

    /**
     * The melt computation and the outputs derived from it.
     */
    method MeltAndOutputs(physics: PicoPhysics, constants: Constants, g: Inputs,
                          salinityOcean: array2<real>, thetaOcean: array2<real>)
      requires Valid() && Fits(g) && OnGrid(salinityOcean) && OnGrid(thetaOcean)
      requires External(salinityOcean) && External(thetaOcean)
      requires forall i, j :: 0 <= i < Mx && 0 <= j < My ==> 0 <= g.shelfMask[i, j]
      requires ShelvesCounted(g, nShelves) && Box0InputFromOcean(physics, g, salinityOcean, thetaOcean, nBasins, nShelves)
      modifies tStar, toc, soc, overturning, basalMeltRate, shelfBaseTemperature, shelfBaseMassFlux
      ensures DisconnectedIceFrozen(constants, g) && Box1Solved(physics, g)
      ensures forall i, j :: 0 <= i < Mx && 0 <= j < My ==>
                shelfBaseMassFlux[i, j] == basalMeltRate[i, j] * physics.iceDensity
    {
      ComputeMelt(physics, constants, g);
      SetMassFluxAfterMelt(physics, constants, g);
    }

    /** The first half of update_impl, with the two outputs that do not depend on the melt. */
    method StartUpdate(physics: PicoPhysics, g: Inputs, salinityOcean: array2<real>, thetaOcean: array2<real>)
      requires Valid() && Fits(g) && OnGrid(salinityOcean) && OnGrid(thetaOcean) && Mx > 0 && My > 0
      requires External(salinityOcean) && External(thetaOcean)
      requires forall i, j :: 0 <= i < Mx && 0 <= j < My ==>
                 0 <= g.shelfMask[i, j] && 0 <= AsInt(basinMask[i, j]) < nBasins
      modifies this`nShelves, this`seaLevelElevation, this`melangeBackPressureFraction, tocBox0, socBox0
      ensures ShelvesCounted(g, nShelves)
      ensures Box0InputFromOcean(physics, g, salinityOcean, thetaOcean, nBasins, nShelves)
      ensures seaLevelElevation == 0.0 && melangeBackPressureFraction == 0.0
    {
      ClearSeaLevelAndMelange();
      PrepareBox0Input(physics, g, salinityOcean, thetaOcean);
    }

    /** The melt computation and its outputs, which leave the box-0 input as it is. */
    method MeltAfterBox0Input(physics: PicoPhysics, constants: Constants, g: Inputs,
                              salinityOcean: array2<real>, thetaOcean: array2<real>)
      requires Valid() && Fits(g) && OnGrid(salinityOcean) && OnGrid(thetaOcean)
      requires External(salinityOcean) && External(thetaOcean)
      requires forall i, j :: 0 <= i < Mx && 0 <= j < My ==> 0 <= g.shelfMask[i, j]
      requires ShelvesCounted(g, nShelves) && Box0InputFromOcean(physics, g, salinityOcean, thetaOcean, nBasins, nShelves)
      modifies tStar, toc, soc, overturning, basalMeltRate, shelfBaseTemperature, shelfBaseMassFlux
      ensures ShelvesCounted(g, nShelves) && Box0InputFromOcean(physics, g, salinityOcean, thetaOcean, nBasins, nShelves)
      ensures DisconnectedIceFrozen(constants, g) && Box1Solved(physics, g)
      ensures forall i, j :: 0 <= i < Mx && 0 <= j < My ==>
                shelfBaseMassFlux[i, j] == basalMeltRate[i, j] * physics.iceDensity
    {
      MeltAndOutputs(physics, constants, g, salinityOcean, thetaOcean);
    }

    /**
     * update_impl: the box-0 input, the melt computation, the mass flux from the melt
     * rate, and zero sea level and melange back pressure.
     */
    method UpdateImpl(physics: PicoPhysics, constants: Constants, g: Inputs,
                      salinityOcean: array2<real>, thetaOcean: array2<real>)
      requires Valid() && Fits(g) && OnGrid(salinityOcean) && OnGrid(thetaOcean) && Mx > 0 && My > 0
      requires External(salinityOcean) && External(thetaOcean)
      requires forall i, j :: 0 <= i < Mx && 0 <= j < My ==>
                 0 <= g.shelfMask[i, j] && 0 <= AsInt(basinMask[i, j]) < nBasins
      modifies this`nShelves, this`seaLevelElevation, this`melangeBackPressureFraction
      modifies tocBox0, socBox0, tStar, toc, soc, overturning, basalMeltRate, shelfBaseTemperature, shelfBaseMassFlux
      ensures ShelvesCounted(g, nShelves)
      ensures Box0InputFromOcean(physics, g, salinityOcean, thetaOcean, nBasins, nShelves)
      ensures DisconnectedIceFrozen(constants, g)
      ensures Box1Solved(physics, g)
      ensures forall i, j :: 0 <= i < Mx && 0 <= j < My ==>
                shelfBaseMassFlux[i, j] == basalMeltRate[i, j] * physics.iceDensity
      ensures seaLevelElevation == 0.0 && melangeBackPressureFraction == 0.0
    {
      StartUpdate(physics, g, salinityOcean, thetaOcean);
      MeltAfterBox0Input(physics, constants, g, salinityOcean, thetaOcean);
    }
  }
}
