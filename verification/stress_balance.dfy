/**
 * Diagnostics of PISM's shallow stress balance: strain rates from finite differences
 * of the sliding velocity, principal strain rates, deviatoric stresses, basal
 * frictional heating, driving and basal shear stress and the basal drag coefficient;
 * and the trivial stress balances that hold the velocity at zero or at prescribed
 * values.
 *
 * Fields are Mx-by-My arrays indexed (i, j), i along x and j along y.  The five-point
 * star of a cell reads its neighbours through the periodic ghost cells of the grid.
 * The sliding law's drag, the flow law's effective viscosity, the second invariant of
 * the strain rate, the square root and the surface slope are given functions.
 */
module ShallowStress {

  // Cell type mask values.
  const MASK_ICE_FREE_BEDROCK: int := 0
  const MASK_GROUNDED: int := 2
  const MASK_FLOATING: int := 3
  const MASK_ICE_FREE_OCEAN: int := 4

  predicate IceFree(m: int) {
    m == MASK_ICE_FREE_BEDROCK || m == MASK_ICE_FREE_OCEAN
  }

  /** Floating ice or open water. */
  predicate Ocean(m: int) {
    m == MASK_FLOATING || m == MASK_ICE_FREE_OCEAN
  }

  predicate GroundedIce(m: int) {
    m == MASK_GROUNDED
  }

  datatype Vector2 = Vector2(u: real, v: real)

  /** The values at a cell and at its east, west, north and south neighbours. */
  datatype Star<T> = Star(ij: T, e: T, w: T, n: T, s: T)

  /** Horizontal velocity gradient: u_x, u_y, v_x, v_y. */
  datatype Strain = Strain(ux: real, uy: real, vx: real, vy: real)

  /** The formulas the diagnostics take from other components. */
  datatype Physics = Physics(
    drag: (real, real, real) -> real,                 // sliding law: (tauc, u, v) -> basal drag coefficient
    effectiveViscosity: (real, real) -> real,         // flow law: (hardness, second invariant) -> viscosity
    secondInvariant: (real, real, real, real) -> real, // (u_x, u_y, v_x, v_y)
    sqrt: real -> real)

  datatype Status = Ok | Error(message: string)

  // ---------------------------------------------------------------------------
  // Per-cell rules.
  // ---------------------------------------------------------------------------

  /**
   * Reference derivative along one axis: centred when both neighbours carry ice,
   * one-sided towards the neighbour that does when only one does, 0 when neither does.
   */
  function Derivative(westActive: bool, eastActive: bool, west: real, mid: real, east: real, h: real): real
    requires h > 0.0
  {
    if westActive && eastActive then (east - west) / (2.0 * h)
    else if eastActive then (east - mid) / h
    else if westActive then (mid - west) / h
    else 0.0
  }

  /** 1 for a neighbour that carries ice, 0 for an ice-free one. */
  function Weight(m: int): real {
    if IceFree(m) then 0.0 else 1.0
  }

  /** The derivative as the source writes it: a weighted sum of one-sided differences. */
  function WeightedDifference(wWest: real, wEast: real, west: real, mid: real, east: real, h: real): real
    requires h > 0.0
  {
    if wWest + wEast > 0.0 then 1.0 / (h * (wWest + wEast)) * (wWest * (mid - west) + wEast * (east - mid))
    else 0.0
  }

  /** The weighted sum of one-sided differences is the case-by-case derivative. */
  lemma WeightedDifferenceIsDerivative(mw: int, me: int, west: real, mid: real, east: real, h: real)
    requires h > 0.0
    ensures WeightedDifference(Weight(mw), Weight(me), west, mid, east, h) ==
            Derivative(!IceFree(mw), !IceFree(me), west, mid, east, h)
  {
    if !IceFree(mw) && !IceFree(me) {
      calc {
        WeightedDifference(1.0, 1.0, west, mid, east, h);
        1.0 / (h * 2.0) * ((mid - west) + (east - mid));
        { assert (mid - west) + (east - mid) == east - west; }
        1.0 / (h * 2.0) * (east - west);
        (east - west) / (2.0 * h);
      }
    }
  }

  /**
   * Strain rates at a cell with ice: each derivative is centred, one-sided or 0
   * according to which neighbours along its axis are ice-free.
   */
  function StrainRates(m: Star<int>, U: Star<Vector2>, dx: real, dy: real): (r: Strain)
    requires dx > 0.0 && dy > 0.0
    ensures r.ux == Derivative(!IceFree(m.w), !IceFree(m.e), U.w.u, U.ij.u, U.e.u, dx)
    ensures r.vx == Derivative(!IceFree(m.w), !IceFree(m.e), U.w.v, U.ij.v, U.e.v, dx)
    ensures r.uy == Derivative(!IceFree(m.s), !IceFree(m.n), U.s.u, U.ij.u, U.n.u, dy)
    ensures r.vy == Derivative(!IceFree(m.s), !IceFree(m.n), U.s.v, U.ij.v, U.n.v, dy)
  {
    WeightedDifferenceIsDerivative(m.w, m.e, U.w.u, U.ij.u, U.e.u, dx);
    WeightedDifferenceIsDerivative(m.w, m.e, U.w.v, U.ij.v, U.e.v, dx);
    WeightedDifferenceIsDerivative(m.s, m.n, U.s.u, U.ij.u, U.n.u, dy);
    WeightedDifferenceIsDerivative(m.s, m.n, U.s.v, U.ij.v, U.n.v, dy);
    var east, west, north, south := Weight(m.e), Weight(m.w), Weight(m.n), Weight(m.s);
    Strain(WeightedDifference(west, east, U.w.u, U.ij.u, U.e.u, dx),
           WeightedDifference(south, north, U.s.u, U.ij.u, U.n.u, dy),
           WeightedDifference(west, east, U.w.v, U.ij.v, U.e.v, dx),
           WeightedDifference(south, north, U.s.v, U.ij.v, U.n.v, dy))
  }

  /** Shear component of the strain rate tensor D, D_xy = D_yx. */
  function Dxy(d: Strain): real {
    0.5 * (d.vx + d.uy)
  }

  /** The argument of the square root in the principal strain rates. */
  function Discriminant(d: Strain): real {
    0.25 * (d.ux - d.vy) * (d.ux - d.vy) + Dxy(d) * Dxy(d)
  }

  /** The eigenvalues of D as the source computes them: A + q and A - q. */
  function PrincipalStrainRates(d: Strain, sqrt: real -> real): (real, real) {
    var A := 0.5 * (d.ux + d.vy);
    var B := 0.5 * (d.ux - d.vy);
    var q := sqrt(B * B + Dxy(d) * Dxy(d));
    (A + q, A - q)
  }

  /**
   * The two principal strain rates add up to the trace of D, and the first is the
   * larger one as long as the square root is not negative.
   */
  lemma PrincipalStrainRatesOrdered(d: Strain, sqrt: real -> real)
    ensures var r := PrincipalStrainRates(d, sqrt);
            r.0 + r.1 == d.ux + d.vy &&
            (sqrt(Discriminant(d)) >= 0.0 ==> r.0 >= r.1)
  {
    var B := 0.5 * (d.ux - d.vy);
    assert B * B == 0.25 * (d.ux - d.vy) * (d.ux - d.vy);
  }

  /** e is an eigenvalue of the symmetric tensor [[a, c], [c, b]]. */
  predicate IsEigenvalue(a: real, b: real, c: real, e: real) {
    (a - e) * (b - e) == c * c
  }

  lemma SquareDifference(q: real, B: real)
    ensures (q - B) * (q + B) == q * q - B * B
  {
  }

  /**
   * With an exact square root both principal strain rates are eigenvalues of the
   * strain rate tensor D = [[u_x, D_xy], [D_xy, v_y]].
   */
  lemma PrincipalStrainRatesAreEigenvalues(d: Strain, sqrt: real -> real)
    requires sqrt(Discriminant(d)) * sqrt(Discriminant(d)) == Discriminant(d)
    ensures IsEigenvalue(d.ux, d.vy, Dxy(d), PrincipalStrainRates(d, sqrt).0)
    ensures IsEigenvalue(d.ux, d.vy, Dxy(d), PrincipalStrainRates(d, sqrt).1)
  {
    var A := 0.5 * (d.ux + d.vy);
    var B := 0.5 * (d.ux - d.vy);
    var D := Dxy(d);
    assert B * B == 0.25 * (d.ux - d.vy) * (d.ux - d.vy);
    assert B * B + D * D == Discriminant(d);
    var q := sqrt(B * B + D * D);
    assert q * q == B * B + D * D;
    assert d.ux - (A + q) == -(q - B) && d.vy - (A + q) == -(q + B);
    assert d.ux - (A - q) == (q + B) && d.vy - (A - q) == (q - B);
    SquareDifference(q, B);
    assert (-(q - B)) * (-(q + B)) == (q - B) * (q + B);
    assert (q + B) * (q - B) == (q - B) * (q + B);
  }

  /** Principal strain rates of a cell: 0 on ice-free cells. */
  function PrincipalCell(m: Star<int>, U: Star<Vector2>, dx: real, dy: real, sqrt: real -> real): (real, real)
    requires dx > 0.0 && dy > 0.0
  {
    if IceFree(m.ij) then (0.0, 0.0) else PrincipalStrainRates(StrainRates(m, U, dx, dy), sqrt)
  }

  /**
   * compute_2D_principal_strain_rates at one cell: both rates are 0 on ice-free
   * cells; elsewhere they add up to u_x + v_y and the first is not smaller than the
   * second when the square root is not negative; with an exact square root both are
   * eigenvalues of the cell's strain rate tensor.
   */
  lemma PrincipalCellProperties(m: Star<int>, U: Star<Vector2>, dx: real, dy: real, sqrt: real -> real)
    requires dx > 0.0 && dy > 0.0
    ensures IceFree(m.ij) ==> PrincipalCell(m, U, dx, dy, sqrt) == (0.0, 0.0)
    ensures !IceFree(m.ij) ==>
              PrincipalPair(StrainRates(m, U, dx, dy), sqrt, PrincipalCell(m, U, dx, dy, sqrt))
  {
    if !IceFree(m.ij) {
      PrincipalStrainRatesFacts(StrainRates(m, U, dx, dy), sqrt);
    }
  }

  /**
   * What a pair r of principal strain rates of D satisfies: r.0 + r.1 is the trace
   * u_x + v_y; r.0 >= r.1 when the square root is not negative; and both are
   * eigenvalues of D when the square root is exact.
   */
  predicate PrincipalPair(d: Strain, sqrt: real -> real, r: (real, real)) {
    r.0 + r.1 == d.ux + d.vy && (sqrt(Discriminant(d)) >= 0.0 ==> r.0 >= r.1) &&
    (sqrt(Discriminant(d)) * sqrt(Discriminant(d)) == Discriminant(d) ==>
       IsEigenvalue(d.ux, d.vy, Dxy(d), r.0) && IsEigenvalue(d.ux, d.vy, Dxy(d), r.1))
  }

  /** The ordering and eigenvalue facts about the principal strain rates, together. */
  lemma PrincipalStrainRatesFacts(d: Strain, sqrt: real -> real)
    ensures PrincipalPair(d, sqrt, PrincipalStrainRates(d, sqrt))
  {
    PrincipalStrainRatesOrdered(d, sqrt);
    if sqrt(Discriminant(d)) * sqrt(Discriminant(d)) == Discriminant(d) {
      PrincipalStrainRatesAreEigenvalues(d, sqrt);
    }
  }

  /** Deviatoric stresses (xx, yy, xy) from the strain rates and the effective viscosity. */
  function DeviatoricStresses(d: Strain, nu: real): (real, real, real) {
    (nu * d.ux, nu * d.vy, 0.5 * nu * (d.uy + d.vx))
  }

  lemma ScaleEigenvalue(a: real, b: real, c: real, e: real, nu: real)
    requires IsEigenvalue(a, b, c, e)
    ensures IsEigenvalue(nu * a, nu * b, nu * c, nu * e)
  {
    assert nu * a - nu * e == nu * (a - e) && nu * b - nu * e == nu * (b - e);
    assert (nu * (a - e)) * (nu * (b - e)) == (nu * nu) * ((a - e) * (b - e));
    assert (nu * c) * (nu * c) == (nu * nu) * (c * c);
  }

  /**
   * The deviatoric stress is the strain rate tensor scaled by the viscosity, so its
   * principal values are the principal strain rates scaled by the viscosity.
   */
  lemma StressPrincipalValues(d: Strain, nu: real, sqrt: real -> real)
    requires sqrt(Discriminant(d)) * sqrt(Discriminant(d)) == Discriminant(d)
    ensures var t := DeviatoricStresses(d, nu);
            var r := PrincipalStrainRates(d, sqrt);
            IsEigenvalue(t.0, t.1, t.2, nu * r.0) && IsEigenvalue(t.0, t.1, t.2, nu * r.1)
  {
    PrincipalStrainRatesAreEigenvalues(d, sqrt);
    var r := PrincipalStrainRates(d, sqrt);
    ScaleEigenvalue(d.ux, d.vy, Dxy(d), r.0, nu);
    ScaleEigenvalue(d.ux, d.vy, Dxy(d), r.1, nu);
    assert nu * Dxy(d) == 0.5 * nu * (d.uy + d.vx);
  }

  /** Stresses of a cell: 0 on ice-free cells, the viscosity from the second invariant elsewhere. */
  function StressCell(physics: Physics, hardness: real, m: Star<int>, U: Star<Vector2>, dx: real, dy: real): (real, real, real)
    requires dx > 0.0 && dy > 0.0
  {
    if IceFree(m.ij) then (0.0, 0.0, 0.0)
    else
      var d := StrainRates(m, U, dx, dy);
      var nu := physics.effectiveViscosity(hardness, physics.secondInvariant(d.ux, d.uy, d.vx, d.vy));
      DeviatoricStresses(d, nu)
  }

  /** Basal frictional heating: none under floating ice or open water. */
  function FrictionalHeating(physics: Physics, tauc: real, mask: int, vel: Vector2): (r: real)
    ensures Ocean(mask) ==> r == 0.0
    ensures !Ocean(mask) ==> r == physics.drag(tauc, vel.u, vel.v) * (vel.u * vel.u + vel.v * vel.v)
  {
    if Ocean(mask) then 0.0
    else
      var C := physics.drag(tauc, vel.u, vel.v);
      var basalStressX := - C * vel.u;
      var basalStressY := - C * vel.v;
      - basalStressX * vel.u - basalStressY * vel.v
  }

  /** A sliding law with non-negative drag never cools the base. */
  lemma FrictionalHeatingNonNegative(physics: Physics, tauc: real, mask: int, vel: Vector2)
    requires physics.drag(tauc, vel.u, vel.v) >= 0.0
    ensures FrictionalHeating(physics, tauc, mask, vel) >= 0.0
  {
    var C := physics.drag(tauc, vel.u, vel.v);
    assert C * (vel.u * vel.u + vel.v * vel.v) >= 0.0 by {
      assert vel.u * vel.u + vel.v * vel.v >= 0.0;
    }
  }

  /** Driving stress from the ice overburden pressure and the surface slope; 0 without ice. */
  function DrivingStress(iceDensity: real, gravity: real, thickness: real, slope: Vector2): Vector2 {
    var pressure := iceDensity * gravity * thickness;
    if pressure <= 0.0 then Vector2(0.0, 0.0)
    else Vector2(- pressure * slope.u, - pressure * slope.v)
  }

  /**
   * SSB_taud: the driving stress is a non-negative multiple of minus the surface
   * slope, so it never points uphill; it is 0 where the pressure is not positive.
   */
  lemma DrivingStressPointsDownhill(iceDensity: real, gravity: real, thickness: real, slope: Vector2)
    ensures var t := DrivingStress(iceDensity, gravity, thickness, slope);
            t.u * slope.u + t.v * slope.v <= 0.0 &&
            (iceDensity * gravity * thickness <= 0.0 ==> t == Vector2(0.0, 0.0))
  {
    var p := iceDensity * gravity * thickness;
    if p > 0.0 {
      assert (- p * slope.u) * slope.u + (- p * slope.v) * slope.v == - p * (slope.u * slope.u + slope.v * slope.v);
      assert p * (slope.u * slope.u + slope.v * slope.v) >= 0.0;
    }
  }

  /** Basal shear stress: minus drag times velocity under grounded ice, 0 elsewhere. */
  function BasalStress(physics: Physics, tauc: real, mask: int, vel: Vector2): Vector2 {
    if GroundedIce(mask) then
      var beta := physics.drag(tauc, vel.u, vel.v);
      Vector2(- beta * vel.u, - beta * vel.v)
    else Vector2(0.0, 0.0)
  }

  /** Basal drag coefficient, on every cell. */
  function BasalDrag(physics: Physics, tauc: real, vel: Vector2): real {
    physics.drag(tauc, vel.u, vel.v)
  }

  /**
   * The diagnostics agree with each other: under grounded ice the basal shear stress
   * is minus the drag coefficient times the velocity, and the frictional heating is
   * the work the sliding velocity does against it.
   */
  lemma BasalStressDissipation(physics: Physics, tauc: real, mask: int, vel: Vector2)
    requires GroundedIce(mask)
    ensures var t := BasalStress(physics, tauc, mask, vel);
            var beta := BasalDrag(physics, tauc, vel);
            t == Vector2(- beta * vel.u, - beta * vel.v) &&
            FrictionalHeating(physics, tauc, mask, vel) == -(t.u * vel.u + t.v * vel.v)
  {
  }

  // ---------------------------------------------------------------------------
  // The loops over the grid.
  // ---------------------------------------------------------------------------

  /** The five-point star at (i, j), with neighbours across the edges of the periodic grid. */
  function StarAt<T>(a: array2<T>, i: int, j: int): Star<T>
    requires 0 <= i < a.Length0 && 0 <= j < a.Length1
    reads a
  {
    var mx, my := a.Length0, a.Length1;
    Star(a[i, j], a[(i + 1) % mx, j], a[(i - 1) % mx, j], a[i, (j + 1) % my], a[i, (j - 1) % my])
  }

  predicate SameGrid<S, T>(a: array2<S>, b: array2<T>) {
    a.Length0 == b.Length0 && a.Length1 == b.Length1
  }

  /** compute_basal_frictional_heating over the grid. */
  method ComputeBasalFrictionalHeating(physics: Physics, velocity: array2<Vector2>, tauc: array2<real>,
                                       mask: array2<int>, result: array2<real>)
    requires SameGrid(velocity, tauc) && SameGrid(velocity, mask) && SameGrid(velocity, result)
    requires result != tauc
    modifies result
    ensures forall i, j :: 0 <= i < result.Length0 && 0 <= j < result.Length1 ==>
              result[i, j] == FrictionalHeating(physics, tauc[i, j], mask[i, j], velocity[i, j])
  {
    var i := 0;
    while i < result.Length0
      invariant 0 <= i <= result.Length0
      invariant forall p, q :: 0 <= p < i && 0 <= q < result.Length1 ==>
                  result[p, q] == FrictionalHeating(physics, tauc[p, q], mask[p, q], velocity[p, q])
    {
      var j := 0;
      while j < result.Length1
        invariant 0 <= j <= result.Length1
        invariant forall p, q :: 0 <= p < i && 0 <= q < result.Length1 ==>
                    result[p, q] == FrictionalHeating(physics, tauc[p, q], mask[p, q], velocity[p, q])
        invariant forall q :: 0 <= q < j ==>
                    result[i, q] == FrictionalHeating(physics, tauc[i, q], mask[i, q], velocity[i, q])
      {
        result[i, j] := FrictionalHeating(physics, tauc[i, j], mask[i, j], velocity[i, j]);
        j := j + 1;
      }
      i := i + 1;
    }
  }

  /**
   * compute_2D_principal_strain_rates: fails, writing nothing, unless the result has
   * two components per cell; otherwise fills both with the cell's principal rates.
   */
  method ComputePrincipalStrainRates(physics: Physics, velocity: array2<Vector2>, mask: array2<int>,
                                     dx: real, dy: real, result: array3<real>)
    returns (status: Status)
    requires SameGrid(velocity, mask) && result.Length0 == mask.Length0 && result.Length1 == mask.Length1
    requires dx > 0.0 && dy > 0.0
    modifies result
    ensures status.Error? <==> result.Length2 != 2
    ensures status.Error? ==> unchanged(result)
    ensures status.Ok? ==>
              forall i, j :: 0 <= i < result.Length0 && 0 <= j < result.Length1 ==>
                (result[i, j, 0], result[i, j, 1]) ==
                PrincipalCell(StarAt(mask, i, j), StarAt(velocity, i, j), dx, dy, physics.sqrt)
  {
    if result.Length2 != 2 {
      return Error("result.dof() == 2 is required");
    }
    var i := 0;
    while i < result.Length0
      invariant 0 <= i <= result.Length0
      invariant forall p, q :: 0 <= p < i && 0 <= q < result.Length1 ==>
                  (result[p, q, 0], result[p, q, 1]) ==
                  PrincipalCell(StarAt(mask, p, q), StarAt(velocity, p, q), dx, dy, physics.sqrt)
    {
      var j := 0;
      while j < result.Length1
        invariant 0 <= j <= result.Length1
        invariant forall p, q :: 0 <= p < i && 0 <= q < result.Length1 ==>
                    (result[p, q, 0], result[p, q, 1]) ==
                    PrincipalCell(StarAt(mask, p, q), StarAt(velocity, p, q), dx, dy, physics.sqrt)
        invariant forall q :: 0 <= q < j ==>
                    (result[i, q, 0], result[i, q, 1]) ==
                    PrincipalCell(StarAt(mask, i, q), StarAt(velocity, i, q), dx, dy, physics.sqrt)
      {
        var r := PrincipalCell(StarAt(mask, i, j), StarAt(velocity, i, j), dx, dy, physics.sqrt);
        result[i, j, 0] := r.0;
        result[i, j, 1] := r.1;
        j := j + 1;
      }
      i := i + 1;
    }
    return Ok;
  }

  /**
   * compute_2D_stresses: fails, writing nothing, unless the result has three
   * components per cell; otherwise fills them with the cell's deviatoric stresses.
   */
  method ComputeStresses(physics: Physics, hardness: real, velocity: array2<Vector2>, mask: array2<int>,
                         dx: real, dy: real, result: array3<real>)
    returns (status: Status)
    requires SameGrid(velocity, mask) && result.Length0 == mask.Length0 && result.Length1 == mask.Length1
    requires dx > 0.0 && dy > 0.0
    modifies result
    ensures status.Error? <==> result.Length2 != 3
    ensures status.Error? ==> unchanged(result)
    ensures status.Ok? ==>
              forall i, j :: 0 <= i < result.Length0 && 0 <= j < result.Length1 ==>
                (result[i, j, 0], result[i, j, 1], result[i, j, 2]) ==
                StressCell(physics, hardness, StarAt(mask, i, j), StarAt(velocity, i, j), dx, dy)
  {
    if result.Length2 != 3 {
      return Error("result.get_dof() == 3 is required");
    }
    var i := 0;
    while i < result.Length0
      invariant 0 <= i <= result.Length0
      invariant forall p, q :: 0 <= p < i && 0 <= q < result.Length1 ==>
                  (result[p, q, 0], result[p, q, 1], result[p, q, 2]) ==
                  StressCell(physics, hardness, StarAt(mask, p, q), StarAt(velocity, p, q), dx, dy)
    {
      var j := 0;
      while j < result.Length1
        invariant 0 <= j <= result.Length1
        invariant forall p, q :: 0 <= p < i && 0 <= q < result.Length1 ==>
                    (result[p, q, 0], result[p, q, 1], result[p, q, 2]) ==
                    StressCell(physics, hardness, StarAt(mask, p, q), StarAt(velocity, p, q), dx, dy)
        invariant forall q :: 0 <= q < j ==>
                    (result[i, q, 0], result[i, q, 1], result[i, q, 2]) ==
                    StressCell(physics, hardness, StarAt(mask, i, q), StarAt(velocity, i, q), dx, dy)
      {
        var r := StressCell(physics, hardness, StarAt(mask, i, j), StarAt(velocity, i, j), dx, dy);
        result[i, j, 0] := r.0;
        result[i, j, 1] := r.1;
        result[i, j, 2] := r.2;
        j := j + 1;
      }
      i := i + 1;
    }
    return Ok;
  }

  /** SSB_taud::compute: a new field with the driving stress of every cell. */
  method ComputeDrivingStress(iceDensity: real, gravity: real, thickness: array2<real>, slope: array2<Vector2>)
    returns (result: array2<Vector2>)
    requires SameGrid(thickness, slope)
    ensures fresh(result) && SameGrid(result, thickness)
    ensures forall i, j :: 0 <= i < result.Length0 && 0 <= j < result.Length1 ==>
              result[i, j] == DrivingStress(iceDensity, gravity, thickness[i, j], slope[i, j])
  {
    result := new Vector2[thickness.Length0, thickness.Length1];
    var i := 0;
    while i < result.Length0
      invariant 0 <= i <= result.Length0
      invariant forall p, q :: 0 <= p < i && 0 <= q < result.Length1 ==>
                  result[p, q] == DrivingStress(iceDensity, gravity, thickness[p, q], slope[p, q])
    {
      var j := 0;
      while j < result.Length1
        invariant 0 <= j <= result.Length1
        invariant forall p, q :: 0 <= p < i && 0 <= q < result.Length1 ==>
                    result[p, q] == DrivingStress(iceDensity, gravity, thickness[p, q], slope[p, q])
        invariant forall q :: 0 <= q < j ==>
                    result[i, q] == DrivingStress(iceDensity, gravity, thickness[i, q], slope[i, q])
      {
        result[i, j] := DrivingStress(iceDensity, gravity, thickness[i, j], slope[i, j]);
        j := j + 1;
      }
      i := i + 1;
    }
  }

  /** SSB_taub::compute: a new field with the basal shear stress of every cell. */
  method ComputeBasalStress(physics: Physics, velocity: array2<Vector2>, tauc: array2<real>, mask: array2<int>)
    returns (result: array2<Vector2>)
    requires SameGrid(velocity, tauc) && SameGrid(velocity, mask)
    ensures fresh(result) && SameGrid(result, velocity)
    ensures forall i, j :: 0 <= i < result.Length0 && 0 <= j < result.Length1 ==>
              result[i, j] == BasalStress(physics, tauc[i, j], mask[i, j], velocity[i, j])
  {
    result := new Vector2[velocity.Length0, velocity.Length1];
    var i := 0;
    while i < result.Length0
      invariant 0 <= i <= result.Length0
      invariant forall p, q :: 0 <= p < i && 0 <= q < result.Length1 ==>
                  result[p, q] == BasalStress(physics, tauc[p, q], mask[p, q], velocity[p, q])
    {
      var j := 0;
      while j < result.Length1
        invariant 0 <= j <= result.Length1
        invariant forall p, q :: 0 <= p < i && 0 <= q < result.Length1 ==>
                    result[p, q] == BasalStress(physics, tauc[p, q], mask[p, q], velocity[p, q])
        invariant forall q :: 0 <= q < j ==>
                    result[i, q] == BasalStress(physics, tauc[i, q], mask[i, q], velocity[i, q])
      {
        result[i, j] := BasalStress(physics, tauc[i, j], mask[i, j], velocity[i, j]);
        j := j + 1;
      }
      i := i + 1;
    }
  }

  /** SSB_beta::compute: a new field with the basal drag coefficient of every cell. */
  method ComputeBasalDrag(physics: Physics, velocity: array2<Vector2>, tauc: array2<real>)
    returns (result: array2<real>)
    requires SameGrid(velocity, tauc)
    ensures fresh(result) && SameGrid(result, velocity)
    ensures forall i, j :: 0 <= i < result.Length0 && 0 <= j < result.Length1 ==>
              result[i, j] == BasalDrag(physics, tauc[i, j], velocity[i, j])
  {
    result := new real[velocity.Length0, velocity.Length1];
    var i := 0;
    while i < result.Length0
      invariant 0 <= i <= result.Length0
      invariant forall p, q :: 0 <= p < i && 0 <= q < result.Length1 ==>
                  result[p, q] == BasalDrag(physics, tauc[p, q], velocity[p, q])
    {
      var j := 0;
      while j < result.Length1
        invariant 0 <= j <= result.Length1
        invariant forall p, q :: 0 <= p < i && 0 <= q < result.Length1 ==>
                    result[p, q] == BasalDrag(physics, tauc[p, q], velocity[p, q])
        invariant forall q :: 0 <= q < j ==> result[i, q] == BasalDrag(physics, tauc[i, q], velocity[i, q])
      {
        result[i, j] := BasalDrag(physics, tauc[i, j], velocity[i, j]);
        j := j + 1;
      }
      i := i + 1;
    }
  }

  /** IceModelVec::set: every cell of the field becomes x. */
  method SetAll<T>(a: array2<T>, x: T)
    modifies a
    ensures forall i, j :: 0 <= i < a.Length0 && 0 <= j < a.Length1 ==> a[i, j] == x
  {
    var i := 0;
    while i < a.Length0
      invariant 0 <= i <= a.Length0
      invariant forall p, q :: 0 <= p < i && 0 <= q < a.Length1 ==> a[p, q] == x
    {
      var j := 0;
      while j < a.Length1
        invariant 0 <= j <= a.Length1
        invariant forall p, q :: 0 <= p < i && 0 <= q < a.Length1 ==> a[p, q] == x
        invariant forall q :: 0 <= q < j ==> a[i, q] == x
      {
        a[i, j] := x;
        j := j + 1;
      }
      i := i + 1;
    }
  }

  /** The stress balance that holds the sliding velocity at zero. */
  class ZeroSliding {
    const velocity: array2<Vector2>
    const basalFrictionalHeating: array2<real>

    constructor(mx: nat, my: nat)
      ensures velocity.Length0 == mx && velocity.Length1 == my
      ensures basalFrictionalHeating.Length0 == mx && basalFrictionalHeating.Length1 == my
      ensures fresh(velocity) && fresh(basalFrictionalHeating)
    {
      velocity := new Vector2[mx, my];
      basalFrictionalHeating := new real[mx, my];
    }

    /** A full update zeroes velocity and heating; a fast one leaves both as they are. */
    method Update(fast: bool)
      modifies velocity, basalFrictionalHeating
      ensures fast ==> unchanged(velocity) && unchanged(basalFrictionalHeating)
      ensures !fast ==>
                (forall i, j :: 0 <= i < velocity.Length0 && 0 <= j < velocity.Length1 ==>
                   velocity[i, j] == Vector2(0.0, 0.0)) &&
                (forall i, j :: 0 <= i < basalFrictionalHeating.Length0 && 0 <= j < basalFrictionalHeating.Length1 ==>
                   basalFrictionalHeating[i, j] == 0.0)
    {
      if !fast {
        SetAll(velocity, Vector2(0.0, 0.0));
        SetAll(basalFrictionalHeating, 0.0);
      }
    }
  }

  /** The stress balance whose sliding velocity is read once and then held. */
  class PrescribedSliding {
    const velocity: array2<Vector2>
    const basalFrictionalHeating: array2<real>

    constructor(mx: nat, my: nat)
      ensures velocity.Length0 == mx && velocity.Length1 == my
      ensures basalFrictionalHeating.Length0 == mx && basalFrictionalHeating.Length1 == my
      ensures fresh(velocity) && fresh(basalFrictionalHeating)
    {
      velocity := new Vector2[mx, my];
      basalFrictionalHeating := new real[mx, my];
    }

    /** A full update zeroes the heating and never touches the prescribed velocity. */
    method Update(fast: bool)
      modifies basalFrictionalHeating
      ensures unchanged(velocity)
      ensures fast ==> unchanged(basalFrictionalHeating)
      ensures !fast ==>
                forall i, j :: 0 <= i < basalFrictionalHeating.Length0 && 0 <= j < basalFrictionalHeating.Length1 ==>
                  basalFrictionalHeating[i, j] == 0.0
    {
      if !fast {
        SetAll(basalFrictionalHeating, 0.0);
      }
    }
  }
}
