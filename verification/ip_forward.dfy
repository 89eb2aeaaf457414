/**
 * The forward problem of the inversion for vertically averaged ice hardness.
 *
 * The design variable zeta parameterises the hardness B(zeta).  Its linearisation
 * needs two Jacobians of the SSA residual: J_state, assembled lazily as a matrix
 * and only rebuilt after the design changes, and J_design, applied matrix-free by a
 * loop over the finite elements that first zeroes its output and then scatter-adds
 * each element's contribution at the element's nodes.
 *
 * Fields are vectors over the nodes 0 .. N-1 of the grid.  Each element lists its
 * four nodes.  The finite element machinery (quadrature weights, test function
 * values, interpolation of nodal values to quadrature points) and the physics
 * (effective viscosity, second invariant, the hardness parameterisation) are given
 * functions; assembling J_state and the two linear solves are opaque operations.
 */
module InverseForward {

  /** Nodes per element: the four corners of a Q1 element. */
  const NK: nat := 4

  datatype Vector2 = Vector2(u: real, v: real)

  const ZERO: Vector2 := Vector2(0.0, 0.0)

  function Add(a: Vector2, b: Vector2): Vector2 {
    Vector2(a.u + b.u, a.v + b.v)
  }

  function AddReal(a: real, b: real): real {
    a + b
  }

  function Neg(a: Vector2): Vector2 {
    Vector2(- a.u, - a.v)
  }

  datatype Option<T> = None | Some(value: T)

  /** Value and derivatives of one test function at one quadrature point. */
  datatype Germ = Germ(val: real, dx: real, dy: real)

  datatype Fem = Fem(
    weights: seq<real>,                              // Jacobian times quadrature weight, per point
    test: seq<seq<Germ>>,                            // test[q][k]
    interpolate: (seq<real>, nat) -> real,           // nodal scalars -> value at point q
    gradient: (seq<Vector2>, nat) -> (Vector2, Vector2)) // nodal vectors -> (d/dx, d/dy) at point q

  datatype Physics = Physics(
    viscosity: (real, real) -> real,                 // (hardness, second invariant) -> effective viscosity
    secondInvariant: (Vector2, Vector2) -> real,     // (U_x, U_y) -> second invariant of the strain rate
    hardnessOf: real -> real,                        // zeta -> B(zeta)
    hardnessSlope: real -> real,                     // zeta -> dB/dzeta
    minThickness: real)                              // thinner ice carries no stress

  /** Dirichlet boundary data of the velocity: where it is prescribed, and to what. */
  datatype Dirichlet = Dirichlet(mask: seq<bool>, values: seq<Vector2>)

  datatype Problem = Problem(
    elements: seq<seq<nat>>,      // the nodes of each element
    fem: Fem,
    physics: Physics,
    thickness: seq<real>,         // ice thickness coefficient at each node
    bc: Option<Dirichlet>,        // velocity Dirichlet data, if any
    fixed: Option<seq<bool>>)     // design locations that are not to change, if any

  /** The problem's data fit a grid of n nodes. */
  predicate Fits(p: Problem, n: nat) {
    |p.thickness| == n &&
    (forall e :: 0 <= e < |p.elements| ==> |p.elements[e]| == NK) &&
    (forall e, k :: 0 <= e < |p.elements| && 0 <= k < |p.elements[e]| ==> p.elements[e][k] < n) &&
    |p.fem.test| == |p.fem.weights| &&
    (forall q :: 0 <= q < |p.fem.test| ==> |p.fem.test[q]| == NK) &&
    (p.bc.Some? ==> |p.bc.value.mask| == n && |p.bc.value.values| == n) &&
    (p.fixed.Some? ==> |p.fixed.value| == n)
  }

  predicate IsDirichlet(p: Problem, node: nat)
    requires p.bc.Some? ==> node < |p.bc.value.mask|
  {
    p.bc.Some? && p.bc.value.mask[node]
  }

  predicate IsFixed(p: Problem, node: nat)
    requires p.fixed.Some? ==> node < |p.fixed.value|
  {
    p.fixed.Some? && p.fixed.value[node]
  }

  // ---------------------------------------------------------------------------
  // Element-local quantities.
  // ---------------------------------------------------------------------------

  /** The element's nodal velocities with the Dirichlet values put in. */
  function NodalVelocity(p: Problem, u: seq<Vector2>, nodes: seq<nat>): (r: seq<Vector2>)
    requires Fits(p, |u|) && |nodes| == NK && forall k :: 0 <= k < NK ==> nodes[k] < |u|
    ensures |r| == NK
  {
    seq(NK, k requires 0 <= k < NK =>
      if IsDirichlet(p, nodes[k]) then p.bc.value.values[nodes[k]] else u[nodes[k]])
  }

  /** The element's nodal perturbation of zeta, 0 at fixed design locations. */
  function NodalDesignPerturbation(p: Problem, dzeta: seq<real>, nodes: seq<nat>): (r: seq<real>)
    requires Fits(p, |dzeta|) && |nodes| == NK && forall k :: 0 <= k < NK ==> nodes[k] < |dzeta|
    ensures |r| == NK
  {
    seq(NK, k requires 0 <= k < NK => if IsFixed(p, nodes[k]) then 0.0 else dzeta[nodes[k]])
  }

  /** The element's nodal perturbation of the state, 0 at Dirichlet nodes. */
  function NodalStatePerturbation(p: Problem, du: seq<Vector2>, nodes: seq<nat>): (r: seq<Vector2>)
    requires Fits(p, |du|) && |nodes| == NK && forall k :: 0 <= k < NK ==> nodes[k] < |du|
    ensures |r| == NK
  {
    seq(NK, k requires 0 <= k < NK => if IsDirichlet(p, nodes[k]) then ZERO else du[nodes[k]])
  }

  function Gather(a: seq<real>, nodes: seq<nat>): (r: seq<real>)
    requires forall k :: 0 <= k < |nodes| ==> nodes[k] < |a|
    ensures |r| == |nodes|
  {
    seq(|nodes|, k requires 0 <= k < |nodes| => a[nodes[k]])
  }

  /** What the design Jacobian reads at the nodes of one element. */
  datatype DesignInputs = DesignInputs(velocity: seq<Vector2>, hardnessChange: seq<real>, thickness: seq<real>)

  /** What the transposed design Jacobian reads at the nodes of one element. */
  datatype TransposeInputs = TransposeInputs(velocity: seq<Vector2>, stateChange: seq<Vector2>, thickness: seq<real>)

  /**
   * The nodal inputs of the design Jacobian: velocities with Dirichlet values, the
   * change of hardness dB/dzeta * dzeta (0 at fixed locations), the thickness.
   */
  function ElementDesignInputs(p: Problem, u: seq<Vector2>, zeta: seq<real>, dzeta: seq<real>, nodes: seq<nat>): DesignInputs
    requires Fits(p, |u|) && |zeta| == |dzeta| == |u|
    requires |nodes| == NK && forall k :: 0 <= k < NK ==> nodes[k] < |u|
  {
    var dzetaE := NodalDesignPerturbation(p, dzeta, nodes);
    DesignInputs(
      NodalVelocity(p, u, nodes),
      seq(NK, k requires 0 <= k < NK => p.physics.hardnessSlope(zeta[nodes[k]]) * dzetaE[k]),
      Gather(p.thickness, nodes))
  }

  function ElementTransposeInputs(p: Problem, u: seq<Vector2>, du: seq<Vector2>, nodes: seq<nat>): TransposeInputs
    requires Fits(p, |u|) && |du| == |u|
    requires |nodes| == NK && forall k :: 0 <= k < NK ==> nodes[k] < |u|
  {
    TransposeInputs(NodalVelocity(p, u, nodes), NodalStatePerturbation(p, du, nodes), Gather(p.thickness, nodes))
  }

  /** Symmetric part of the velocity gradient: (D_xx, D_yy, D_xy). */
  datatype SymGradient = SymGradient(xx: real, yy: real, xy: real)

  function SymmetricGradient(ux: Vector2, uy: Vector2): SymGradient {
    SymGradient(ux.u, uy.v, 0.5 * (uy.u + ux.v))
  }

  /**
   * Twice the thickness times the viscosity for hardness b, or 0 where the ice is
   * thinner than the minimum thickness.
   */
  function ViscosityFactor(physics: Physics, b: real, ux: Vector2, uy: Vector2, thickness: real): real {
    if thickness >= physics.minThickness then
      physics.viscosity(b, physics.secondInvariant(ux, uy)) * (2.0 * thickness)
    else 0.0
  }

  /** The contribution of quadrature point q to node k of the design Jacobian. */
  function DesignTerm(fem: Fem, physics: Physics, inp: DesignInputs, q: nat, k: nat): Vector2
    requires q < |fem.weights| == |fem.test| && k < |fem.test[q]|
  {
    var g := fem.gradient(inp.velocity, q);
    var D := SymmetricGradient(g.0, g.1);
    var factor := ViscosityFactor(physics, fem.interpolate(inp.hardnessChange, q), g.0, g.1,
                                  fem.interpolate(inp.thickness, q));
    var t := fem.test[q][k];
    var w := fem.weights[q];
    Vector2(w * factor * (t.dx * (2.0 * D.xx + D.yy) + t.dy * D.xy),
            w * factor * (t.dy * (2.0 * D.yy + D.xx) + t.dx * D.xy))
  }

  /** The contribution of quadrature point q to node k of the transposed design Jacobian. */
  function TransposeTerm(fem: Fem, physics: Physics, inp: TransposeInputs, q: nat, k: nat): real
    requires q < |fem.weights| == |fem.test| && k < |fem.test[q]|
  {
    var g := fem.gradient(inp.velocity, q);
    var D := SymmetricGradient(g.0, g.1);
    var dg := fem.gradient(inp.stateChange, q);
    var factor := ViscosityFactor(physics, 1.0, g.0, g.1, fem.interpolate(inp.thickness, q));
    fem.weights[q] * factor * fem.test[q][k].val *
      ((dg.0.u * (2.0 * D.xx + D.yy) + dg.1.u * D.xy) + (dg.1.v * (2.0 * D.yy + D.xx) + dg.0.v * D.xy))
  }

  predicate Shaped(fem: Fem) {
    |fem.test| == |fem.weights| && forall q :: 0 <= q < |fem.test| ==> |fem.test[q]| == NK
  }

  /** The design Jacobian's element vector at node k, summed over the first q quadrature points. */
  function DesignSum(fem: Fem, physics: Physics, inp: DesignInputs, q: nat, k: nat): Vector2
    requires Shaped(fem) && q <= |fem.weights| && k < NK
  {
    if q == 0 then ZERO else Add(DesignSum(fem, physics, inp, q - 1, k), DesignTerm(fem, physics, inp, q - 1, k))
  }

  function TransposeSum(fem: Fem, physics: Physics, inp: TransposeInputs, q: nat, k: nat): real
    requires Shaped(fem) && q <= |fem.weights| && k < NK
  {
    if q == 0 then 0.0 else TransposeSum(fem, physics, inp, q - 1, k) + TransposeTerm(fem, physics, inp, q - 1, k)
  }

  /** Every quadrature point of the element lies in ice thinner than the minimum thickness. */
  predicate AllThin(fem: Fem, physics: Physics, nodalThickness: seq<real>) {
    forall q :: 0 <= q < |fem.weights| ==> fem.interpolate(nodalThickness, q) < physics.minThickness
  }

  /** An element whose quadrature points are all too thin contributes exactly 0 to the design Jacobian. */
  lemma {:induction false} ThinElementDesignSum(fem: Fem, physics: Physics, inp: DesignInputs, q: nat, k: nat)
    requires Shaped(fem) && q <= |fem.weights| && k < NK
    requires AllThin(fem, physics, inp.thickness)
    ensures DesignSum(fem, physics, inp, q, k) == ZERO
  {
    if q > 0 {
      ThinElementDesignSum(fem, physics, inp, q - 1, k);
      assert fem.interpolate(inp.thickness, q - 1) < physics.minThickness;
    }
  }

  /** ... and exactly 0 to the transposed design Jacobian. */
  lemma {:induction false} ThinElementTransposeSum(fem: Fem, physics: Physics, inp: TransposeInputs, q: nat, k: nat)
    requires Shaped(fem) && q <= |fem.weights| && k < NK
    requires AllThin(fem, physics, inp.thickness)
    ensures TransposeSum(fem, physics, inp, q, k) == 0.0
  {
    if q > 0 {
      ThinElementTransposeSum(fem, physics, inp, q - 1, k);
      assert fem.interpolate(inp.thickness, q - 1) < physics.minThickness;
    }
  }

  /** The element loop over quadrature points and nodes of apply_jacobian_design. */
  method ElementDesign(fem: Fem, physics: Physics, inp: DesignInputs) returns (duE: seq<Vector2>)
    requires Shaped(fem)
    ensures |duE| == NK
    ensures forall k :: 0 <= k < NK ==> duE[k] == DesignSum(fem, physics, inp, |fem.weights|, k)
  {
    duE := [ZERO, ZERO, ZERO, ZERO];
    var q := 0;
    while q < |fem.weights|
      invariant q <= |fem.weights| && |duE| == NK
      invariant forall k :: 0 <= k < NK ==> duE[k] == DesignSum(fem, physics, inp, q, k)
    {
      var k := 0;
      while k < NK
        invariant k <= NK && |duE| == NK
        invariant forall k' :: 0 <= k' < NK ==> duE[k'] == DesignSum(fem, physics, inp, if k' < k then q + 1 else q, k')
      {
        duE := duE[k := Add(duE[k], DesignTerm(fem, physics, inp, q, k))];
        k := k + 1;
      }
      q := q + 1;
    }
  }

  /** The element loop over quadrature points and nodes of apply_jacobian_design_transpose. */
  method ElementTranspose(fem: Fem, physics: Physics, inp: TransposeInputs) returns (dzetaE: seq<real>)
    requires Shaped(fem)
    ensures |dzetaE| == NK
    ensures forall k :: 0 <= k < NK ==> dzetaE[k] == TransposeSum(fem, physics, inp, |fem.weights|, k)
  {
    dzetaE := [0.0, 0.0, 0.0, 0.0];
    var q := 0;
    while q < |fem.weights|
      invariant q <= |fem.weights| && |dzetaE| == NK
      invariant forall k :: 0 <= k < NK ==> dzetaE[k] == TransposeSum(fem, physics, inp, q, k)
    {
      var k := 0;
      while k < NK
        invariant k <= NK && |dzetaE| == NK
        invariant forall k' :: 0 <= k' < NK ==>
                    dzetaE[k'] == TransposeSum(fem, physics, inp, if k' < k then q + 1 else q, k')
      {
        dzetaE := dzetaE[k := dzetaE[k] + TransposeTerm(fem, physics, inp, q, k)];
        k := k + 1;
      }
      q := q + 1;
    }
  }

  // ---------------------------------------------------------------------------
  // Scatter-add over the elements.
  // ---------------------------------------------------------------------------

  predicate ScatterShaped<T>(nodes: seq<seq<nat>>, contrib: seq<seq<T>>) {
    |contrib| == |nodes| && forall e :: 0 <= e < |nodes| ==> |nodes[e]| == NK && |contrib[e]| == NK
  }

  /**
   * The value at node n after zeroing and adding, in loop order, the contributions of
   * the elements before e and of the first k nodes of element e.
   */
  function Scatter<T>(add: (T, T) -> T, zero: T, nodes: seq<seq<nat>>, contrib: seq<seq<T>>, e: nat, k: nat, n: nat): T
    requires ScatterShaped(nodes, contrib) && e <= |nodes| && k <= NK && (k > 0 ==> e < |nodes|)
    decreases e, k
  {
    if k > 0 then
      var prev := Scatter(add, zero, nodes, contrib, e, k - 1, n);
      if nodes[e][k - 1] == n then add(prev, contrib[e][k - 1]) else prev
    else if e > 0 then Scatter(add, zero, nodes, contrib, e - 1, NK, n)
    else zero
  }

  // ---------------------------------------------------------------------------
  // The two design Jacobian applies.
  // ---------------------------------------------------------------------------

  /** Every element's contribution to the design Jacobian applied to dzeta. */
  function DesignContributions(p: Problem, u: seq<Vector2>, zeta: seq<real>, dzeta: seq<real>): (c: seq<seq<Vector2>>)
    requires Fits(p, |u|) && |zeta| == |dzeta| == |u|
    ensures ScatterShaped(p.elements, c)
  {
    seq(|p.elements|, e requires 0 <= e < |p.elements| =>
      var inp := ElementDesignInputs(p, u, zeta, dzeta, p.elements[e]);
      seq(NK, k requires 0 <= k < NK => DesignSum(p.fem, p.physics, inp, |p.fem.weights|, k)))
  }

  function TransposeContributions(p: Problem, u: seq<Vector2>, du: seq<Vector2>): (c: seq<seq<real>>)
    requires Fits(p, |u|) && |du| == |u|
    ensures ScatterShaped(p.elements, c)
  {
    seq(|p.elements|, e requires 0 <= e < |p.elements| =>
      var inp := ElementTransposeInputs(p, u, du, p.elements[e]);
      seq(NK, k requires 0 <= k < NK => TransposeSum(p.fem, p.physics, inp, |p.fem.weights|, k)))
  }

  /**
   * J_design applied to dzeta at velocity u: the scatter-added element vectors, with
   * the Dirichlet nodes set to 0.
   */
  function JacobianDesign(p: Problem, u: seq<Vector2>, zeta: seq<real>, dzeta: seq<real>): (r: seq<Vector2>)
    requires Fits(p, |u|) && |zeta| == |dzeta| == |u|
    ensures |r| == |u|
  {
    var c := DesignContributions(p, u, zeta, dzeta);
    seq(|u|, n requires 0 <= n < |u| =>
      if IsDirichlet(p, n) then ZERO else Scatter(Add, ZERO, p.elements, c, |p.elements|, 0, n))
  }

  /**
   * The transpose of J_design applied to du: the scatter-added element values times
   * dB/dzeta at the node, with the fixed design locations set to 0.
   */
  function JacobianDesignTranspose(p: Problem, u: seq<Vector2>, zeta: seq<real>, du: seq<Vector2>): (r: seq<real>)
    requires Fits(p, |u|) && |zeta| == |du| == |u|
    ensures |r| == |u|
  {
    var c := TransposeContributions(p, u, du);
    seq(|u|, n requires 0 <= n < |u| =>
      if IsFixed(p, n) then 0.0
      else Scatter(AddReal, 0.0, p.elements, c, |p.elements|, 0, n) * p.physics.hardnessSlope(zeta[n]))
  }

  /** add_residual_contribution: adds element e's vector at the element's nodes. */
  method ScatterElement<T>(add: (T, T) -> T, zero: T, nodes: seq<seq<nat>>, ghost contrib: seq<seq<T>>, e: nat,
                           row: seq<T>, out: array<T>)
    requires ScatterShaped(nodes, contrib) && e < |nodes| && row == contrib[e]
    requires forall e', k :: 0 <= e' < |nodes| && 0 <= k < NK ==> nodes[e'][k] < out.Length
    requires forall n :: 0 <= n < out.Length ==> out[n] == Scatter(add, zero, nodes, contrib, e, 0, n)
    modifies out
    ensures forall n :: 0 <= n < out.Length ==> out[n] == Scatter(add, zero, nodes, contrib, e + 1, 0, n)
  {
    var k := 0;
    while k < NK
      invariant k <= NK
      invariant forall n :: 0 <= n < out.Length ==> out[n] == Scatter(add, zero, nodes, contrib, e, k, n)
    {
      out[nodes[e][k]] := add(out[nodes[e][k]], row[k]);
      k := k + 1;
    }
  }

  /**
   * apply_jacobian_design: zeroes the whole output, scatter-adds the element vectors,
   * then zeroes the Dirichlet nodes.  Nothing of the output's earlier contents remains.
   */
  method ApplyJacobianDesign(p: Problem, u: seq<Vector2>, zeta: seq<real>, dzeta: seq<real>, du: array<Vector2>)
    requires Fits(p, du.Length) && |u| == |zeta| == |dzeta| == du.Length
    modifies du
    ensures du[..] == JacobianDesign(p, u, zeta, dzeta)
  {
    ScatterDesign(p, u, zeta, dzeta, du);
    if p.bc.Some? {
      ZeroDirichlet(p, du);
    }
    ghost var r := JacobianDesign(p, u, zeta, dzeta);
    assert forall n :: 0 <= n < du.Length ==> du[n] == r[n];
  }

  /** The zeroing and the element loop of apply_jacobian_design. */
  method ScatterDesign(p: Problem, u: seq<Vector2>, zeta: seq<real>, dzeta: seq<real>, du: array<Vector2>)
    requires Fits(p, du.Length) && |u| == |zeta| == |dzeta| == du.Length
    modifies du
    ensures forall n :: 0 <= n < du.Length ==>
              du[n] == Scatter(Add, ZERO, p.elements, DesignContributions(p, u, zeta, dzeta), |p.elements|, 0, n)
  {
    Fill(du, ZERO);
    ghost var c := DesignContributions(p, u, zeta, dzeta);
    var e := 0;
    while e < |p.elements|
      invariant e <= |p.elements|
      invariant forall n :: 0 <= n < du.Length ==> du[n] == Scatter(Add, ZERO, p.elements, c, e, 0, n)
    {
      var duE := ElementDesign(p.fem, p.physics, ElementDesignInputs(p, u, zeta, dzeta, p.elements[e]));
      assert duE == c[e];
      ScatterElement(Add, ZERO, p.elements, c, e, duE, du);
      e := e + 1;
    }
  }

  /**
   * apply_jacobian_design_transpose: zeroes the whole output, scatter-adds the element
   * values, multiplies each entry by dB/dzeta there, then zeroes the fixed locations.
   */
  method ApplyJacobianDesignTranspose(p: Problem, u: seq<Vector2>, zeta: seq<real>, du: seq<Vector2>, dzeta: array<real>)
    requires Fits(p, dzeta.Length) && |u| == |zeta| == |du| == dzeta.Length
    modifies dzeta
    ensures dzeta[..] == JacobianDesignTranspose(p, u, zeta, du)
  {
    ScatterTranspose(p, u, du, dzeta);
    ScaleBySlope(p.physics, zeta, dzeta);
    if p.fixed.Some? {
      ZeroFixed(p, dzeta);
    }
    ghost var r := JacobianDesignTranspose(p, u, zeta, du);
    assert forall n :: 0 <= n < dzeta.Length ==> dzeta[n] == r[n];
  }

  /** The zeroing and the element loop of apply_jacobian_design_transpose. */
  method ScatterTranspose(p: Problem, u: seq<Vector2>, du: seq<Vector2>, dzeta: array<real>)
    requires Fits(p, dzeta.Length) && |u| == |du| == dzeta.Length
    modifies dzeta
    ensures forall n :: 0 <= n < dzeta.Length ==>
              dzeta[n] == Scatter(AddReal, 0.0, p.elements, TransposeContributions(p, u, du), |p.elements|, 0, n)
  {
    Fill(dzeta, 0.0);
    ghost var c := TransposeContributions(p, u, du);
    var e := 0;
    while e < |p.elements|
      invariant e <= |p.elements|
      invariant forall n :: 0 <= n < dzeta.Length ==> dzeta[n] == Scatter(AddReal, 0.0, p.elements, c, e, 0, n)
    {
      var dzetaE := ElementTranspose(p.fem, p.physics, ElementTransposeInputs(p, u, du, p.elements[e]));
      assert dzetaE == c[e];
      ScatterElement(AddReal, 0.0, p.elements, c, e, dzetaE, dzeta);
      e := e + 1;
    }
  }

  /** Multiplies each entry by dB/dzeta at that node. */
  method ScaleBySlope(physics: Physics, zeta: seq<real>, a: array<real>)
    requires |zeta| == a.Length
    modifies a
    ensures forall n :: 0 <= n < a.Length ==> a[n] == old(a[n]) * physics.hardnessSlope(zeta[n])
  {
    var n := 0;
    while n < a.Length
      invariant n <= a.Length
      invariant forall m :: 0 <= m < n ==> a[m] == old(a[m]) * physics.hardnessSlope(zeta[m])
      invariant forall m :: n <= m < a.Length ==> a[m] == old(a[m])
    {
      a[n] := a[n] * physics.hardnessSlope(zeta[n]);
      n := n + 1;
    }
  }

  /**
   * A node whose elements contribute only zeros there keeps the zero it started with
   * (for an addition that has that zero as its right identity).
   */
  lemma {:induction false} ScatterOfZeros<T>(add: (T, T) -> T, zero: T, nodes: seq<seq<nat>>, contrib: seq<seq<T>>,
                                             e: nat, k: nat, n: nat)
    requires ScatterShaped(nodes, contrib) && e <= |nodes| && k <= NK && (k > 0 ==> e < |nodes|)
    requires add(zero, zero) == zero
    requires forall e', k' :: 0 <= e' < |nodes| && 0 <= k' < NK && nodes[e'][k'] == n ==> contrib[e'][k'] == zero
    ensures Scatter(add, zero, nodes, contrib, e, k, n) == zero
    decreases e, k
  {
    if k > 0 {
      ScatterOfZeros(add, zero, nodes, contrib, e, k - 1, n);
    } else if e > 0 {
      ScatterOfZeros(add, zero, nodes, contrib, e - 1, NK, n);
    }
  }

  /**
   * Both applies give exactly 0 at a node that belongs to no element, and at a node
   * all of whose elements lie in ice thinner than the minimum thickness.
   */
  lemma ThinOrUntouchedNodesGetZero(p: Problem, u: seq<Vector2>, zeta: seq<real>, dzeta: seq<real>, du: seq<Vector2>, n: nat)
    requires Fits(p, |u|) && |zeta| == |dzeta| == |du| == |u| && n < |u|
    requires forall e, k :: 0 <= e < |p.elements| && 0 <= k < NK && p.elements[e][k] == n ==>
               AllThin(p.fem, p.physics, Gather(p.thickness, p.elements[e]))
    ensures JacobianDesign(p, u, zeta, dzeta)[n] == ZERO
    ensures JacobianDesignTranspose(p, u, zeta, du)[n] == 0.0
  {
    var c := DesignContributions(p, u, zeta, dzeta);
    var ct := TransposeContributions(p, u, du);
    forall e, k | 0 <= e < |p.elements| && 0 <= k < NK && p.elements[e][k] == n
      ensures c[e][k] == ZERO && ct[e][k] == 0.0
    {
      ThinElementDesignSum(p.fem, p.physics, ElementDesignInputs(p, u, zeta, dzeta, p.elements[e]), |p.fem.weights|, k);
      ThinElementTransposeSum(p.fem, p.physics, ElementTransposeInputs(p, u, du, p.elements[e]), |p.fem.weights|, k);
    }
    ScatterOfZeros(Add, ZERO, p.elements, c, |p.elements|, 0, n);
    ScatterOfZeros(AddReal, 0.0, p.elements, ct, |p.elements|, 0, n);
  }

  /**
   * The design Jacobian ignores the perturbation at fixed design locations: two
   * perturbations that agree elsewhere give the same result.
   */
  lemma DesignIgnoresFixedLocations(p: Problem, u: seq<Vector2>, zeta: seq<real>, d1: seq<real>, d2: seq<real>)
    requires Fits(p, |u|) && |zeta| == |d1| == |d2| == |u|
    requires forall n :: 0 <= n < |u| && !IsFixed(p, n) ==> d1[n] == d2[n]
    ensures JacobianDesign(p, u, zeta, d1) == JacobianDesign(p, u, zeta, d2)
  {
    var c1 := DesignContributions(p, u, zeta, d1);
    var c2 := DesignContributions(p, u, zeta, d2);
    forall e | 0 <= e < |p.elements|
      ensures c1[e] == c2[e]
    {
      var nodes := p.elements[e];
      assert NodalDesignPerturbation(p, d1, nodes) == NodalDesignPerturbation(p, d2, nodes);
      assert ElementDesignInputs(p, u, zeta, d1, nodes) == ElementDesignInputs(p, u, zeta, d2, nodes);
    }
    assert c1 == c2;
  }

  /**
   * The transposed design Jacobian ignores the state perturbation at Dirichlet nodes:
   * two perturbations that agree elsewhere give the same result.
   */
  lemma TransposeIgnoresDirichletNodes(p: Problem, u: seq<Vector2>, zeta: seq<real>, du1: seq<Vector2>, du2: seq<Vector2>)
    requires Fits(p, |u|) && |zeta| == |du1| == |du2| == |u|
    requires forall n :: 0 <= n < |u| && !IsDirichlet(p, n) ==> du1[n] == du2[n]
    ensures JacobianDesignTranspose(p, u, zeta, du1) == JacobianDesignTranspose(p, u, zeta, du2)
  {
    var c1 := TransposeContributions(p, u, du1);
    var c2 := TransposeContributions(p, u, du2);
    forall e | 0 <= e < |p.elements|
      ensures c1[e] == c2[e]
    {
      var nodes := p.elements[e];
      assert NodalStatePerturbation(p, du1, nodes) == NodalStatePerturbation(p, du2, nodes);
      assert ElementTransposeInputs(p, u, du1, nodes) == ElementTransposeInputs(p, u, du2, nodes);
    }
    assert c1 == c2;
  }

  /** Every entry of a becomes x. */
  method Fill<T>(a: array<T>, x: T)
    modifies a
    ensures forall n :: 0 <= n < a.Length ==> a[n] == x
  {
    var n := 0;
    while n < a.Length
      invariant n <= a.Length
      invariant forall m :: 0 <= m < n ==> a[m] == x
    {
      a[n] := x;
      n := n + 1;
    }
  }

  /** fix_residual_homogeneous of the velocity Dirichlet data: 0 at Dirichlet nodes, the rest kept. */
  method ZeroDirichlet(p: Problem, a: array<Vector2>)
    requires Fits(p, a.Length)
    modifies a
    ensures forall n :: 0 <= n < a.Length ==> a[n] == if IsDirichlet(p, n) then ZERO else old(a[n])
  {
    var n := 0;
    while n < a.Length
      invariant n <= a.Length
      invariant forall m :: 0 <= m < n ==> a[m] == if IsDirichlet(p, m) then ZERO else old(a[m])
      invariant forall m :: n <= m < a.Length ==> a[m] == old(a[m])
    {
      if IsDirichlet(p, n) {
        a[n] := ZERO;
      }
      n := n + 1;
    }
  }

  /** fix_residual_homogeneous of the fixed design locations: 0 there, the rest kept. */
  method ZeroFixed(p: Problem, a: array<real>)
    requires Fits(p, a.Length)
    modifies a
    ensures forall n :: 0 <= n < a.Length ==> a[n] == if IsFixed(p, n) then 0.0 else old(a[n])
  {
    var n := 0;
    while n < a.Length
      invariant n <= a.Length
      invariant forall m :: 0 <= m < n ==> a[m] == if IsFixed(p, m) then 0.0 else old(a[m])
      invariant forall m :: n <= m < a.Length ==> a[m] == old(a[m])
    {
      if IsFixed(p, n) {
        a[n] := 0.0;
      }
      n := n + 1;
    }
  }

  // ---------------------------------------------------------------------------
  // The forward problem and its lazily rebuilt state Jacobian.
  // ---------------------------------------------------------------------------

  /** The state Jacobian matrix: not yet assembled, or assembled at a velocity and hardness. */
  datatype Matrix = Unassembled | Assembled(velocity: seq<Vector2>, hardness: seq<real>)

  /** The outcome of a linear or nonlinear solve: its solution and the solver's reason code. */
  datatype SolveResult = SolveResult(solution: seq<Vector2>, reason: int)

  datatype Status = Ok | Error(message: string)

  /** Minus the design Jacobian applied to dzeta: the right-hand side of the linearised solve. */
  function Negated(v: seq<Vector2>): (r: seq<Vector2>)
    ensures |r| == |v|
  {
    seq(|v|, n requires 0 <= n < |v| => Neg(v[n]))
  }

  function NegatedReals(v: seq<real>): (r: seq<real>)
    ensures |r| == |v|
  {
    seq(|v|, n requires 0 <= n < |v| => - v[n])
  }

  /** A state perturbation with its Dirichlet nodes set to 0. */
  function Homogenized(p: Problem, v: seq<Vector2>): (r: seq<Vector2>)
    requires Fits(p, |v|)
    ensures |r| == |v|
  {
    seq(|v|, n requires 0 <= n < |v| => if IsDirichlet(p, n) then ZERO else v[n])
  }

  /** Solutions have as many nodes as right-hand sides. */
  ghost predicate KeepsSize(solve: (Matrix, seq<Vector2>) -> SolveResult, size: nat) {
    forall m: Matrix, b: seq<Vector2> :: |b| == size ==> |solve(m, b).solution| == size
  }

  /** SSA velocities have one value per node. */
  ghost predicate SsaKeepsSize(solve: seq<real> -> SolveResult, size: nat) {
    forall h: seq<real> :: |h| == size ==> |solve(h).solution| == size
  }

  class ForwardProblem {
    const size: nat
    const problem: Problem
    /** The SSA solve at the current coefficients: hardness -> (velocity, reason). */
    const ssaSolve: seq<real> -> SolveResult
    /** The Krylov solve with the state Jacobian: (matrix, right-hand side) -> (solution, reason). */
    const linearSolve: (Matrix, seq<Vector2>) -> SolveResult
    /** The design variable: a reference to the caller's field, not a copy. */
    var zeta: array?<real>
    /** The hardness coefficient at each node. */
    const hardness: array<real>
    /** The SSA velocity. */
    const velocity: array<Vector2>
    /** The work vector of the linearisation. */
    const duGlobal: array<Vector2>
    var rebuildJState: bool
    var jState: Matrix

    ghost predicate Valid()
      reads this, zeta
    {
      Fits(problem, size) && hardness.Length == size && velocity.Length == size && duGlobal.Length == size &&
      velocity != duGlobal && (zeta != null ==> zeta.Length == size && zeta != hardness) &&
      SsaKeepsSize(ssaSolve, size) && KeepsSize(linearSolve, size)
    }

    /** Unless a rebuild is pending, the state Jacobian is the one at the current velocity and hardness. */
    predicate JStateCurrent()
      reads this, velocity, hardness
    {
      !rebuildJState ==> jState == Assembled(velocity[..], hardness[..])
    }

    /** A new forward problem has no design yet and a rebuild of J_state pending. */
    constructor(size: nat, problem: Problem, ssaSolve: seq<real> -> SolveResult,
                linearSolve: (Matrix, seq<Vector2>) -> SolveResult)
      requires Fits(problem, size)
      requires SsaKeepsSize(ssaSolve, size)
      requires KeepsSize(linearSolve, size)
      ensures Valid() && JStateCurrent()
      ensures this.size == size && this.problem == problem
      ensures this.ssaSolve == ssaSolve && this.linearSolve == linearSolve
      ensures zeta == null && rebuildJState && jState == Unassembled
      ensures fresh(hardness) && fresh(velocity) && fresh(duGlobal)
    {
      this.size := size;
      this.problem := problem;
      this.ssaSolve := ssaSolve;
      this.linearSolve := linearSolve;
      zeta := null;
      hardness := new real[size];
      velocity := new Vector2[size];
      duGlobal := new Vector2[size];
      rebuildJState := true;
      jState := Unassembled;
    }

    /**
     * set_design: keeps a reference to newZeta, stores B(zeta) as the hardness of
     * every node and flags J_state for rebuilding; the velocity is not touched.
     */
    method SetDesign(newZeta: array<real>)
      requires Valid() && newZeta.Length == size && newZeta != hardness
      modifies this, hardness
      ensures Valid() && JStateCurrent()
      ensures zeta == newZeta && rebuildJState && jState == old(jState)
      ensures forall n :: 0 <= n < size ==> hardness[n] == problem.physics.hardnessOf(newZeta[n])
    {
      zeta := newZeta;
      var n := 0;
      while n < size
        invariant n <= size && zeta == newZeta && jState == old(jState)
        invariant forall m :: 0 <= m < n ==> hardness[m] == problem.physics.hardnessOf(newZeta[m])
      {
        hardness[n] := problem.physics.hardnessOf(newZeta[n]);
        n := n + 1;
      }
      rebuildJState := true;
    }

    /** linearize_at: set_design, then an SSA solve that stores its velocity. */
    method LinearizeAt(newZeta: array<real>) returns (reason: int)
      requires Valid() && newZeta.Length == size && newZeta != hardness
      modifies this, hardness, velocity
      ensures Valid() && JStateCurrent()
      ensures zeta == newZeta && rebuildJState
      ensures forall n :: 0 <= n < size ==> hardness[n] == problem.physics.hardnessOf(newZeta[n])
      ensures velocity[..] == ssaSolve(hardness[..]).solution
      ensures reason == ssaSolve(hardness[..]).reason
    {
      SetDesign(newZeta);
      var result := ssaSolve(hardness[..]);
      CopyInto(result.solution, velocity);
      reason := result.reason;
    }

    /** Assembles J_state if and only if a rebuild is pending, then clears the flag. */
    method RefreshJState()
      requires Valid() && JStateCurrent()
      modifies this
      ensures Valid() && JStateCurrent() && !rebuildJState
      ensures zeta == old(zeta)
      ensures old(rebuildJState) ==> jState == Assembled(velocity[..], hardness[..])
      ensures !old(rebuildJState) ==> jState == old(jState)
    {
      if rebuildJState {
        jState := Assembled(velocity[..], hardness[..]);
        rebuildJState := false;
      }
    }

    /**
     * apply_linearization: solves J_state du = -(J_design dzeta) at the current velocity
     * and design.  A negative solver reason is an error, and du is then left as it was.
     */
    method ApplyLinearization(dzeta: array<real>, du: array<Vector2>) returns (status: Status)
      requires Valid() && JStateCurrent() && zeta != null
      requires dzeta.Length == size && du.Length == size && du != duGlobal && du != velocity
      modifies this, duGlobal, du
      ensures Valid() && JStateCurrent() && !rebuildJState && zeta == old(zeta)
      ensures jState == Assembled(velocity[..], hardness[..])
      ensures !old(rebuildJState) ==> jState == old(jState)
      ensures var sol := linearSolve(jState, Negated(JacobianDesign(problem, velocity[..], zeta[..], dzeta[..])));
              (status.Ok? <==> sol.reason >= 0) &&
              (status.Ok? ==> du[..] == sol.solution) &&
              (status.Error? ==> du[..] == old(du[..]))
    {
      RefreshJState();
      status := LinearizedSolve(problem, linearSolve, jState, velocity[..], zeta[..], dzeta[..], duGlobal, du);
    }

    /**
     * apply_linearization_transpose: solves with J_state for the state perturbation
     * with its Dirichlet nodes zeroed, applies the transposed design Jacobian to the
     * solution and negates it.  A negative solver reason is an error, and dzeta is then
     * left as it was.
     */
    method ApplyLinearizationTranspose(du: array<Vector2>, dzeta: array<real>) returns (status: Status)
      requires Valid() && JStateCurrent() && zeta != null
      requires du.Length == size && dzeta.Length == size && dzeta != zeta && dzeta != hardness
      modifies this, duGlobal, dzeta
      ensures Valid() && JStateCurrent() && !rebuildJState && zeta == old(zeta)
      ensures jState == Assembled(velocity[..], hardness[..])
      ensures !old(rebuildJState) ==> jState == old(jState)
      ensures var sol := linearSolve(jState, Homogenized(problem, old(du[..])));
              (status.Ok? <==> sol.reason >= 0) &&
              (status.Ok? ==> dzeta[..] == NegatedReals(JacobianDesignTranspose(problem, velocity[..], zeta[..], sol.solution))) &&
              (status.Error? ==> dzeta[..] == old(dzeta[..]))
    {
      RefreshJState();
      status := LinearizedTransposeSolve(problem, linearSolve, jState, velocity[..], zeta[..], du[..], duGlobal, dzeta);
    }
  }

  /**
   * The body of apply_linearization once J_state is current: the work vector gets
   * J_design dzeta, is negated and solved for in place; du gets the solution only
   * when the solver's reason is not negative.
   */
  method LinearizedSolve(p: Problem, linearSolve: (Matrix, seq<Vector2>) -> SolveResult, jState: Matrix,
                         u: seq<Vector2>, zeta: seq<real>, dzeta: seq<real>, work: array<Vector2>, du: array<Vector2>)
    returns (status: Status)
    requires Fits(p, work.Length) && |u| == |zeta| == |dzeta| == work.Length == du.Length && work != du
    requires KeepsSize(linearSolve, work.Length)
    modifies work, du
    ensures var sol := linearSolve(jState, Negated(JacobianDesign(p, u, zeta, dzeta)));
            (status.Ok? <==> sol.reason >= 0) &&
            (status.Ok? ==> du[..] == sol.solution) &&
            (status.Error? ==> du[..] == old(du[..]))
  {
    ApplyJacobianDesign(p, u, zeta, dzeta, work);
    NegateVectors(work);
    var sol := linearSolve(jState, work[..]);
    CopyInto(sol.solution, work);
    if sol.reason < 0 {
      return Error("IP_SSAHardavForwardProblem::apply_linearization solve failed to converge");
    }
    CopyInto(work[..], du);
    return Ok;
  }

  /**
   * The body of apply_linearization_transpose once J_state is current: the work
   * vector gets du with its Dirichlet nodes zeroed and is solved for in place; only
   * when the solver's reason is not negative does dzeta get minus the transposed
   * design Jacobian of the solution.
   */
  method LinearizedTransposeSolve(p: Problem, linearSolve: (Matrix, seq<Vector2>) -> SolveResult, jState: Matrix,
                                  u: seq<Vector2>, zeta: seq<real>, du: seq<Vector2>, work: array<Vector2>,
                                  dzeta: array<real>)
    returns (status: Status)
    requires Fits(p, work.Length) && |u| == |zeta| == |du| == work.Length == dzeta.Length
    requires KeepsSize(linearSolve, work.Length)
    modifies work, dzeta
    ensures var sol := linearSolve(jState, Homogenized(p, du));
            (status.Ok? <==> sol.reason >= 0) &&
            (status.Ok? ==> dzeta[..] == NegatedReals(JacobianDesignTranspose(p, u, zeta, sol.solution))) &&
            (status.Error? ==> dzeta[..] == old(dzeta[..]))
  {
    CopyInto(du, work);
    if p.bc.Some? {
      ZeroDirichlet(p, work);
    }
    assert work[..] == Homogenized(p, du);
    var sol := linearSolve(jState, work[..]);
    CopyInto(sol.solution, work);
    if sol.reason < 0 {
      return Error("IP_SSAHardavForwardProblem::apply_linearization solve failed to converge");
    }
    ApplyJacobianDesignTranspose(p, u, zeta, work[..], dzeta);
    NegateReals(dzeta);
    return Ok;
  }

  /** Overwrites dst with src. */
  method CopyInto<T>(src: seq<T>, dst: array<T>)
    requires |src| == dst.Length
    modifies dst
    ensures dst[..] == src
  {
    var n := 0;
    while n < dst.Length
      invariant n <= dst.Length
      invariant forall m :: 0 <= m < n ==> dst[m] == src[m]
    {
      dst[n] := src[n];
      n := n + 1;
    }
  }

  /** scale(-1) of a state vector. */
  method NegateVectors(a: array<Vector2>)
    modifies a
    ensures a[..] == Negated(old(a[..]))
  {
    var n := 0;
    while n < a.Length
      invariant n <= a.Length
      invariant forall m :: 0 <= m < n ==> a[m] == Neg(old(a[m]))
      invariant forall m :: n <= m < a.Length ==> a[m] == old(a[m])
    {
      a[n] := Neg(a[n]);
      n := n + 1;
    }
  }

  /** scale(-1) of a design vector. */
  method NegateReals(a: array<real>)
    modifies a
    ensures a[..] == NegatedReals(old(a[..]))
  {
    var n := 0;
    while n < a.Length
      invariant n <= a.Length
      invariant forall m :: 0 <= m < n ==> a[m] == - old(a[m])
      invariant forall m :: n <= m < a.Length ==> a[m] == old(a[m])
    {
      a[n] := - a[n];
      n := n + 1;
    }
  }
}
