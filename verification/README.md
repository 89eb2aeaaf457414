# PISM core: PICO ocean model, shallow stress balance diagnostics, flow-law factory, SSA hardness forward problem

This project models four pieces of the Parallel Ice Sheet Model (PISM) in Dafny and proves properties about them.

- **PICO** (Potsdam Ice-shelf Cavity mOdel, `Pico.cc`). It is an ocean model that computes the melt rate under ice shelves.
  - It rounds the basin mask.
  - It averages the ocean's temperature and salinity over the continental shelf of each basin.
  - It gives every shelf the cell-count-weighted mix of the basin inputs of its cells, as its box-0 input.
  - It fills the whole domain with Beckmann–Goosse values, then solves box 1 and the boxes behind it, shelf by shelf.
  - It derives the mass flux from the melt rate.
- **Shallow stress balance diagnostics** (`ShallowStressBalance.cc`):
  - basal frictional heating;
  - principal strain rates and deviatoric stresses, from mask-aware finite differences;
  - driving stress, basal shear stress and basal drag;
  - the two trivial sliding laws.
- **Flow-law factory** (`flowlaw_factory.cc`). It is a name → creator registry with a selected name.
- **Forward problem of SSA inversion for hardness** (`IP_SSAHardavForwardProblem.cc`):
  - setting the design variable ζ and the hardness B(ζ);
  - the design Jacobian, applied and transposed, with its element loop, scatter-add, thin-ice cut-off and Dirichlet/fixed-location zeroing;
  - the linearised solves, and their lazily rebuilt state Jacobian.

Grid fields are `array2`s indexed (i, j). A node vector is an `array` over nodes. Specifications are pure functions over value snapshots of the arrays, of type `seq<seq<T>>`. Cell sums and counts are taken in row-major order, the order in which the source's loops visit the cells. The physics the source delegates is passed in as arrow-typed fields of a datatype, and the model leaves it uninterpreted:
- the `PicoPhysics` formulae;
- the effective viscosity;
- the drag coefficient;
- `sqrt`;
- the hardness parameterisation;
- the finite-element basis;
- the SSA and Krylov solvers.

Modules:
- `Grids`: grid snapshots and row-major reductions (count, sum, mean) with their bounds and frame lemmas.
- `PicoBasins`: `most_frequent_element` and `round_basins`.
- `PicoOcean`: class `Pico`, with the specification functions of every stage.
- `PicoProperties`: partition and convex-combination lemmas about the box-0 input.
- `ShallowStress`: the stress balance diagnostics and the classes `ZeroSliding` and `PrescribedSliding`.
- `FlowLawRegistry`: class `FlowLawFactory`.
- `InverseForward`: the design Jacobians and class `ForwardProblem`.

## Model

| member | source | states |
|---|---|---|
| Grids.SumWhereBounds | src/coupler/ocean/Pico.cc:594-623 | a sum over selected cells lies between count×min and count×max of the field |
| Grids.MeanWhereBounds | src/coupler/ocean/Pico.cc:594-623 | a mean over a non-empty selection lies between the smallest and largest value of the field |
| Grids.SelectedCellIsCounted | src/coupler/ocean/Pico.cc:458-487 | a selection containing some cell has a positive count |
| Grids.CountWhereFrame | src/coupler/ocean/Pico.cc:366-409 | counts depend only on the selection, not on values outside it |
| PicoBasins.ScanIsFirstMode | src/coupler/ocean/Pico.cc:46-59 | the scan over a non-empty list returns an element of the list whose count is the largest, and it is the first value in the list to reach that count |
| PicoBasins.MostFrequentElement | src/coupler/ocean/Pico.cc:46-59 | returns 0 for an empty list; otherwise returns a member of the list that occurs at least as often as any other value |
| PicoBasins.RoundedKeepsConsistentIds | src/coupler/ocean/Pico.cc:98-103 | an interior cell whose id is an integer equal to at least one of its four diagonal neighbours keeps that id |
| PicoBasins.RoundedTakesNeighbourMode | src/coupler/ocean/Pico.cc:98-103 | a cell whose id is fractional, or equals none of its four diagonal neighbours, takes a neighbour value that occurs at least as often among the four as any other value |
| PicoBasins.RoundBasins | src/coupler/ocean/Pico.cc:66-107 | each interior cell takes the rounding of its id against its four diagonal neighbours, reading the row before it as already swept and the row after it as it was; boundary cells keep their ids |
| PicoOcean.AsInt | src/coupler/ocean/Pico.cc:366-409 | rounding a real basin id gives the integer within one half of it |
| PicoOcean.ClampToMelting | src/coupler/ocean/Pico.cc:458-487 | the result is at least the melting point and equals the input when the input is already at or above it |
| PicoOcean.ShelfCellsAreCounted | src/coupler/ocean/Pico.cc:439-482 | every shelf that owns a cell has a positive cell count |
| PicoOcean.BoxMeansElsewhere | src/coupler/ocean/Pico.cc:686-716 | changing a field only inside box k keeps the means of all other boxes |
| PicoOcean.Pico.ComputeOceanInputPerBasin | src/coupler/ocean/Pico.cc:344-411 | each basin gets the mean of the ocean field over its continental-shelf cells, and the dummy value when it has none (basin 0 then gets 0) |
| PicoOcean.Pico.Box0Cell | src/coupler/ocean/Pico.cc:458-487 | one cell's box-0 input; the too-cold counter is raised exactly for floating cells of a real shelf whose input lies below the pressure melting point |
| PicoOcean.Pico.SetOceanInputFields | src/coupler/ocean/Pico.cc:420-494 | every cell holds its shelf's box-0 input; the too-cold counter equals the number of cells raised |
| PicoOcean.Pico.ComputeBoxAverage | src/coupler/ocean/Pico.cc:586-624 | entry s is the mean of the field over box k of shelf s |
| PicoOcean.Pico.ComputeBoxArea | src/coupler/ocean/Pico.cc:635-658 | entry s is the total area of box k of shelf s |
| PicoOcean.Pico.Sweep | src/coupler/ocean/Pico.cc:783-805 | every cell is updated by the stage's per-cell rule from its own inputs and its old state |
| PicoOcean.Pico.BeckmannGoosse | src/coupler/ocean/Pico.cc:763-806 | floating cells of a real shelf get the Beckmann–Goosse melt rate and melting point from their box-0 input; floating cells outside shelves do not melt and sit at the pressure melting point; all other cells are unchanged |
| PicoOcean.Pico.ProcessBox1 | src/coupler/ocean/Pico.cc:502-572 | cells of box 1 of a real shelf hold the box-1 solution for their shelf's box-1 area; all other cells are unchanged |
| PicoOcean.Pico.ProcessBox | src/coupler/ocean/Pico.cc:686-716 | cells of box k take the solution from the means of box k−1 taken before the step; the means of every other box are preserved |
| PicoOcean.Pico.ProcessOtherBoxes | src/coupler/ocean/Pico.cc:660-753 | boxes 2..n are solved in order, each from its predecessor's means; cells outside shelves, or in boxes below 2, are unchanged |
| PicoOcean.Pico.MaxValue | src/coupler/ocean/Pico.cc:277 | returns a value of the field that no cell exceeds |
| PicoOcean.Pico.UpdateImpl | src/coupler/ocean/Pico.cc:258-335 | sets the shelf count to one more than the largest shelf id. Every cell gets the box-0 input from the basin means. Floating ice without a shelf does not melt and sits at the pressure melting point. Box 1 is solved. The mass flux equals the melt rate × the ice density. Sea level and melange back pressure are 0 |
| PicoProperties.ShelfBasinCountsPartition | src/coupler/ocean/Pico.cc:439-482 | the per-basin cell counts of a shelf add up to its total cell count |
| PicoProperties.ShelfInputIsCellMean | src/coupler/ocean/Pico.cc:468-471 | a shelf's input (the per-basin inputs weighted by the shelf's cell count in each basin, over its total cell count) equals the mean over all the shelf's cells of the input of the basin each cell lies in. Cells in basin 0 contribute 0 but still count in the divisor. A shelf without cells gets 0 |
| PicoProperties.WeightedIsConvex | src/coupler/ocean/Pico.cc:458-487 | with basin 0 given no weight and the weights summing to the total, the weighted mix lies between the least and greatest of values 1 .. n−1 |
| PicoProperties.ShelfInputWithinBasinInputs | src/coupler/ocean/Pico.cc:458-487 | for a shelf with cells, none of them in basin 0, and every basin id in range, the shelf's input lies within any bounds [lo, hi] on the inputs of all basins 1 .. n−1 (not only the basins the shelf touches). Without the basin-0 condition this fails: the divisor at lines 468-471 also counts basin-0 cells, whose input is left out of the sum, so the input is pulled towards 0 |
| PicoProperties.BasinInputWithinField | src/coupler/ocean/Pico.cc:366-409 | a basin input with continental-shelf cells lies within the range of the ocean field |
| PicoProperties.BoxMeanWithinField | src/coupler/ocean/Pico.cc:594-623 | a box mean over a non-empty box lies within the range of the field |
| PicoProperties.Box0InputAboveMeltingPoint | src/coupler/ocean/Pico.cc:458-487 | a floating cell of a real shelf gets its shelf's salinity and a temperature never below the pressure melting point, raised to the melting point plus a margin when the input is colder; every other cell gets (0, 0) |
| ShallowStress.WeightedDifferenceIsDerivative | src/base/stressbalance/ShallowStressBalance.cc:236-237 | the mask-weighted difference formula is the centred difference when both neighbours are icy, one-sided when one is, and 0 when neither is |
| ShallowStress.StrainRates | src/base/stressbalance/ShallowStressBalance.cc:201-243 | each velocity derivative follows that centred / one-sided / zero rule in its own direction |
| ShallowStress.PrincipalStrainRatesOrdered | src/base/stressbalance/ShallowStressBalance.cc:245-250 | the two principal rates add up to the divergence u_x + v_y; when the square root of the discriminant is not negative, the first is at least the second |
| ShallowStress.PrincipalStrainRatesAreEigenvalues | src/base/stressbalance/ShallowStressBalance.cc:245-250 | when the square root is exact (its square is the discriminant), both principal rates are eigenvalues of the symmetric 2-D strain-rate tensor |
| ShallowStress.PrincipalCellProperties | src/base/stressbalance/ShallowStressBalance.cc:191-250 | ice-free cells get (0, 0). On icy cells the two rates add up to u_x + v_y, and the first is at least the second when the square root is not negative. When the square root is exact, both rates are eigenvalues of the cell's strain-rate tensor |
| ShallowStress.StressPrincipalValues | src/base/stressbalance/ShallowStressBalance.cc:277-343 | when the square root is exact (its square is the discriminant), the deviatoric stress tensor has the principal strain rates scaled by the viscosity as its eigenvalues |
| ShallowStress.FrictionalHeating | src/base/stressbalance/ShallowStressBalance.cc:144-152 | 0 over ocean, and drag × speed² elsewhere |
| ShallowStress.FrictionalHeatingNonNegative | src/base/stressbalance/ShallowStressBalance.cc:144-152 | heating is never negative when the drag coefficient is not |
| ShallowStress.DrivingStressPointsDownhill | src/base/stressbalance/ShallowStressBalance.cc:391-398 | the driving stress never points up the surface slope, and it vanishes where the overburden pressure does |
| ShallowStress.BasalStressDissipation | src/base/stressbalance/ShallowStressBalance.cc:488-495 | under grounded ice, the basal stress is −β·u and its dissipation −τ_b·u equals the frictional heating |
| ShallowStress.ComputeBasalFrictionalHeating | src/base/stressbalance/ShallowStressBalance.cc:129-154 | every cell holds the frictional heating of its velocity, yield stress and mask |
| ShallowStress.ComputePrincipalStrainRates | src/base/stressbalance/ShallowStressBalance.cc:174-253 | fails, leaving the output untouched, unless the output has 2 components; otherwise every cell holds its principal strain rates |
| ShallowStress.ComputeStresses | src/base/stressbalance/ShallowStressBalance.cc:257-343 | fails, leaving the output untouched, unless the output has 3 components; otherwise every icy cell holds its deviatoric stresses and every ice-free cell holds zeros |
| ShallowStress.ComputeDrivingStress | src/base/stressbalance/ShallowStressBalance.cc:370-402 | a new field with the driving stress of every cell |
| ShallowStress.ComputeBasalStress | src/base/stressbalance/ShallowStressBalance.cc:462-499 | a new field with the basal shear stress of every cell |
| ShallowStress.ComputeBasalDrag | src/base/stressbalance/ShallowStressBalance.cc:581-608 | a new field with the drag coefficient β at every cell |
| ShallowStress.ZeroSliding.Update | src/base/stressbalance/ShallowStressBalance.cc:111-118 | a full update sets velocity and heating to zero; a fast update changes nothing |
| ShallowStress.PrescribedSliding.Update | src/base/stressbalance/ShallowStressBalance.cc:554-559 | the prescribed velocity is kept; a full update zeroes the heating |
| FlowLawRegistry.StandardRegistryContents | src/base/rheology/flowlaw_factory.cc:74-84 | the registry has exactly seven keys, the seven distinct flow-law names, each mapped to a creator of its own kind |
| FlowLawRegistry.Touch | src/base/rheology/flowlaw_factory.cc:101 | a subscript lookup adds the name with a null creator when absent and keeps every existing entry |
| FlowLawRegistry.TouchKeepsAvailability | src/base/rheology/flowlaw_factory.cc:101 | a lookup never changes which names have a creator |
| FlowLawRegistry.FailedSelectionPersists | src/base/rheology/flowlaw_factory.cc:100-108 | after a failed selection the name is present but still unavailable, until a creator is registered for it |
| FlowLawRegistry.FlowLawFactory.Init | src/base/rheology/flowlaw_factory.cc:67-84 | the new factory holds the standard registry and its prefix, with no name selected yet |
| FlowLawRegistry.FlowLawFactory.New | src/base/rheology/flowlaw_factory.cc:67-86 | construction succeeds exactly when the configured flow law name has a creator, and that name is then selected |
| FlowLawRegistry.FlowLawFactory.AddType | src/base/rheology/flowlaw_factory.cc:92-94 | registers or replaces one entry; a selection stays valid unless its own creator is nulled |
| FlowLawRegistry.FlowLawFactory.RemoveType | src/base/rheology/flowlaw_factory.cc:96-98 | erases one entry; removing the selected name invalidates the selection |
| FlowLawRegistry.FlowLawFactory.SetDefaultType | src/base/rheology/flowlaw_factory.cc:100-108 | succeeds exactly when the name has a creator, and then selects it; on failure the old selection is kept; in both cases the lookup's null entry is left behind |
| FlowLawRegistry.FlowLawFactory.Create | src/base/rheology/flowlaw_factory.cc:110-121 | succeeds exactly when the selected name has a creator, and builds a flow law of that creator's kind with the factory's prefix |
| InverseForward.ThinElementDesignSum | src/inverse/IP_SSAHardavForwardProblem.cc:340-346 | an element whose quadrature points are all too thin contributes zero to the design Jacobian |
| InverseForward.ThinElementTransposeSum | src/inverse/IP_SSAHardavForwardProblem.cc:514-520 | it also contributes zero to the transposed design Jacobian |
| InverseForward.ElementDesign | src/inverse/IP_SSAHardavForwardProblem.cc:288-355 | the element vector is the sum, over quadrature points, of each node's design term |
| InverseForward.ElementTranspose | src/inverse/IP_SSAHardavForwardProblem.cc:472-535 | the element vector is the sum, over quadrature points, of each node's transposed term |
| InverseForward.ScatterElement | src/inverse/IP_SSAHardavForwardProblem.cc:354 | adding one element's vector at its nodes advances the row-major scatter-add by one element |
| InverseForward.ApplyJacobianDesign | src/inverse/IP_SSAHardavForwardProblem.cc:222-365 | the output is exactly J_design·dζ: the scatter-added element vectors with Dirichlet nodes zeroed; nothing of its old contents remains |
| InverseForward.ApplyJacobianDesignTranspose | src/inverse/IP_SSAHardavForwardProblem.cc:411-550 | the output is exactly J_designᵀ·du: the scatter-added element values, each times dB/dζ at its node, with fixed locations zeroed |
| InverseForward.ScatterOfZeros | src/inverse/IP_SSAHardavForwardProblem.cc:245-250 | a node that receives only zero contributions keeps the zero it was initialised with |
| InverseForward.ThinOrUntouchedNodesGetZero | src/inverse/IP_SSAHardavForwardProblem.cc:340-346 | both Jacobians are zero at a node all of whose elements are too thin, and at a node in no element |
| InverseForward.DesignIgnoresFixedLocations | src/inverse/IP_SSAHardavForwardProblem.cc:222-365 | J_design·dζ does not depend on dζ at fixed design locations |
| InverseForward.TransposeIgnoresDirichletNodes | src/inverse/IP_SSAHardavForwardProblem.cc:411-550 | J_designᵀ·du does not depend on du at Dirichlet nodes |
| InverseForward.ForwardProblem.constructor | src/inverse/IP_SSAHardavForwardProblem.cc:43 | a new problem has no design yet and a pending rebuild of J_state |
| InverseForward.ForwardProblem.SetDesign | src/inverse/IP_SSAHardavForwardProblem.cc:106-124 | keeps a reference to the new ζ, sets every node's hardness to B(ζ) there, and flags J_state for rebuilding |
| InverseForward.ForwardProblem.LinearizeAt | src/inverse/IP_SSAHardavForwardProblem.cc:129-132 | after set_design, the velocity is the SSA solution at the new hardness, and the solver's reason is returned |
| InverseForward.ForwardProblem.RefreshJState | src/inverse/IP_SSAHardavForwardProblem.cc:569-572 | J_state is reassembled at the current velocity and hardness exactly when a rebuild is pending; afterwards none is pending |
| InverseForward.ForwardProblem.ApplyLinearization | src/inverse/IP_SSAHardavForwardProblem.cc:565-604 | du solves J_state du = −J_design dζ; it fails exactly when the solver's reason is negative, leaving du as it was; J_state is reused when current |
| InverseForward.ForwardProblem.ApplyLinearizationTranspose | src/inverse/IP_SSAHardavForwardProblem.cc:623-677 | dζ = −J_designᵀ(J_state⁻¹ du'), with du' being du with its Dirichlet nodes zeroed; it fails exactly when the solver's reason is negative, leaving dζ as it was |
| InverseForward.LinearizedSolve | src/inverse/IP_SSAHardavForwardProblem.cc:574-603 | the solve of apply_linearization once J_state is current, with the same success and failure outcome |
| InverseForward.LinearizedTransposeSolve | src/inverse/IP_SSAHardavForwardProblem.cc:639-672 | the solve of apply_linearization_transpose once J_state is current, with the same outcome |

## Left out

- `init_impl`, `define_model_state_impl`, `write_model_state_impl` and `diagnostics_impl` of PICO are not modelled. They read the configuration and input files and write output files. The number of boxes, which `init_impl` reads from the configuration, is a field of the `Pico` class that the client sets. Until it is set, no box beyond box 1 is solved.
- `PicoOcean.Pico.constructor`: only the default of 20 basins and fresh fields are modelled. The rest of the constructor allocates and registers variables.
- The PICO counters of cells where box 1 fails and of cells that fall back to Beckmann–Goosse are not modelled. They only feed log messages.
- The geometry component is not part of this model. It computes the shelf, box and continental-shelf masks, and those masks are inputs here.
- The mask header is not part of this model. The cell-type constants are taken as ice-free bedrock 0, grounded 2, floating 3 and ice-free ocean 4.
- MPI reductions (`GlobalSum`), ghost-cell exchange and parallel domain decomposition are not modelled. The model is a single process that holds the whole grid.
- Periodic neighbour indexing stands in for ghost cells at the domain edge of the stress-balance stencils.
- `PicoOcean.Pico.ComputeOceanInputPerBasin` gives basin 0 the value 0 when the basin has no continental-shelf cells. The source divides 0 by 0 there, which gives a floating-point NaN, and real numbers cannot represent that.
- `PicoBasins.RoundBasins` follows the code: cells on the domain boundary are never written. They keep whatever they held, rather than being forced to basin 0.
- `PicoOcean.Pico.UpdateImpl` does not restate the results for boxes 2 and beyond. Those results are stated by `PicoOcean.Pico.ProcessOtherBoxes`, which the update calls.
- Floating-point arithmetic is modelled by real numbers. Rounding, NaN and infinity are not modelled.
- The physics formulae are uninterpreted functions:
  - PICO's `PicoPhysics`;
  - the effective viscosity, `secondInvariant_2D`, the basal drag law;
  - the surface gradient (`diff_x_p` and friends), `sqrt`;
  - the hardness parameterisation B(ζ) and its derivative.
- `ShallowStress.ComputeStresses` takes the ice hardness as a parameter. The source derives it from the configuration as the ice softness raised to the power −1/n, where n is the SSA Glen exponent (ShallowStressBalance.cc:267). Configuration lookup and `pow` are not modelled.
- The flow-law creators are modelled as the kind of flow law they build. The configuration and the enthalpy converter that they pass on are not modelled.
- The header that defines the seven flow-law name strings is not part of this model. The names are taken to be the strings PISM uses.
- The flow-law factory's exceptions are modelled as `Error`/`Failure` results carrying the message.
- The finite-element machinery is taken as given functions:
  - quadrature weights, test functions, interpolation and gradients at quadrature points;
  - the element map, as explicit node lists.
- Dirichlet data is taken to be enforced by putting the boundary values into the element's nodal velocity.
- The constrained-row skip of the residual scatter is not modelled. Those rows are zeroed afterwards in any case.
- Matrix assembly and the Krylov solver are a given function of (matrix, right-hand side). The SSA solve is a given function of the hardness. The solver's message strings for its reason codes are not modelled.
- `InverseForward.ForwardProblem.ApplyLinearizationTranspose` requires the output dζ to be a different array from ζ. Aliasing between them is not modelled.
- PETSc vector and array access, and the `DMDA` local/global copies, are replaced by plain arrays over nodes.
