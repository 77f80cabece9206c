# fluidsim solver core in Dafny

A model of `FluidSim`, the grid fluid solver of fluidsim (FluidSim.h,
FluidSim.cpp). It follows the stable-fluids scheme: a `sizeX × sizeY` grid
with a one-cell border holds three colour densities, two velocity
components, their scratch buffers and three colour sources. Each frame
(`Update`) runs the same steps:

- Each colour is transported: sources are added, the field is diffused by
  ten Gauss-Seidel sweeps, then carried along the velocity by
  semi-Lagrangian advection.
- The velocity goes through sources, gravity, viscous diffusion, projection
  to a divergence-free field, self-advection and a second projection.
- The densities then decay.

Between frames the caller can:

- stamp or erase a plus-shaped source;
- apply a swirl force;
- clear the sources or densities;
- set gravity.

After every stage `SetBnd` fills the border from the interior. The two
velocity components are reflected at the walls; scalars are copied.
Corners take the mean of their two edge neighbours.

The model has two layers.

- **Pure functions on `seq<real>`** say what every stage computes, one
  module per concern:
  - `Grid`: `IDX` and the interior/border split;
  - `Boundary`: `SetBnd`;
  - `Edits`: sources and forces;
  - `Pointwise`: `AddSources`, `Decay`, `ApplyGravity`;
  - `Relaxation`: `Diffuse` and the pressure sweep;
  - `Advection`: `Advect`;
  - `Projection`: `Project`;
  - `Steps`: `DensityStep`, `VelocityStep`, `Update`.
- **The class `Solver.FluidSim`** owns the thirteen arrays and updates them
  in place with the source's loops.
  - Every method is proved to leave its arrays holding the function of
    their previous contents.
  - `DensityStep` and `VelocityStep` swap local array references exactly as
    the `SWAP` macro does. Their contracts therefore say which
    physical array ends up holding which intermediate: after a frame,
    `u0` holds the pressure and `v0` the divergence of the last
    projection. The next frame adds those back into the velocity as its
    "sources".
- **Lemmas** state what the stages promise:
  - a border consistent with the interior after every stage;
  - scalar transport without new extremes;
  - non-negative colour;
  - sources and forces that touch exactly the stamped cells and leave the
    edges alone;
  - a swirl that adds no net momentum;
  - projection that leaves divergence-free flow alone;
  - an empty tank that stays empty.

Values are exact reals, not `float`s. The C++ truncation `(int)x1` is
modelled exactly (rounding toward zero); `std::min` and `std::max` keep
their argument order.

Three behaviours of the code are worth stating plainly.

- `ApplyForce` changes `u` on the whole columns `x-1` and `x+1` (three
  cells each, rows `y-1` to `y+1`, so the orthogonal neighbours move too),
  and `v` on the whole rows `y-1` and `y+1` (columns `x-1` to `x+1`).
- `Decay` subtracts `rate * dt` from every interior cell and clamps the
  result at zero.
- The constructor performs no size check. The model requires sizes of at
  least 3, so that the grid has an interior cell. Sizes 0 and 1 make
  `SetBnd` read `IDX(1, 0)` or `IDX(mSizeX - 2, y)` outside the arrays
  (with `mSizeX - 2` wrapping as an unsigned value). A 2 by 2 grid stays
  in range, because every loop of `SetBnd` and of the solver runs zero
  times; it has no interior and is left out by choice.

## Model

| member | source | states |
|---|---|---|
| Grid.Idx | FluidSim.h:28-33 | `IDX(x, y)` of an in-range cell lies inside the field |
| Grid.IdxIsRowMajor | FluidSim.h:32 | the index is `y * sizeX + x` |
| Grid.IdxInjective | FluidSim.h:28-33 | two in-range cells share an index exactly when they are the same cell |
| Grid.IdxOnto | FluidSim.h:28-33 | every array index is the index of some cell |
| Grid.IdxNeighbours | FluidSim.cpp:91-98 | for an interior cell, `index±1` and `index±sizeX` are its left/right and upper/lower neighbours |
| Solver.FluidSim.constructor | FluidSim.cpp:12-49 | sizes and parameters stored, gravity zero, all thirteen arrays of `sizeX*sizeY` zeros, pairwise distinct |
| Solver.FluidSim.ZeroFilled | FluidSim.cpp:22-48 | `new float[n]` plus `memset`: a fresh array of `n` zeros |
| Solver.FluidSim.Update | FluidSim.cpp:70-79 | the thirteen arrays end up holding `Tick` of what they held; sources unchanged |
| Steps.Tick | FluidSim.cpp:70-79 | one frame as a function of the thirteen arrays: three density steps, the velocity step, then three decays, in the order of `Update`; its properties are `Steps.TickAtRest` and `Steps.TickKeepsDensityNonNegative` |
| Steps.TickAtRest | FluidSim.cpp:70-79 | zero steady state: a frame from all-zero arrays leaves them all zero (when `decay*dt >= 0`) |
| Steps.TickKeepsDensityNonNegative | FluidSim.cpp:70-79 | with non-negative sources, a frame keeps all six density arrays non-negative, whatever the velocity, gravity and decay |
| Solver.FluidSim.PlaceSource | FluidSim.cpp:82-109 | each source colour becomes `Stamp` of its old contents with the given value; nothing changes on the edge |
| Solver.FluidSim.EraseSource | FluidSim.cpp:112-139 | each source colour becomes the zero `Stamp`; nothing changes on the edge |
| Solver.FluidSim.StampAt | FluidSim.cpp:94-98 | the five writes `index`, `index±1`, `index±sizeX` produce `Stamp` |
| Edits.Stamp | FluidSim.cpp:84-108 | on the border the field is unchanged; otherwise exactly the centre and its four orthogonal neighbours hold the value and all other cells keep theirs |
| Edits.EraseAfterPlace | FluidSim.cpp:82-139 | erasing after placing equals erasing alone, and zeroes all five stamped cells |
| Edits.StampCellsDistinct | FluidSim.cpp:91-98 | the five stamped indices are distinct and in range |
| Solver.FluidSim.ClearSources | FluidSim.cpp:142-150 | all three source arrays become all zero |
| Solver.FluidSim.ClearDensity | FluidSim.cpp:153-164 | all six density arrays become all zero; nothing else is modified |
| Solver.FluidSim.ApplyForce | FluidSim.cpp:167-189 | `u` becomes `SwirlU`, `v` becomes `SwirlV` of their old contents |
| Solver.FluidSim.PushColumns | FluidSim.cpp:177-182 | the six `u` updates in source order equal `PushU` |
| Solver.FluidSim.PushRows | FluidSim.cpp:183-188 | the six `v` updates in source order equal `PushV` |
| Edits.SwirlU | FluidSim.cpp:169-182 | on the border `u` is unchanged; otherwise the cells of column `x-1`, rows `y-1..y+1`, lose `amount`, those of column `x+1` gain it, and all others are unchanged |
| Edits.SwirlV | FluidSim.cpp:183-188 | on the border `v` is unchanged; otherwise the cells of row `y-1`, columns `x-1..x+1`, lose `amount`, those of row `y+1` gain it, and all others are unchanged |
| Edits.PushUCells | FluidSim.cpp:177-182 | the cell-by-cell effect of the six `u` updates |
| Edits.PushVCells | FluidSim.cpp:183-188 | the cell-by-cell effect of the six `v` updates |
| Edits.PushUTotal | FluidSim.cpp:177-182 | the `u` updates leave the sum of `u` unchanged |
| Edits.PushVTotal | FluidSim.cpp:183-188 | the `v` updates leave the sum of `v` unchanged |
| Edits.SwirlUKeepsTotal | FluidSim.cpp:167-189 | `ApplyForce` adds no net horizontal momentum |
| Edits.SwirlVKeepsTotal | FluidSim.cpp:167-189 | `ApplyForce` adds no net vertical momentum |
| Solver.FluidSim.SetGravity | FluidSim.cpp:192-196 | `gravityU == gu` and `gravityV == -gv` |
| Solver.FluidSim.AddSources | FluidSim.cpp:282-288 | `x` becomes `AddScaled(x, s, dt)`, i.e. `x[i] + dt*s[i]` on every cell |
| Pointwise.AddScaled | FluidSim.cpp:282-288 | the field after adding `dt` times a source to every cell; same length as the field (its algebra is in the `AddScaled*` lemmas) |
| Pointwise.AddScaledCompose | FluidSim.cpp:282-288 | adding over `dt1` and then `dt2` equals adding over `dt1 + dt2` |
| Pointwise.AddScaledUndo | FluidSim.cpp:282-288 | adding over `-dt` undoes adding over `dt` |
| Pointwise.AddScaledOfZero | FluidSim.cpp:282-288 | a zero source leaves the field unchanged |
| Pointwise.AddScaledNonNegative | FluidSim.cpp:282-288 | non-negative field, source and `dt` give a non-negative result |
| Solver.FluidSim.Decay | FluidSim.cpp:311-328 | `d` becomes `DecayField(d, rate*dt)` |
| Pointwise.DecayField | FluidSim.cpp:311-328 | the field after the linear, clamped decay of every interior cell; border cells kept (see `DecayFieldBounds`) |
| Pointwise.DecayCell | FluidSim.cpp:321-325 | the result is non-negative, at least `v - amount`, and is either 0 or `v - amount` |
| Pointwise.DecayCellCompose | FluidSim.cpp:321-325 | two decays by non-negative amounts equal one decay by their sum |
| Pointwise.DecayCellShrinks | FluidSim.cpp:321-325 | a non-negative cell never grows; a negative cell is raised to 0 |
| Pointwise.DecayFieldBounds | FluidSim.cpp:311-328 | interior cells end non-negative and at least `s[i] - amount`; border cells are unchanged |
| Pointwise.DecayFieldCompose | FluidSim.cpp:311-328 | two decays of a field by non-negative amounts equal one decay by their sum |
| Pointwise.DecayFieldShrinks | FluidSim.cpp:311-328 | on a non-negative field each cell ends between 0 and its old value |
| Solver.FluidSim.ApplyGravity | FluidSim.cpp:291-308 | `u` and `v` become `GravityField` of their old contents with the stored `gravityU`/`gravityV`; densities unchanged |
| Pointwise.GravityField | FluidSim.cpp:291-308 | a velocity component after the push by the mean density times gravity times `dt` on the interior (see `GravityFieldPush`) |
| Pointwise.GravityFieldPush | FluidSim.cpp:296-307 | each interior cell gains `(r+g+b) * gravity * dt / 3`; border cells gain nothing |
| Pointwise.GravityFieldCompose | FluidSim.cpp:291-308 | two gravity pushes over `dt1` and `dt2` equal one push over `dt1 + dt2` |
| Pointwise.GravityFieldInert | FluidSim.cpp:291-308 | zero gravity, zero `dt` or no density leaves the velocity unchanged |
| Solver.FluidSim.SetBnd | FluidSim.cpp:425-443 | `d` becomes `Bnd(b, d)` |
| Boundary.Bnd | FluidSim.cpp:425-443 | the closed form of `SetBnd`: interior kept, edges reflected by kind, corners averaged; proved equal to the loops by `SetBndOrder` and unique by `BndUnique` |
| Solver.FluidSim.SetEdgeColumns | FluidSim.cpp:427-431 | the first loop equals `FillRows` over all columns `1..sizeX-2` |
| Solver.FluidSim.SetEdgeRows | FluidSim.cpp:433-437 | the second loop equals `FillColumns` over all rows `1..sizeY-2` |
| Solver.FluidSim.SetCorners | FluidSim.cpp:439-442 | the four corner assignments in source order equal `FillCorners` |
| Solver.FluidSim.SetEdgeColumn | FluidSim.cpp:429-430 | top and bottom cell of column `x`, negated for `b == 2` |
| Solver.FluidSim.SetEdgeRow | FluidSim.cpp:435-436 | left and right cell of row `y`, negated for `b == 1` |
| Boundary.SetBndOrder | FluidSim.cpp:425-443 | the in-order loops followed by the corners equal the closed form `Bnd` |
| Boundary.FillRowsFill | FluidSim.cpp:427-431 | the first loop keeps the interior and fills the top and bottom edge of each column it passed |
| Boundary.FillColumnsKeepInterior | FluidSim.cpp:433-437 | the second loop does not touch the interior |
| Boundary.FillColumnsKeepRows | FluidSim.cpp:433-437 | the second loop keeps the top and bottom edges the first loop filled |
| Boundary.FillColumnsFill | FluidSim.cpp:433-437 | the second loop fills the left and right edge of each row it passed |
| Boundary.FillCornersMeans | FluidSim.cpp:439-442 | each corner ends as the mean of its two edge neighbours, read after the earlier corner writes |
| Boundary.FillCornersDone | FluidSim.cpp:439-442 | after both edge loops the corner writes complete `Bnd` |
| Boundary.BndFills | FluidSim.cpp:425-443 | `SetBnd` keeps the interior and leaves a border `Consistent` with it |
| Boundary.ClosedFormConsistent | FluidSim.cpp:425-443 | any field built cell by cell from `BndCell` keeps the interior and is `Consistent` |
| Boundary.ConsistentCell | FluidSim.cpp:425-443 | a consistent field with a given interior holds `BndCell` on every cell |
| Boundary.BndUnique | FluidSim.cpp:425-443 | the result of `SetBnd` is the only consistent field with that interior |
| Boundary.BndIdempotent | FluidSim.cpp:425-443 | `SetBnd` on a consistent field changes nothing, so a second call is a no-op |
| Boundary.BndReadsInterior | FluidSim.cpp:425-443 | the result depends only on the interior |
| Boundary.CornersOf | FluidSim.cpp:439-442 | for velocities (`b` 1 or 2) the corners are 0; for scalars each corner copies the nearest interior cell |
| Boundary.BndCellReadsInward | FluidSim.cpp:427-442 | every border cell reads the nearest interior cell, so a zero there gives a zero border cell |
| Boundary.BndOfZeroInterior | FluidSim.cpp:425-443 | a zero interior gives an all-zero field, for every `b` |
| Boundary.BndScalarCopiesInward | FluidSim.cpp:425-443 | for scalars, every cell equals its nearest interior cell |
| Boundary.BndScalarBounds | FluidSim.cpp:425-443 | for scalars, bounds on the interior hold on the whole field |
| Boundary.BndScalarNonNegative | FluidSim.cpp:425-443 | for scalars, a non-negative interior gives a non-negative field |
| Solver.FluidSim.Diffuse | FluidSim.cpp:331-347 | `d` becomes `DiffuseField(b, d, d0, diff, dt)`: ten sweeps, each followed by `SetBnd` |
| Relaxation.DiffuseField | FluidSim.cpp:331-347 | ten relaxation rounds with `a = dt*diff*sizeX*sizeY` and divisor `1 + 4a` (see the `Diffuse*` lemmas) |
| Solver.FluidSim.RelaxSweep | FluidSim.cpp:337-343 | the in-place row-major loop equals `Sweep` (also used for the pressure loop at FluidSim.cpp:400-406) |
| Relaxation.Sweep | FluidSim.cpp:337-343 | one Gauss-Seidel pass in row-major order over the interior, as a function (characterised by `SweepIsGaussSeidel`) |
| Relaxation.Relaxed | FluidSim.cpp:335-346 | `k` rounds of a sweep followed by `SetBnd`, the loop shared by `Diffuse` and the pressure solve |
| Relaxation.SweepIsGaussSeidel | FluidSim.cpp:337-343 | a sweep keeps the border, and each interior cell is the stencil of its already-updated left/upper and not-yet-updated right/lower neighbours |
| Relaxation.SweepUncoupled | FluidSim.cpp:341 | with `a = 0` and divisor 1 a sweep copies the source into the interior |
| Relaxation.SweepFixesSolution | FluidSim.cpp:337-343 | a field that already solves the stencil is left unchanged |
| Relaxation.SweepNonNegative | FluidSim.cpp:341 | with `a >= 0` and a positive divisor, non-negative inputs stay non-negative |
| Relaxation.RelaxedUncoupled | FluidSim.cpp:335-346 | without coupling, any number of rounds gives `Bnd` of the source |
| Relaxation.RelaxedFixesSolution | FluidSim.cpp:335-346 | a consistent stationary field survives every number of rounds |
| Relaxation.RelaxedConsistent | FluidSim.cpp:335-346 | after at least one round the border is consistent |
| Relaxation.RelaxedNonNegative | FluidSim.cpp:335-346 | for scalars, non-negative inputs stay non-negative over the rounds |
| Relaxation.DiffusionRate | FluidSim.cpp:333 | `a = dt*diff*sizeX*sizeY` is non-negative, and 0 exactly when some factor is 0 |
| Relaxation.DiffusionDivisor | FluidSim.cpp:341 | the divisor `1 + 4a` is at least 1 |
| Relaxation.DiffuseConsistent | FluidSim.cpp:331-347 | diffusion ends with a consistent border |
| Relaxation.DiffuseWithoutDiffusion | FluidSim.cpp:331-347 | with no diffusion or no elapsed time the result is `Bnd` of `d0` |
| Relaxation.DiffuseKeepsEquilibrium | FluidSim.cpp:331-347 | a consistent field that solves the diffusion equation is left unchanged |
| Relaxation.DiffuseNonNegative | FluidSim.cpp:331-347 | scalar diffusion keeps non-negative fields non-negative |
| Steps.DiffuseOfZero | FluidSim.cpp:331-347 | diffusing zero from zero gives zero |
| Solver.FluidSim.Advect | FluidSim.cpp:350-379 | `d` becomes `AdvectField(b, d, d0, u, v, dt)` |
| Advection.AdvectField | FluidSim.cpp:350-379 | the advected interior followed by `SetBnd` (see `AdvectConsistent`, `AdvectBounds`) |
| Solver.FluidSim.AdvectInterior | FluidSim.cpp:354-376 | the interior loop equals `AdvectTable` |
| Advection.AdvectTable | FluidSim.cpp:354-376 | every interior cell replaced by its back-traced, clamped, bilinear sample of `d0`; border cells of `d` kept |
| Solver.FluidSim.AdvectedValue | FluidSim.cpp:358-374 | the loop body computes `AdvectCell` |
| Advection.Clamp | FluidSim.cpp:361-362 | the result lies in `[lo, hi]`; it is `v` when `v` is inside, otherwise the nearer end |
| Advection.Truncate | FluidSim.cpp:364-366 | `(int)r` rounds toward zero |
| Advection.Backtrace | FluidSim.cpp:358-371 | both interpolated lines lie on the grid, the weight is in `[0, 1)`, and an unclamped point is reproduced exactly |
| Advection.BacktraceStill | FluidSim.cpp:358-371 | a cell with no velocity, or no time step, samples itself with weight 0 |
| Advection.BilinearAtLeast | FluidSim.cpp:374 | the interpolation is at least the smallest of its four cells |
| Advection.BilinearAtMost | FluidSim.cpp:374 | the interpolation is at most the largest of its four cells |
| Advection.AdvectConsistent | FluidSim.cpp:350-379 | advection ends with a consistent border |
| Advection.AdvectOverwrites | FluidSim.cpp:350-379 | the old contents of `d` do not affect the result |
| Advection.AdvectStill | FluidSim.cpp:350-379 | with no interior velocity or no time step the result is `Bnd` of `d0` |
| Advection.AdvectBounds | FluidSim.cpp:350-379 | scalar advection creates no new extremes |
| Advection.AdvectNonNegative | FluidSim.cpp:350-379 | scalar advection keeps a non-negative field non-negative |
| Advection.AdvectOfZero | FluidSim.cpp:350-379 | advecting zero gives zero, for every `b` |
| Solver.FluidSim.Project | FluidSim.cpp:382-422 | the four arrays end up holding `Projection.Project` of their old contents |
| Projection.Project | FluidSim.cpp:382-422 | divergence, cleared pressure, ten pressure rounds, gradient subtraction and the `SetBnd` calls, as a function of the four arrays (see `ProjectConsistent`, `ProjectKeepsDivergenceFree`) |
| Solver.FluidSim.DivergencePass | FluidSim.cpp:386-393 | `div` becomes `DivergenceTable` and the interior of `p` is cleared |
| Solver.FluidSim.GradientPass | FluidSim.cpp:411-418 | `u` and `v` become `GradientU` and `GradientV` of the pressure |
| Projection.Spacing | FluidSim.cpp:384 | `h = 1/sizeX` is positive |
| Projection.DivergenceTableAt | FluidSim.cpp:390 | interior cells hold `-0.5*h*(u[x+1]-u[x-1]+v[y+1]-v[y-1])`; border cells keep theirs |
| Projection.GradientUAt | FluidSim.cpp:415 | interior cells lose `0.5*(p[x+1]-p[x-1])/h`; border cells keep theirs |
| Projection.GradientVAt | FluidSim.cpp:416 | interior cells lose `0.5*(p[y+1]-p[y-1])/h`; border cells keep theirs |
| Projection.PressureStartsAtRest | FluidSim.cpp:391-396 | the pressure solve starts from an all-zero field |
| Projection.PressureOfZero | FluidSim.cpp:398-409 | zero divergence and zero pressure give zero pressure |
| Projection.ProjectConsistent | FluidSim.cpp:382-422 | `u`, `v`, `p` and `div` all end with consistent borders (kinds 1, 2, 0, 0) |
| Projection.ProjectOverwritesScratch | FluidSim.cpp:382-422 | the old contents of `p` and `div` do not affect the result |
| Projection.DivergenceCellOfFree | FluidSim.cpp:390 | a divergence-free field has zero divergence at every interior cell |
| Projection.DivergenceOfFree | FluidSim.cpp:386-395 | a divergence-free field gives an all-zero `div` |
| Projection.GradientUOfZero | FluidSim.cpp:415-420 | a zero pressure leaves `u` as `Bnd(1, u)` |
| Projection.GradientVOfZero | FluidSim.cpp:416-421 | a zero pressure leaves `v` as `Bnd(2, v)` |
| Projection.ProjectKeepsDivergenceFree | FluidSim.cpp:382-422 | a divergence-free velocity only has its border filled, and pressure and divergence end all zero |
| Projection.ProjectOfRest | FluidSim.cpp:382-422 | a still fluid stays still, with zero pressure and divergence |
| Solver.FluidSim.DensityStep | FluidSim.cpp:260-265 | `x` and `x0` end up holding `Steps.DensityStep`; after the swaps the diffused field is left in `x0` |
| Steps.DensityStep | FluidSim.cpp:260-265 | add sources, diffuse into `x0`, advect back into `x`, following the two `SWAP`s (see the `DensityStep*` lemmas) |
| Steps.DensityStepNonNegative | FluidSim.cpp:260-265 | non-negative sources and densities stay non-negative in both arrays, whatever the velocity |
| Steps.DensityStepStill | FluidSim.cpp:260-265 | without diffusion or flow, both arrays end as `Bnd` of density plus `dt` times source |
| Steps.DensityStepAtRest | FluidSim.cpp:260-265 | all-zero arrays with no source stay zero |
| Solver.FluidSim.VelocityStep | FluidSim.cpp:268-279 | `u`, `v`, `u0`, `v0` end up holding `Steps.VelocityStep`; `u0`/`v0` hold the last pressure and divergence |
| Steps.VelocityStep | FluidSim.cpp:268-279 | sources, gravity, diffusion, projection, advection, projection, following the `SWAP`s (see the `VelocityStep*` lemmas) |
| Steps.VelocityStepConsistent | FluidSim.cpp:268-279 | the new velocity is reflected at the walls, and all four corners of both components are zero |
| Steps.VelocityStepAtRest | FluidSim.cpp:268-279 | with no velocity and no density, all four arrays stay zero |

## Left out

- `Draw` (FluidSim.cpp:199-257): rendering into a pixel buffer; it does not change the simulation.
- The destructor (FluidSim.cpp:52-67): it only releases memory.
- main.cpp and the profiler are not part of this model: they are the window, input and timing around the solver.
- Floating point: values are exact reals. `float` rounding, overflow, NaN and infinity are not modelled. The literal constants (`0.5f`, `1.501f`, `3.0f`) are used as exact decimals.
- `uint` wrap-around: coordinates and sizes are `nat`. With sizes of at least 3, no subtraction in the source wraps. The products `size_x * size_y` (FluidSim.cpp:15) and `IDX`'s `y * mSizeX` (FluidSim.h:32) are assumed not to wrap: grids of 2^32 cells or more, where the source allocates arrays of the wrapped size and `IDX` leaves them, are not modelled, so `Grid.Idx`, `Solver.FluidSim.constructor` and every in-range proof cover only smaller grids.
- `IDX`'s `assert` becomes a precondition of `Grid.Idx`. Every call in the model is proved in range.
- Solver.FluidSim.constructor: requires `size_x, size_y >= 3`. The source accepts any size. Sizes 0 and 1 make `SetBnd` index outside the arrays; a 2 by 2 grid has no interior and is excluded by choice, although it stays in range.
- Solver.FluidSim.Diffuse: requires `diff >= 0` and `dt >= 0`. This keeps the divisor `1 + 4a` at least 1; the source does not check it.
- Solver.FluidSim.DensityStep: requires `diff >= 0` and `dt >= 0`, for `Diffuse`.
- Solver.FluidSim.VelocityStep: requires `visc >= 0` and `dt >= 0`, for `Diffuse`. It also requires `u` and `v` to be the member velocity arrays, because `ApplyGravity` writes those directly; `Update`, the only caller, passes them.
- Solver.FluidSim.Update: requires `viscosity >= 0`, `diffusion >= 0` and `dt >= 0`, for the reasons above.
- The private steps require the arrays they write to differ from the arrays they read. This is the case at every call in the source. Aliased calls are not modelled.
- Zero steady state is proved for one frame (`Steps.TickAtRest`, with `Update`'s contract). The statement for any number of frames follows by induction and is not a separate lemma. The same holds for `Steps.TickKeepsDensityNonNegative`.
- Row, cell and pass methods (`AdvectRow`, `DivergenceRow`, `StoreDivergence`, `SubtractGradientU`, …) split the source's loop nests for the proof. They are not separate functions of the source.
