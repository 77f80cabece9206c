/** One frame of the simulation as a function of the fields:
    `DensityStep` (FluidSim.cpp:260-265), `VelocityStep`
    (FluidSim.cpp:268-279) and `Update` (FluidSim.cpp:70-79).

    The source passes arrays by address and `SWAP`s the local names
    between stages, so a stage's output lands in whichever array the local
    name points at by then.  The functions below follow that bookkeeping:
    every intermediate is named after the array that holds it. */
module Steps {
  import opened Grid
  import opened Boundary
  import opened Relaxation
  import opened Pointwise
  import opened Advection
  import opened Projection

  /** The two arrays `DensityStep(s, x, x0, …)` writes: the new density in
      `x`, the diffused intermediate left in `x0`. */
  datatype Density = Density(x: seq<real>, x0: seq<real>)

  /** `AddSources(x, s)`; `SWAP`; `Diffuse(0, x0, x)`; `SWAP`;
      `Advect(0, x, x0, u, v)`.  After the first swap `Diffuse` writes
      into the array of `x0` (starting from its old contents) and reads the
      array of `x`; after the second `Advect` writes back into the array of
      `x`. */
  function DensityStep(nx: nat, ny: nat, s: seq<real>, x: seq<real>, x0: seq<real>, u: seq<real>, v: seq<real>,
                       diff: real, dt: real): (r: Density)
    requires ValidSize(nx, ny) && IsField(nx, ny, s) && IsField(nx, ny, x) && IsField(nx, ny, x0)
    requires IsField(nx, ny, u) && IsField(nx, ny, v) && diff >= 0.0 && dt >= 0.0
    ensures IsField(nx, ny, r.x) && IsField(nx, ny, r.x0)
  {
    var added := AddScaled(x, s, dt);
    var diffused := DiffuseField(nx, ny, 0, x0, added, diff, dt);
    Density(AdvectField(nx, ny, 0, added, diffused, u, v, dt), diffused)
  }

  /** Densities, sources and the diffusion scratch field stay non-negative
      through a density step, whatever the velocity. */
  lemma DensityStepNonNegative(nx: nat, ny: nat, s: seq<real>, x: seq<real>, x0: seq<real>, u: seq<real>, v: seq<real>,
                               diff: real, dt: real)
    requires ValidSize(nx, ny) && IsField(nx, ny, s) && IsField(nx, ny, x) && IsField(nx, ny, x0)
    requires IsField(nx, ny, u) && IsField(nx, ny, v) && diff >= 0.0 && dt >= 0.0
    requires NonNegative(s) && NonNegative(x) && NonNegative(x0)
    ensures var r := DensityStep(nx, ny, s, x, x0, u, v, diff, dt); NonNegative(r.x) && NonNegative(r.x0)
  {
    var added := AddScaled(x, s, dt);
    AddScaledNonNegative(x, s, dt);
    DiffuseNonNegative(nx, ny, x0, added, diff, dt);
    AdvectNonNegative(nx, ny, added, DiffuseField(nx, ny, 0, x0, added, diff, dt), u, v, dt);
  }

  /** With no diffusion and no flow a density step only adds the sources
      and fills the border; both arrays end up holding that field. */
  lemma DensityStepStill(nx: nat, ny: nat, s: seq<real>, x: seq<real>, x0: seq<real>, u: seq<real>, v: seq<real>, dt: real)
    requires ValidSize(nx, ny) && IsField(nx, ny, s) && IsField(nx, ny, x) && IsField(nx, ny, x0)
    requires IsField(nx, ny, u) && IsField(nx, ny, v) && dt >= 0.0
    requires forall x: nat, y: nat | Interior(nx, ny, x, y) :: u[Idx(nx, ny, x, y)] == 0.0 && v[Idx(nx, ny, x, y)] == 0.0
    ensures var r := DensityStep(nx, ny, s, x, x0, u, v, 0.0, dt);
      r.x == Bnd(nx, ny, 0, AddScaled(x, s, dt)) && r.x0 == r.x
  {
    var added := AddScaled(x, s, dt);
    DiffuseWithoutDiffusion(nx, ny, 0, x0, added, 0.0, dt);
    var diffused := Bnd(nx, ny, 0, added);
    AdvectStill(nx, ny, 0, added, diffused, u, v, dt);
    BndFills(nx, ny, 0, added);
    BndIdempotent(nx, ny, 0, diffused);
  }

  /** A field of zeros, the state the constructor leaves every array in. */
  function Zeros(n: nat): (z: seq<real>)
    ensures |z| == n && AllZero(z)
  {
    seq(n, _ => 0.0)
  }

  /** Diffusion of nothing from nothing is nothing. */
  lemma DiffuseOfZero(nx: nat, ny: nat, b: int, d: seq<real>, d0: seq<real>, diff: real, dt: real)
    requires ValidSize(nx, ny) && IsField(nx, ny, d) && IsField(nx, ny, d0) && diff >= 0.0 && dt >= 0.0
    requires AllZero(d) && AllZero(d0)
    ensures DiffuseField(nx, ny, b, d, d0, diff, dt) == d
  {
    var a := DiffusionRate(nx, ny, diff, dt);
    ZeroIsStationary(nx, ny, d, d0, a, DiffusionDivisor(a));
    ZeroConsistent(nx, ny, b, d);
    DiffuseKeepsEquilibrium(nx, ny, b, d, d0, diff, dt);
  }

  /** A density step over zero fields with no source leaves them zero. */
  lemma DensityStepAtRest(nx: nat, ny: nat, u: seq<real>, v: seq<real>, diff: real, dt: real)
    requires ValidSize(nx, ny) && IsField(nx, ny, u) && IsField(nx, ny, v) && diff >= 0.0 && dt >= 0.0
    ensures var z := Zeros(nx * ny); DensityStep(nx, ny, z, z, z, u, v, diff, dt) == Density(z, z)
  {
    var z := Zeros(nx * ny);
    AddScaledOfZero(z, z, dt);
    DiffuseOfZero(nx, ny, 0, z, z, diff, dt);
    AdvectOfZero(nx, ny, 0, z, z, u, v, dt);
    assert AdvectField(nx, ny, 0, z, z, u, v, dt) == z;
  }

  /** The four velocity arrays after `VelocityStep(u, v, u0, v0, …)`: the
      new velocity in `u` and `v`, and — because of the final `Project(u,
      v, u0, v0)` — the pressure in `u0` and the divergence in `v0`. */
  datatype Velocity = Velocity(u: seq<real>, v: seq<real>, u0: seq<real>, v0: seq<real>)

  /** The velocity step.  `r`, `g`, `b` are the densities `ApplyGravity`
      reads, `gu`, `gv` the stored gravity. */
  function VelocityStep(nx: nat, ny: nat, u: seq<real>, v: seq<real>, u0: seq<real>, v0: seq<real>,
                        r: seq<real>, g: seq<real>, b: seq<real>, gu: real, gv: real, visc: real, dt: real): (o: Velocity)
    requires ValidSize(nx, ny) && IsField(nx, ny, u) && IsField(nx, ny, v) && IsField(nx, ny, u0) && IsField(nx, ny, v0)
    requires IsField(nx, ny, r) && IsField(nx, ny, g) && IsField(nx, ny, b) && visc >= 0.0 && dt >= 0.0
    ensures IsField(nx, ny, o.u) && IsField(nx, ny, o.v) && IsField(nx, ny, o.u0) && IsField(nx, ny, o.v0)
  {
    // AddSources(u, u0); AddSources(v, v0); ApplyGravity
    var uArr := GravityField(nx, ny, AddScaled(u, u0, dt), r, g, b, gu, dt);
    var vArr := GravityField(nx, ny, AddScaled(v, v0, dt), r, g, b, gv, dt);
    // SWAP(u0, u); Diffuse(1, u, u0); SWAP(v0, v); Diffuse(2, v, v0)
    var u0Arr := DiffuseField(nx, ny, 1, u0, uArr, visc, dt);
    var v0Arr := DiffuseField(nx, ny, 2, v0, vArr, visc, dt);
    // Project(u, v, u0, v0) with u, v naming the arrays of u0, v0
    var first := Project(nx, ny, u0Arr, v0Arr, uArr, vArr);
    // SWAP(u0, u); SWAP(v0, v); Advect(1, u, u0, u0, v0); Advect(2, v, v0, u0, v0)
    var uAdv := AdvectField(nx, ny, 1, first.p, first.u, first.u, first.v, dt);
    var vAdv := AdvectField(nx, ny, 2, first.div, first.v, first.u, first.v, dt);
    // Project(u, v, u0, v0)
    var second := Project(nx, ny, uAdv, vAdv, first.u, first.v);
    Velocity(second.u, second.v, second.p, second.div)
  }

  /** The velocity leaves the step with reflecting borders: `u` negated
      across the left and right walls, `v` across the top and bottom ones,
      and both zero in the corners. */
  lemma VelocityStepConsistent(nx: nat, ny: nat, u: seq<real>, v: seq<real>, u0: seq<real>, v0: seq<real>,
                               r: seq<real>, g: seq<real>, b: seq<real>, gu: real, gv: real, visc: real, dt: real)
    requires ValidSize(nx, ny) && IsField(nx, ny, u) && IsField(nx, ny, v) && IsField(nx, ny, u0) && IsField(nx, ny, v0)
    requires IsField(nx, ny, r) && IsField(nx, ny, g) && IsField(nx, ny, b) && visc >= 0.0 && dt >= 0.0
    ensures var o := VelocityStep(nx, ny, u, v, u0, v0, r, g, b, gu, gv, visc, dt);
      Consistent(nx, ny, 1, o.u) && Consistent(nx, ny, 2, o.v)
      && o.u[Idx(nx, ny, 0, 0)] == 0.0 && o.u[Idx(nx, ny, 0, ny - 1)] == 0.0
      && o.u[Idx(nx, ny, nx - 1, 0)] == 0.0 && o.u[Idx(nx, ny, nx - 1, ny - 1)] == 0.0
      && o.v[Idx(nx, ny, 0, 0)] == 0.0 && o.v[Idx(nx, ny, 0, ny - 1)] == 0.0
      && o.v[Idx(nx, ny, nx - 1, 0)] == 0.0 && o.v[Idx(nx, ny, nx - 1, ny - 1)] == 0.0
  {
    var uArr := GravityField(nx, ny, AddScaled(u, u0, dt), r, g, b, gu, dt);
    var vArr := GravityField(nx, ny, AddScaled(v, v0, dt), r, g, b, gv, dt);
    var u0Arr := DiffuseField(nx, ny, 1, u0, uArr, visc, dt);
    var v0Arr := DiffuseField(nx, ny, 2, v0, vArr, visc, dt);
    var first := Project(nx, ny, u0Arr, v0Arr, uArr, vArr);
    var uAdv := AdvectField(nx, ny, 1, first.p, first.u, first.u, first.v, dt);
    var vAdv := AdvectField(nx, ny, 2, first.div, first.v, first.u, first.v, dt);
    var second := Project(nx, ny, uAdv, vAdv, first.u, first.v);
    ProjectConsistent(nx, ny, uAdv, vAdv, first.u, first.v);
    CornersOf(nx, ny, 1, second.u);
    CornersOf(nx, ny, 2, second.v);
  }

  /** With no velocity, no velocity source and no density to weigh on it,
      the velocity step leaves all four arrays zero. */
  lemma VelocityStepAtRest(nx: nat, ny: nat, r: seq<real>, g: seq<real>, b: seq<real>, gu: real, gv: real, visc: real, dt: real)
    requires ValidSize(nx, ny) && IsField(nx, ny, r) && IsField(nx, ny, g) && IsField(nx, ny, b)
    requires AllZero(r) && AllZero(g) && AllZero(b) && visc >= 0.0 && dt >= 0.0
    ensures var z := Zeros(nx * ny); VelocityStep(nx, ny, z, z, z, z, r, g, b, gu, gv, visc, dt) == Velocity(z, z, z, z)
  {
    var z := Zeros(nx * ny);
    AddScaledOfZero(z, z, dt);
    GravityFieldInert(nx, ny, z, r, g, b, gu, dt);
    GravityFieldInert(nx, ny, z, r, g, b, gv, dt);
    DiffuseOfZero(nx, ny, 1, z, z, visc, dt);
    DiffuseOfZero(nx, ny, 2, z, z, visc, dt);
    ProjectOfRest(nx, ny, z, z, z, z);
    var first := Project(nx, ny, z, z, z, z);
    assert first.u == z && first.v == z && first.p == z && first.div == z;
    AdvectOfZero(nx, ny, 1, z, z, z, z, dt);
    AdvectOfZero(nx, ny, 2, z, z, z, z, dt);
    assert AdvectField(nx, ny, 1, z, z, z, z, dt) == z;
    assert AdvectField(nx, ny, 2, z, z, z, z, dt) == z;
    ProjectOfRest(nx, ny, z, z, z, z);
  }

  /** The thirteen arrays of a `FluidSim`. */
  datatype Fields = Fields(
    r: seq<real>, g: seq<real>, b: seq<real>,
    r0: seq<real>, g0: seq<real>, b0: seq<real>,
    u: seq<real>, v: seq<real>, u0: seq<real>, v0: seq<real>,
    sr: seq<real>, sg: seq<real>, sb: seq<real>)

  predicate FieldsFit(nx: nat, ny: nat, f: Fields) {
    && IsField(nx, ny, f.r) && IsField(nx, ny, f.g) && IsField(nx, ny, f.b)
    && IsField(nx, ny, f.r0) && IsField(nx, ny, f.g0) && IsField(nx, ny, f.b0)
    && IsField(nx, ny, f.u) && IsField(nx, ny, f.v) && IsField(nx, ny, f.u0) && IsField(nx, ny, f.v0)
    && IsField(nx, ny, f.sr) && IsField(nx, ny, f.sg) && IsField(nx, ny, f.sb)
  }

  /** Every array zero: the state after construction. */
  function Rest(nx: nat, ny: nat): (f: Fields)
    ensures FieldsFit(nx, ny, f)
  {
    var z := Zeros(nx * ny);
    Fields(z, z, z, z, z, z, z, z, z, z, z, z, z)
  }

  /** `Update(dt)`: three density steps, one per colour channel, the
      velocity step (whose gravity reads the densities just computed), then
      decay of the three densities.  The sources are only read. */
  function Tick(nx: nat, ny: nat, f: Fields, visc: real, diff: real, decay: real, gu: real, gv: real, dt: real): (o: Fields)
    requires ValidSize(nx, ny) && FieldsFit(nx, ny, f) && visc >= 0.0 && diff >= 0.0 && dt >= 0.0
    ensures FieldsFit(nx, ny, o)
  {
    var red := DensityStep(nx, ny, f.sr, f.r, f.r0, f.u, f.v, diff, dt);
    var green := DensityStep(nx, ny, f.sg, f.g, f.g0, f.u, f.v, diff, dt);
    var blue := DensityStep(nx, ny, f.sb, f.b, f.b0, f.u, f.v, diff, dt);
    var flow := VelocityStep(nx, ny, f.u, f.v, f.u0, f.v0, red.x, green.x, blue.x, gu, gv, visc, dt);
    var amount := decay * dt;
    Fields(DecayField(nx, ny, red.x, amount), DecayField(nx, ny, green.x, amount), DecayField(nx, ny, blue.x, amount),
           red.x0, green.x0, blue.x0, flow.u, flow.v, flow.u0, flow.v0, f.sr, f.sg, f.sb)
  }

  /** `Tick` composed from its stages, named as `Update` runs them. */
  lemma TickStages(nx: nat, ny: nat, f: Fields, visc: real, diff: real, decay: real, gu: real, gv: real, dt: real,
                   red: Density, green: Density, blue: Density, flow: Velocity)
    requires ValidSize(nx, ny) && FieldsFit(nx, ny, f) && visc >= 0.0 && diff >= 0.0 && dt >= 0.0
    requires red == DensityStep(nx, ny, f.sr, f.r, f.r0, f.u, f.v, diff, dt)
    requires green == DensityStep(nx, ny, f.sg, f.g, f.g0, f.u, f.v, diff, dt)
    requires blue == DensityStep(nx, ny, f.sb, f.b, f.b0, f.u, f.v, diff, dt)
    requires flow == VelocityStep(nx, ny, f.u, f.v, f.u0, f.v0, red.x, green.x, blue.x, gu, gv, visc, dt)
    ensures Tick(nx, ny, f, visc, diff, decay, gu, gv, dt)
         == Fields(DecayField(nx, ny, red.x, decay * dt), DecayField(nx, ny, green.x, decay * dt),
                   DecayField(nx, ny, blue.x, decay * dt), red.x0, green.x0, blue.x0,
                   flow.u, flow.v, flow.u0, flow.v0, f.sr, f.sg, f.sb)
  {
  }

  /** An empty tank with no sources stays empty, provided decay does not
      run backwards (a negative `decay * dt` would raise every interior
      cell above zero). */
  lemma TickAtRest(nx: nat, ny: nat, visc: real, diff: real, decay: real, gu: real, gv: real, dt: real)
    requires ValidSize(nx, ny) && visc >= 0.0 && diff >= 0.0 && dt >= 0.0 && decay * dt >= 0.0
    ensures Tick(nx, ny, Rest(nx, ny), visc, diff, decay, gu, gv, dt) == Rest(nx, ny)
  {
    var z := Zeros(nx * ny);
    DensityStepAtRest(nx, ny, z, z, diff, dt);
    VelocityStepAtRest(nx, ny, z, z, z, gu, gv, visc, dt);
    DecayFieldShrinks(nx, ny, z, decay * dt);
    assert DecayField(nx, ny, z, decay * dt) == z;
  }

  /** Colour never goes negative: with non-negative sources, a tick keeps
      every density array non-negative, whatever the velocity, gravity or
      decay. */
  lemma TickKeepsDensityNonNegative(nx: nat, ny: nat, f: Fields, visc: real, diff: real, decay: real, gu: real, gv: real, dt: real)
    requires ValidSize(nx, ny) && FieldsFit(nx, ny, f) && visc >= 0.0 && diff >= 0.0 && dt >= 0.0
    requires NonNegative(f.r) && NonNegative(f.g) && NonNegative(f.b)
    requires NonNegative(f.r0) && NonNegative(f.g0) && NonNegative(f.b0)
    requires NonNegative(f.sr) && NonNegative(f.sg) && NonNegative(f.sb)
    ensures var o := Tick(nx, ny, f, visc, diff, decay, gu, gv, dt);
      && NonNegative(o.r) && NonNegative(o.g) && NonNegative(o.b)
      && NonNegative(o.r0) && NonNegative(o.g0) && NonNegative(o.b0)
  {
    var red := DensityStep(nx, ny, f.sr, f.r, f.r0, f.u, f.v, diff, dt);
    var green := DensityStep(nx, ny, f.sg, f.g, f.g0, f.u, f.v, diff, dt);
    var blue := DensityStep(nx, ny, f.sb, f.b, f.b0, f.u, f.v, diff, dt);
    DensityStepNonNegative(nx, ny, f.sr, f.r, f.r0, f.u, f.v, diff, dt);
    DensityStepNonNegative(nx, ny, f.sg, f.g, f.g0, f.u, f.v, diff, dt);
    DensityStepNonNegative(nx, ny, f.sb, f.b, f.b0, f.u, f.v, diff, dt);
    DecayFieldBounds(nx, ny, red.x, decay * dt);
    DecayFieldBounds(nx, ny, green.x, decay * dt);
    DecayFieldBounds(nx, ny, blue.x, decay * dt);
  }
}
