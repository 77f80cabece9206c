/** The simulation object (`FluidSim`, FluidSim.h:9-72 and FluidSim.cpp).

    Thirteen arrays of `sizeX * sizeY` cells are allocated once by the
    constructor and updated in place by every other operation.  The private
    steps take arrays as parameters, as the source's `float*` arguments do;
    `DensityStep` and `VelocityStep` swap their local array references between
    stages exactly as the `SWAP` macro does.  Every method is proved to
    leave its arrays holding the pure function of the previous contents
    that the modules `Boundary` … `Steps` define. */
module Solver {
  import opened Grid
  import opened Boundary
  import opened Relaxation
  import opened Pointwise
  import opened Edits
  import opened Advection
  import opened Projection
  import opened Steps

  class FluidSim {
    const sizeX: nat
    const sizeY: nat
    const numPoints: nat

    const viscosity: real
    const diffusion: real
    const decay: real

    const densitiesR: array<real>
    const densitiesG: array<real>
    const densitiesB: array<real>
    const densitiesR0: array<real>
    const densitiesG0: array<real>
    const densitiesB0: array<real>
    const velocitiesU: array<real>
    const velocitiesV: array<real>
    const velocitiesU0: array<real>
    const velocitiesV0: array<real>
    const sourcesR: array<real>
    const sourcesG: array<real>
    const sourcesB: array<real>

    var gravityU: real
    var gravityV: real

    /** The sizes describe a grid with an interior, every array has one
        cell per grid point, and no two of the arrays are the same. */
    predicate Valid() {
      && ValidSize(sizeX, sizeY) && numPoints == sizeX * sizeY
      && densitiesR.Length == numPoints
      && densitiesG.Length == numPoints
      && densitiesB.Length == numPoints
      && densitiesR0.Length == numPoints
      && densitiesG0.Length == numPoints
      && densitiesB0.Length == numPoints
      && velocitiesU.Length == numPoints
      && velocitiesV.Length == numPoints
      && velocitiesU0.Length == numPoints
      && velocitiesV0.Length == numPoints
      && sourcesR.Length == numPoints
      && sourcesG.Length == numPoints
      && sourcesB.Length == numPoints
      && densitiesR != densitiesG && densitiesR != densitiesB && densitiesR != densitiesR0
      && densitiesR != densitiesG0 && densitiesR != densitiesB0 && densitiesR != velocitiesU
      && densitiesR != velocitiesV && densitiesR != velocitiesU0 && densitiesR != velocitiesV0
      && densitiesR != sourcesR && densitiesR != sourcesG && densitiesR != sourcesB
      && densitiesG != densitiesB && densitiesG != densitiesR0 && densitiesG != densitiesG0
      && densitiesG != densitiesB0 && densitiesG != velocitiesU && densitiesG != velocitiesV
      && densitiesG != velocitiesU0 && densitiesG != velocitiesV0 && densitiesG != sourcesR
      && densitiesG != sourcesG && densitiesG != sourcesB && densitiesB != densitiesR0
      && densitiesB != densitiesG0 && densitiesB != densitiesB0 && densitiesB != velocitiesU
      && densitiesB != velocitiesV && densitiesB != velocitiesU0 && densitiesB != velocitiesV0
      && densitiesB != sourcesR && densitiesB != sourcesG && densitiesB != sourcesB
      && densitiesR0 != densitiesG0 && densitiesR0 != densitiesB0 && densitiesR0 != velocitiesU
      && densitiesR0 != velocitiesV && densitiesR0 != velocitiesU0 && densitiesR0 != velocitiesV0
      && densitiesR0 != sourcesR && densitiesR0 != sourcesG && densitiesR0 != sourcesB
      && densitiesG0 != densitiesB0 && densitiesG0 != velocitiesU && densitiesG0 != velocitiesV
      && densitiesG0 != velocitiesU0 && densitiesG0 != velocitiesV0 && densitiesG0 != sourcesR
      && densitiesG0 != sourcesG && densitiesG0 != sourcesB && densitiesB0 != velocitiesU
      && densitiesB0 != velocitiesV && densitiesB0 != velocitiesU0 && densitiesB0 != velocitiesV0
      && densitiesB0 != sourcesR && densitiesB0 != sourcesG && densitiesB0 != sourcesB
      && velocitiesU != velocitiesV && velocitiesU != velocitiesU0 && velocitiesU != velocitiesV0
      && velocitiesU != sourcesR && velocitiesU != sourcesG && velocitiesU != sourcesB
      && velocitiesV != velocitiesU0 && velocitiesV != velocitiesV0 && velocitiesV != sourcesR
      && velocitiesV != sourcesG && velocitiesV != sourcesB && velocitiesU0 != velocitiesV0
      && velocitiesU0 != sourcesR && velocitiesU0 != sourcesG && velocitiesU0 != sourcesB
      && velocitiesV0 != sourcesR && velocitiesV0 != sourcesG && velocitiesV0 != sourcesB
      && sourcesR != sourcesG && sourcesR != sourcesB && sourcesG != sourcesB
    }

    /** The contents of the thirteen arrays. */
    function Snapshot(): Fields
      reads densitiesR, densitiesG, densitiesB, densitiesR0, densitiesG0, densitiesB0, velocitiesU, velocitiesV, velocitiesU0, velocitiesV0, sourcesR, sourcesG, sourcesB
    {
      Fields(
        densitiesR[..], densitiesG[..], densitiesB[..],
        densitiesR0[..], densitiesG0[..], densitiesB0[..],
        velocitiesU[..], velocitiesV[..], velocitiesU0[..], velocitiesV0[..],
        sourcesR[..], sourcesG[..], sourcesB[..])
    }

    /** `new float[n]` followed by `memset(…, 0, …)`. */
    static method ZeroFilled(n: nat) returns (a: array<real>)
      ensures fresh(a) && a[..] == Zeros(n)
    {
      a := new real[n];
      var i := 0;
      while i < n
        invariant 0 <= i <= n
        invariant forall j | 0 <= j < i :: a[j] == 0.0
      {
        a[i] := 0.0;
        i := i + 1;
      }
    }

    /** `FluidSim(size_x, size_y, viscosity, diffusion, decay)`: every array
        zero-filled, no gravity. */
    constructor (size_x: nat, size_y: nat, viscosity: real, diffusion: real, decay: real)
      requires ValidSize(size_x, size_y)
      ensures Valid()
      ensures sizeX == size_x && sizeY == size_y
      ensures this.viscosity == viscosity && this.diffusion == diffusion && this.decay == decay
      ensures gravityU == 0.0 && gravityV == 0.0
      ensures Snapshot() == Rest(sizeX, sizeY)
    {
      sizeX := size_x;
      sizeY := size_y;
      numPoints := size_x * size_y;
      this.viscosity := viscosity;
      this.diffusion := diffusion;
      this.decay := decay;
      gravityU := 0.0;
      gravityV := 0.0;
      var densitiesR' := ZeroFilled(size_x * size_y);
      var densitiesG' := ZeroFilled(size_x * size_y);
      var densitiesB' := ZeroFilled(size_x * size_y);
      var densitiesR0' := ZeroFilled(size_x * size_y);
      var densitiesG0' := ZeroFilled(size_x * size_y);
      var densitiesB0' := ZeroFilled(size_x * size_y);
      var velocitiesU' := ZeroFilled(size_x * size_y);
      var velocitiesV' := ZeroFilled(size_x * size_y);
      var velocitiesU0' := ZeroFilled(size_x * size_y);
      var velocitiesV0' := ZeroFilled(size_x * size_y);
      var sourcesR' := ZeroFilled(size_x * size_y);
      var sourcesG' := ZeroFilled(size_x * size_y);
      var sourcesB' := ZeroFilled(size_x * size_y);
      densitiesR := densitiesR';
      densitiesG := densitiesG';
      densitiesB := densitiesB';
      densitiesR0 := densitiesR0';
      densitiesG0 := densitiesG0';
      densitiesB0 := densitiesB0';
      velocitiesU := velocitiesU';
      velocitiesV := velocitiesV';
      velocitiesU0 := velocitiesU0';
      velocitiesV0 := velocitiesV0';
      sourcesR := sourcesR';
      sourcesG := sourcesG';
      sourcesB := sourcesB';
      new;
    }

    /** `SetBnd(b, d)`: the top and bottom edges column by column, then the
        left and right edges row by row, then the corners; the result is
        `Bnd` of the field it started from. */
    method SetBnd(b: int, d: array<real>)
      requires ValidSize(sizeX, sizeY) && d.Length == sizeX * sizeY
      modifies d
      ensures d[..] == Bnd(sizeX, sizeY, b, old(d[..]))
    {
      var nx, ny := sizeX, sizeY;
      ghost var s0 := d[..];
      SetEdgeColumns(nx, ny, b, d);
      SetEdgeRows(nx, ny, b, d);
      SetCorners(nx, ny, d);
      SetBndOrder(nx, ny, b, s0);
    }

    /** `SetBnd`'s first loop, over the columns 1 .. nx-2. */
    static method SetEdgeColumns(nx: nat, ny: nat, b: int, d: array<real>)
      requires ValidSize(nx, ny) && d.Length == nx * ny
      modifies d
      ensures d[..] == FillRows(nx, ny, b, old(d[..]), nx - 1)
    {
      ghost var s0 := d[..];
      var x := 1;
      while x < nx - 1
        invariant 1 <= x <= nx - 1
        invariant d[..] == FillRows(nx, ny, b, s0, x)
      {
        SetEdgeColumn(nx, ny, b, d, x);
        x := x + 1;
      }
    }

    /** `SetBnd`'s second loop, over the rows 1 .. ny-2. */
    static method SetEdgeRows(nx: nat, ny: nat, b: int, d: array<real>)
      requires ValidSize(nx, ny) && d.Length == nx * ny
      modifies d
      ensures d[..] == FillColumns(nx, ny, b, old(d[..]), ny - 1)
    {
      ghost var s0 := d[..];
      var y := 1;
      while y < ny - 1
        invariant 1 <= y <= ny - 1
        invariant d[..] == FillColumns(nx, ny, b, s0, y)
      {
        SetEdgeRow(nx, ny, b, d, y);
        y := y + 1;
      }
    }

    /** One Gauss-Seidel sweep over the interior in row-major order, the two
        inner loops of `Diffuse` and of the pressure solve in `Project`:
        each cell becomes its source term plus `a` times its four
        neighbours, divided by `c`. */
    static method RelaxSweep(nx: nat, ny: nat, d: array<real>, src: array<real>, a: real, c: real)
      requires ValidSize(nx, ny) && d.Length == nx * ny && src.Length == nx * ny && d != src && c != 0.0
      modifies d
      ensures d[..] == Sweep(nx, ny, old(d[..]), src[..], a, c)
    {
      ghost var s0 := d[..];
      var y := 1;
      while y < ny - 1
        invariant 1 <= y <= ny - 1
        invariant SweepFrom(nx, ny, d[..], src[..], a, c, 1, y) == Sweep(nx, ny, s0, src[..], a, c)
      {
        var x := 1;
        while x < nx - 1
          invariant 1 <= x <= nx - 1
          invariant SweepFrom(nx, ny, d[..], src[..], a, c, x, y) == Sweep(nx, ny, s0, src[..], a, c)
        {
          var here, left, right := src[Idx(nx, ny, x, y)], d[Idx(nx, ny, x - 1, y)], d[Idx(nx, ny, x + 1, y)];
          var up, down := d[Idx(nx, ny, x, y - 1)], d[Idx(nx, ny, x, y + 1)];
          SweepFromCell(nx, ny, d[..], src[..], a, c, x, y, here, left, right, up, down);
          d[Idx(nx, ny, x, y)] := (here + a * (left + right + up + down)) / c;
          x := x + 1;
        }
        y := y + 1;
      }
    }

    /** `Diffuse(b, d, d0, diff, dt)`: ten rounds of a sweep with coupling
        `a = dt * diff * sizeX * sizeY` and divisor `1 + 4a` followed by
        `SetBnd(b, d)`. */
    method Diffuse(b: int, d: array<real>, d0: array<real>, diff: real, dt: real)
      requires ValidSize(sizeX, sizeY) && d.Length == sizeX * sizeY && d0.Length == sizeX * sizeY && d != d0
      requires diff >= 0.0 && dt >= 0.0
      modifies d
      ensures d[..] == DiffuseField(sizeX, sizeY, b, old(d[..]), d0[..], diff, dt)
    {
      var nx, ny := sizeX, sizeY;
      var a := dt * diff * (nx as real) * (ny as real);
      var c := 1.0 + 4.0 * a;
      assert a == DiffusionRate(nx, ny, diff, dt);
      ghost var s0 := d[..];
      var k := 0;
      while k < SolverIterations
        invariant 0 <= k <= SolverIterations
        invariant d[..] == Relaxed(nx, ny, b, s0, d0[..], a, c, k)
      {
        RelaxedNext(nx, ny, b, s0, d0[..], a, c, k, d[..]);
        RelaxSweep(nx, ny, d, d0, a, c);
        SetBnd(b, d);
        k := k + 1;
      }
    }

    /** The body of `Advect`'s interior loop: trace cell (x, y) back by
        `dt0` times its velocity, clamp to `[0.5, n - 1.501]` on each axis,
        split into grid line and weight, and interpolate `d0` between the
        four cells around that point. */
    static method AdvectedValue(nx: nat, ny: nat, d0: array<real>, u: array<real>, v: array<real>, dt: real, dt0: real, x: nat, y: nat)
      returns (w: real)
      requires ValidSize(nx, ny) && d0.Length == nx * ny && u.Length == nx * ny && v.Length == nx * ny
      requires Interior(nx, ny, x, y) && dt0 == dt * nx as real
      ensures w == AdvectCell(nx, ny, d0[..], u[..], v[..], dt, x, y)
    {
      var sx := Backtrace(nx, x, u[Idx(nx, ny, x, y)], dt0);
      var sy := Backtrace(ny, y, v[Idx(nx, ny, x, y)], dt0);
      var i0, i1, j0, j1 := sx.lower, sx.lower + 1, sy.lower, sy.lower + 1;
      var s1, t1 := sx.weight, sy.weight;
      var s0, t0 := 1.0 - s1, 1.0 - t1;
      var p00, p01 := d0[Idx(nx, ny, i0, j0)], d0[Idx(nx, ny, i0, j1)];
      var p10, p11 := d0[Idx(nx, ny, i1, j0)], d0[Idx(nx, ny, i1, j1)];
      BilinearOf(nx, ny, d0[..], sx, sy, s0, s1, t0, t1, p00, p01, p10, p11);
      w := s0 * (t0 * p00 + t1 * p01) + s1 * (t0 * p10 + t1 * p11);
    }

    /** One pass of `Advect`'s inner loop: cell (x, y) of `d` takes its
        advected value, which moves the pass one cell further. */
    static method AdvectAt(nx: nat, ny: nat, d: array<real>, d0: array<real>, u: array<real>, v: array<real>,
                           dt: real, dt0: real, x: nat, y: nat, ghost init: seq<real>)
      requires ValidSize(nx, ny) && d.Length == nx * ny && d0.Length == nx * ny
      requires u.Length == nx * ny && v.Length == nx * ny && |init| == nx * ny
      requires d != d0 && d != u && d != v
      requires Interior(nx, ny, x, y) && dt0 == dt * nx as real
      requires d[..] == Scanned(AdvectTable(nx, ny, init, d0[..], u[..], v[..], dt), init, Idx(nx, ny, x, y))
      modifies d
      ensures d[..] == Scanned(AdvectTable(nx, ny, init, d0[..], u[..], v[..], dt), init, Idx(nx, ny, x, y) + 1)
    {
      var w := AdvectedValue(nx, ny, d0, u, v, dt, dt0, x, y);
      AdvectCellStep(nx, ny, init, d0[..], u[..], v[..], dt, x, y, w);
      d[Idx(nx, ny, x, y)] := w;
    }

    /** One row of the interior loop of `Advect`. */
    static method AdvectRow(nx: nat, ny: nat, d: array<real>, d0: array<real>, u: array<real>, v: array<real>,
                            dt: real, dt0: real, y: nat,
                            ghost init: seq<real>, ghost prev: seq<real>, ghost us: seq<real>, ghost vs: seq<real>)
      requires ValidSize(nx, ny) && d.Length == nx * ny && d0.Length == nx * ny
      requires u.Length == nx * ny && v.Length == nx * ny && |init| == nx * ny
      requires d != d0 && d != u && d != v && dt0 == dt * nx as real && 0 < y < ny - 1
      requires d0[..] == prev && u[..] == us && v[..] == vs
      requires d[..] == Scanned(AdvectTable(nx, ny, init, prev, us, vs, dt), init, Idx(nx, ny, 1, y))
      modifies d
      ensures d[..] == Scanned(AdvectTable(nx, ny, init, prev, us, vs, dt), init, Idx(nx, ny, 1, y + 1))
    {
      var x := 1;
      while x < nx - 1
        invariant 1 <= x <= nx - 1
        invariant d[..] == Scanned(AdvectTable(nx, ny, init, d0[..], u[..], v[..], dt), init, Idx(nx, ny, x, y))
      {
        AdvectAt(nx, ny, d, d0, u, v, dt, dt0, x, y, init);
        x := x + 1;
      }
      AdvectScanRow(nx, ny, init, prev, us, vs, dt, y);
    }

    /** The interior loop of `Advect`: every interior cell of `d` becomes
        the bilinear interpolation of `d0` at the point its velocity
        `(u, v)` traces back to over `dt`, clamped to the grid. */
    static method AdvectInterior(nx: nat, ny: nat, d: array<real>, d0: array<real>, u: array<real>, v: array<real>, dt: real)
      requires ValidSize(nx, ny) && d.Length == nx * ny && d0.Length == nx * ny
      requires u.Length == nx * ny && v.Length == nx * ny
      requires d != d0 && d != u && d != v
      modifies d
      ensures d[..] == AdvectTable(nx, ny, old(d[..]), d0[..], u[..], v[..], dt)
    {
      var dt0 := dt * nx as real;
      ghost var init, prev, us, vs := d[..], d0[..], u[..], v[..];
      AdvectScanEnds(nx, ny, init, prev, us, vs, dt);
      var y := 1;
      while y < ny - 1
        invariant 1 <= y <= ny - 1
        invariant d0[..] == prev && u[..] == us && v[..] == vs
        invariant d[..] == Scanned(AdvectTable(nx, ny, init, prev, us, vs, dt), init, Idx(nx, ny, 1, y))
      {
        AdvectRow(nx, ny, d, d0, u, v, dt, dt0, y, init, prev, us, vs);
        y := y + 1;
      }
    }

    /** `Advect(b, d, d0, u, v, dt)`: the interior loop, then
        `SetBnd(b, d)`. */
    method Advect(b: int, d: array<real>, d0: array<real>, u: array<real>, v: array<real>, dt: real)
      requires ValidSize(sizeX, sizeY) && d.Length == sizeX * sizeY && d0.Length == sizeX * sizeY
      requires u.Length == sizeX * sizeY && v.Length == sizeX * sizeY
      requires d != d0 && d != u && d != v
      modifies d
      ensures d[..] == AdvectField(sizeX, sizeY, b, old(d[..]), d0[..], u[..], v[..], dt)
    {
      var nx, ny := sizeX, sizeY;
      AdvectInterior(nx, ny, d, d0, u, v, dt);
      SetBnd(b, d);
    }

    /** `div[IDX(x,y)] = -0.5 * h * (u[x+1,y] - u[x-1,y] + v[x,y+1] - v[x,y-1])`,
        one step of the first loop of `Project`. */
    static method StoreDivergence(nx: nat, ny: nat, u: array<real>, v: array<real>, div: array<real>, h: real,
                                  x: nat, y: nat, ghost div0: seq<real>)
      requires ValidSize(nx, ny) && u.Length == nx * ny && v.Length == nx * ny && div.Length == nx * ny
      requires |div0| == nx * ny && div != u && div != v && h == Spacing(nx) && Interior(nx, ny, x, y)
      requires div[..] == Scanned(DivergenceTable(nx, ny, u[..], v[..], div0), div0, Idx(nx, ny, x, y))
      modifies div
      ensures div[..] == Scanned(DivergenceTable(nx, ny, u[..], v[..], div0), div0, Idx(nx, ny, x, y) + 1)
    {
      var right, left := u[Idx(nx, ny, x + 1, y)], u[Idx(nx, ny, x - 1, y)];
      var down, up := v[Idx(nx, ny, x, y + 1)], v[Idx(nx, ny, x, y - 1)];
      DivergenceStep(nx, ny, u[..], v[..], div0, x, y, h, right, left, down, up);
      div[Idx(nx, ny, x, y)] := -0.5 * h * (right - left + down - up);
    }

    /** `p[IDX(x,y)] = 0`, the other half of that step. */
    static method ClearPressure(nx: nat, ny: nat, p: array<real>, x: nat, y: nat, ghost p0: seq<real>)
      requires ValidSize(nx, ny) && p.Length == nx * ny && |p0| == nx * ny && Interior(nx, ny, x, y)
      requires p[..] == Scanned(ClearedTable(nx, ny, p0), p0, Idx(nx, ny, x, y))
      modifies p
      ensures p[..] == Scanned(ClearedTable(nx, ny, p0), p0, Idx(nx, ny, x, y) + 1)
    {
      ClearedStep(nx, ny, p0, x, y);
      p[Idx(nx, ny, x, y)] := 0.0;
    }

    /** `u[IDX(x,y)] -= 0.5 * (p[x+1,y] - p[x-1,y]) / h`, one step of the
        last loop of `Project`. */
    static method SubtractGradientU(nx: nat, ny: nat, u: array<real>, p: array<real>, h: real,
                                    x: nat, y: nat, ghost u0: seq<real>)
      requires ValidSize(nx, ny) && u.Length == nx * ny && p.Length == nx * ny && |u0| == nx * ny
      requires u != p && h == Spacing(nx) && Interior(nx, ny, x, y)
      requires u[..] == Scanned(GradientU(nx, ny, u0, p[..]), u0, Idx(nx, ny, x, y))
      modifies u
      ensures u[..] == Scanned(GradientU(nx, ny, u0, p[..]), u0, Idx(nx, ny, x, y) + 1)
    {
      var k := Idx(nx, ny, x, y);
      var here, right, left := u[k], p[Idx(nx, ny, x + 1, y)], p[Idx(nx, ny, x - 1, y)];
      GradientUStep(nx, ny, u0, p[..], x, y, h, here, right, left);
      u[k] := here - 0.5 * (right - left) / h;
    }

    /** `v[IDX(x,y)] -= 0.5 * (p[x,y+1] - p[x,y-1]) / h`, the other half of
        that step. */
    static method SubtractGradientV(nx: nat, ny: nat, v: array<real>, p: array<real>, h: real,
                                    x: nat, y: nat, ghost v0: seq<real>)
      requires ValidSize(nx, ny) && v.Length == nx * ny && p.Length == nx * ny && |v0| == nx * ny
      requires v != p && h == Spacing(nx) && Interior(nx, ny, x, y)
      requires v[..] == Scanned(GradientV(nx, ny, v0, p[..]), v0, Idx(nx, ny, x, y))
      modifies v
      ensures v[..] == Scanned(GradientV(nx, ny, v0, p[..]), v0, Idx(nx, ny, x, y) + 1)
    {
      var k := Idx(nx, ny, x, y);
      var here, down, up := v[k], p[Idx(nx, ny, x, y + 1)], p[Idx(nx, ny, x, y - 1)];
      GradientVStep(nx, ny, v0, p[..], x, y, h, here, down, up);
      v[k] := here - 0.5 * (down - up) / h;
    }

    /** One row of the first loop of `Project`. */
    static method DivergenceRow(nx: nat, ny: nat, u: array<real>, v: array<real>, p: array<real>, div: array<real>, h: real,
                                y: nat, ghost us: seq<real>, ghost vs: seq<real>, ghost div0: seq<real>, ghost p0: seq<real>)
      requires ValidSize(nx, ny) && u.Length == nx * ny && v.Length == nx * ny
      requires p.Length == nx * ny && div.Length == nx * ny && h == Spacing(nx)
      requires p != div && p != u && p != v && div != u && div != v
      requires |div0| == nx * ny && |p0| == nx * ny && 0 < y < ny - 1 && u[..] == us && v[..] == vs
      requires div[..] == Scanned(DivergenceTable(nx, ny, us, vs, div0), div0, Idx(nx, ny, 1, y))
      requires p[..] == Scanned(ClearedTable(nx, ny, p0), p0, Idx(nx, ny, 1, y))
      modifies p, div
      ensures div[..] == Scanned(DivergenceTable(nx, ny, us, vs, div0), div0, Idx(nx, ny, 1, y + 1))
      ensures p[..] == Scanned(ClearedTable(nx, ny, p0), p0, Idx(nx, ny, 1, y + 1))
    {
      var x := 1;
      while x < nx - 1
        invariant 1 <= x <= nx - 1
        invariant div[..] == Scanned(DivergenceTable(nx, ny, u[..], v[..], div0), div0, Idx(nx, ny, x, y))
        invariant p[..] == Scanned(ClearedTable(nx, ny, p0), p0, Idx(nx, ny, x, y))
      {
        StoreDivergence(nx, ny, u, v, div, h, x, y, div0);
        ClearPressure(nx, ny, p, x, y, p0);
        x := x + 1;
      }
      DivergenceScanRow(nx, ny, us, vs, div0, p0, y);
    }

    /** The first loop of `Project`: every interior cell of `div` gets the
        scaled divergence of `(u, v)` and every interior cell of `p` is
        cleared. */
    static method DivergencePass(nx: nat, ny: nat, u: array<real>, v: array<real>, p: array<real>, div: array<real>, h: real)
      requires ValidSize(nx, ny) && u.Length == nx * ny && v.Length == nx * ny
      requires p.Length == nx * ny && div.Length == nx * ny && h == Spacing(nx)
      requires p != div && p != u && p != v && div != u && div != v
      modifies p, div
      ensures div[..] == DivergenceTable(nx, ny, u[..], v[..], old(div[..]))
      ensures p[..] == ClearedTable(nx, ny, old(p[..]))
    {
      ghost var us, vs, div0, p0 := u[..], v[..], div[..], p[..];
      DivergenceScanEnds(nx, ny, us, vs, div0, p0);
      var y := 1;
      while y < ny - 1
        invariant 1 <= y <= ny - 1
        invariant u[..] == us && v[..] == vs
        invariant div[..] == Scanned(DivergenceTable(nx, ny, us, vs, div0), div0, Idx(nx, ny, 1, y))
        invariant p[..] == Scanned(ClearedTable(nx, ny, p0), p0, Idx(nx, ny, 1, y))
      {
        DivergenceRow(nx, ny, u, v, p, div, h, y, us, vs, div0, p0);
        y := y + 1;
      }
    }

    /** One row of the last loop of `Project`. */
    static method GradientRow(nx: nat, ny: nat, u: array<real>, v: array<real>, p: array<real>, h: real,
                              y: nat, ghost u0: seq<real>, ghost v0: seq<real>)
      requires ValidSize(nx, ny) && u.Length == nx * ny && v.Length == nx * ny && p.Length == nx * ny
      requires h == Spacing(nx) && u != v && u != p && v != p
      requires |u0| == nx * ny && |v0| == nx * ny && 0 < y < ny - 1
      requires u[..] == Scanned(GradientU(nx, ny, u0, p[..]), u0, Idx(nx, ny, 1, y))
      requires v[..] == Scanned(GradientV(nx, ny, v0, p[..]), v0, Idx(nx, ny, 1, y))
      modifies u, v
      ensures u[..] == Scanned(GradientU(nx, ny, u0, p[..]), u0, Idx(nx, ny, 1, y + 1))
      ensures v[..] == Scanned(GradientV(nx, ny, v0, p[..]), v0, Idx(nx, ny, 1, y + 1))
    {
      var x := 1;
      while x < nx - 1
        invariant 1 <= x <= nx - 1
        invariant u[..] == Scanned(GradientU(nx, ny, u0, p[..]), u0, Idx(nx, ny, x, y))
        invariant v[..] == Scanned(GradientV(nx, ny, v0, p[..]), v0, Idx(nx, ny, x, y))
      {
        SubtractGradientU(nx, ny, u, p, h, x, y, u0);
        SubtractGradientV(nx, ny, v, p, h, x, y, v0);
        x := x + 1;
      }
      GradientScanRow(nx, ny, u0, v0, p[..], y);
    }

    /** The last loop of `Project`: every interior cell of `u` loses half
        the horizontal pressure difference over `h`, and of `v` half the
        vertical one. */
    static method GradientPass(nx: nat, ny: nat, u: array<real>, v: array<real>, p: array<real>, h: real)
      requires ValidSize(nx, ny) && u.Length == nx * ny && v.Length == nx * ny && p.Length == nx * ny
      requires h == Spacing(nx) && u != v && u != p && v != p
      modifies u, v
      ensures u[..] == GradientU(nx, ny, old(u[..]), p[..])
      ensures v[..] == GradientV(nx, ny, old(v[..]), p[..])
    {
      ghost var u0, v0, ps := u[..], v[..], p[..];
      GradientScanEnds(nx, ny, u0, v0, ps);
      var y := 1;
      while y < ny - 1
        invariant 1 <= y <= ny - 1
        invariant p[..] == ps
        invariant u[..] == Scanned(GradientU(nx, ny, u0, ps), u0, Idx(nx, ny, 1, y))
        invariant v[..] == Scanned(GradientV(nx, ny, v0, ps), v0, Idx(nx, ny, 1, y))
      {
        GradientRow(nx, ny, u, v, p, h, y, u0, v0);
        y := y + 1;
      }
    }

    /** `Project(u, v, p, div)`: the divergence into `div` with `p`
        cleared, both borders filled; ten rounds of the pressure sweep (the
        stencil with coupling 1 and divisor 4) each followed by
        `SetBnd(0, p)`; the gradient subtracted from `u` and `v`, whose
        borders are then filled with kinds 1 and 2. */
    method Project(u: array<real>, v: array<real>, p: array<real>, div: array<real>)
      requires ValidSize(sizeX, sizeY) && u.Length == sizeX * sizeY && v.Length == sizeX * sizeY
      requires p.Length == sizeX * sizeY && div.Length == sizeX * sizeY
      requires u != v && u != p && u != div && v != p && v != div && p != div
      modifies u, v, p, div
      ensures var r := Projection.Project(sizeX, sizeY, old(u[..]), old(v[..]), old(p[..]), old(div[..]));
        u[..] == r.u && v[..] == r.v && p[..] == r.p && div[..] == r.div
    {
      var nx, ny := sizeX, sizeY;
      var h := 1.0 / nx as real;
      DivergencePass(nx, ny, u, v, p, div, h);
      SetBnd(0, div);
      SetBnd(0, p);
      ghost var u1, v1, p1, div1 := u[..], v[..], p[..], div[..];
      var k := 0;
      while k < SolverIterations
        invariant 0 <= k <= SolverIterations
        invariant p[..] == Relaxed(nx, ny, 0, p1, div1, 1.0, 4.0, k)
        invariant u[..] == u1 && v[..] == v1 && div[..] == div1
      {
        RelaxedNext(nx, ny, 0, p1, div1, 1.0, 4.0, k, p[..]);
        RelaxSweep(nx, ny, p, div, 1.0, 4.0);
        SetBnd(0, p);
        k := k + 1;
      }
      GradientPass(nx, ny, u, v, p, h);
      SetBnd(1, u);
      SetBnd(2, v);
    }

    /** The body of `SetBnd`'s first loop: the top cell of column x from the
        cell below it, then the bottom cell from the cell above it. */
    static method SetEdgeColumn(nx: nat, ny: nat, b: int, d: array<real>, x: nat)
      requires ValidSize(nx, ny) && d.Length == nx * ny && 0 < x < nx - 1
      modifies d
      ensures d[..] == FillRow(nx, ny, b, old(d[..]), x)
    {
      EdgeRowsIdx(nx, ny, x);
      var top, below := Idx(nx, ny, x, 0), Idx(nx, ny, x, 1);
      var bottom, above := Idx(nx, ny, x, ny - 1), Idx(nx, ny, x, ny - 2);
      d[top] := if b == 2 then -d[below] else d[below];
      d[bottom] := if b == 2 then -d[above] else d[above];
    }

    /** The body of `SetBnd`'s second loop: the left cell of row y from its
        right neighbour, then the right cell from its left neighbour. */
    static method SetEdgeRow(nx: nat, ny: nat, b: int, d: array<real>, y: nat)
      requires ValidSize(nx, ny) && d.Length == nx * ny && 0 < y < ny - 1
      modifies d
      ensures d[..] == FillColumn(nx, ny, b, old(d[..]), y)
    {
      var left, right := Idx(nx, ny, 0, y), Idx(nx, ny, nx - 1, y);
      var leftIn, rightIn := Idx(nx, ny, 1, y), Idx(nx, ny, nx - 2, y);
      d[left] := if b == 1 then -d[leftIn] else d[leftIn];
      d[right] := if b == 1 then -d[rightIn] else d[rightIn];
    }

    /** The end of `SetBnd`: each corner becomes the mean of its two edge
        neighbours, in the order top-left, bottom-left, top-right,
        bottom-right. */
    static method SetCorners(nx: nat, ny: nat, d: array<real>)
      requires ValidSize(nx, ny) && d.Length == nx * ny
      modifies d
      ensures d[..] == FillCorners(nx, ny, old(d[..]))
    {
      EdgeRowsIdx(nx, ny, 0);
      EdgeRowsIdx(nx, ny, 1);
      EdgeRowsIdx(nx, ny, nx - 2);
      EdgeRowsIdx(nx, ny, nx - 1);
      d[Idx(nx, ny, 0, 0)] := 0.5 * (d[Idx(nx, ny, 1, 0)] + d[Idx(nx, ny, 0, 1)]);
      d[Idx(nx, ny, 0, ny - 1)] := 0.5 * (d[Idx(nx, ny, 1, ny - 1)] + d[Idx(nx, ny, 0, ny - 2)]);
      d[Idx(nx, ny, nx - 1, 0)] := 0.5 * (d[Idx(nx, ny, nx - 2, 0)] + d[Idx(nx, ny, nx - 1, 1)]);
      d[Idx(nx, ny, nx - 1, ny - 1)] := 0.5 * (d[Idx(nx, ny, nx - 2, ny - 1)] + d[Idx(nx, ny, nx - 1, ny - 2)]);
    }

    /** The five assignments `PlaceSource` and `EraseSource` make to one
        source field: the centre, left, right, upper and lower cells. */
    static method StampAt(nx: nat, ny: nat, a: array<real>, x: nat, y: nat, v: real)
      requires ValidSize(nx, ny) && a.Length == nx * ny && Interior(nx, ny, x, y)
      modifies a
      ensures a[..] == Stamp(nx, ny, old(a[..]), x, y, v)
    {
      var index := Idx(nx, ny, x, y);
      IdxNeighbours(nx, ny, x, y);
      a[index] := v;
      a[index - 1] := v;
      a[index + 1] := v;
      a[index - nx] := v;
      a[index + nx] := v;
    }

    /** `PlaceSource(x, y, r, g, b)`: the plus-shaped stamp of the three
        colours, or nothing on the edge. */
    method PlaceSource(x: nat, y: nat, r: real, g: real, b: real)
      requires Valid()
      modifies sourcesR, sourcesG, sourcesB
      ensures sourcesR[..] == Stamp(sizeX, sizeY, old(sourcesR[..]), x, y, r)
      ensures sourcesG[..] == Stamp(sizeX, sizeY, old(sourcesG[..]), x, y, g)
      ensures sourcesB[..] == Stamp(sizeX, sizeY, old(sourcesB[..]), x, y, b)
    {
      var nx, ny := sizeX, sizeY;
      if x == 0 || x >= nx - 1 || y == 0 || y >= ny - 1 {
        return;
      }
      StampAt(nx, ny, sourcesR, x, y, r);
      StampAt(nx, ny, sourcesG, x, y, g);
      StampAt(nx, ny, sourcesB, x, y, b);
    }

    /** `EraseSource(x, y)`: the stamp of zeros, or nothing on the edge. */
    method EraseSource(x: nat, y: nat)
      requires Valid()
      modifies sourcesR, sourcesG, sourcesB
      ensures sourcesR[..] == Stamp(sizeX, sizeY, old(sourcesR[..]), x, y, 0.0)
      ensures sourcesG[..] == Stamp(sizeX, sizeY, old(sourcesG[..]), x, y, 0.0)
      ensures sourcesB[..] == Stamp(sizeX, sizeY, old(sourcesB[..]), x, y, 0.0)
    {
      var nx, ny := sizeX, sizeY;
      if x == 0 || x >= nx - 1 || y == 0 || y >= ny - 1 {
        return;
      }
      StampAt(nx, ny, sourcesR, x, y, 0.0);
      StampAt(nx, ny, sourcesG, x, y, 0.0);
      StampAt(nx, ny, sourcesB, x, y, 0.0);
    }

    /** `ClearSources()`: every source cell becomes zero. */
    method ClearSources()
      requires Valid()
      modifies sourcesR, sourcesG, sourcesB
      ensures sourcesR[..] == Zeros(numPoints) && sourcesG[..] == Zeros(numPoints) && sourcesB[..] == Zeros(numPoints)
    {
      var i := 0;
      while i < numPoints
        invariant 0 <= i <= numPoints
        invariant forall j | 0 <= j < i :: sourcesR[j] == 0.0 && sourcesG[j] == 0.0 && sourcesB[j] == 0.0
      {
        sourcesR[i] := 0.0;
        sourcesG[i] := 0.0;
        sourcesB[i] := 0.0;
        i := i + 1;
      }
    }

    /** `ClearDensity()`: every density cell, current and previous, becomes
        zero; velocities and sources are untouched. */
    method ClearDensity()
      requires Valid()
      modifies densitiesR, densitiesG, densitiesB, densitiesR0, densitiesG0, densitiesB0
      ensures densitiesR[..] == Zeros(numPoints) && densitiesG[..] == Zeros(numPoints) && densitiesB[..] == Zeros(numPoints)
      ensures densitiesR0[..] == Zeros(numPoints) && densitiesG0[..] == Zeros(numPoints) && densitiesB0[..] == Zeros(numPoints)
    {
      var i := 0;
      while i < numPoints
        invariant 0 <= i <= numPoints
        invariant forall j | 0 <= j < i :: densitiesR[j] == 0.0 && densitiesG[j] == 0.0 && densitiesB[j] == 0.0
        invariant forall j | 0 <= j < i :: densitiesR0[j] == 0.0 && densitiesG0[j] == 0.0 && densitiesB0[j] == 0.0
      {
        densitiesR[i] := 0.0;
        densitiesG[i] := 0.0;
        densitiesB[i] := 0.0;
        densitiesR0[i] := 0.0;
        densitiesG0[i] := 0.0;
        densitiesB0[i] := 0.0;
        i := i + 1;
      }
    }

    /** The first six assignments of `ApplyForce`: column x-1 of `u` loses
        `amount`, column x+1 gains it, on rows y-1 .. y+1. */
    static method PushColumns(nx: nat, ny: nat, u: array<real>, x: nat, y: nat, amount: real)
      requires ValidSize(nx, ny) && u.Length == nx * ny && Interior(nx, ny, x, y)
      modifies u
      ensures u[..] == PushU(nx, ny, old(u[..]), x, y, amount)
    {
      u[Idx(nx, ny, x - 1, y - 1)] := u[Idx(nx, ny, x - 1, y - 1)] - amount;
      u[Idx(nx, ny, x - 1, y)] := u[Idx(nx, ny, x - 1, y)] - amount;
      u[Idx(nx, ny, x - 1, y + 1)] := u[Idx(nx, ny, x - 1, y + 1)] - amount;
      u[Idx(nx, ny, x + 1, y - 1)] := u[Idx(nx, ny, x + 1, y - 1)] + amount;
      u[Idx(nx, ny, x + 1, y)] := u[Idx(nx, ny, x + 1, y)] + amount;
      u[Idx(nx, ny, x + 1, y + 1)] := u[Idx(nx, ny, x + 1, y + 1)] + amount;
    }

    /** The last six assignments of `ApplyForce`: row y-1 of `v` loses
        `amount`, row y+1 gains it, on columns x-1 .. x+1. */
    static method PushRows(nx: nat, ny: nat, v: array<real>, x: nat, y: nat, amount: real)
      requires ValidSize(nx, ny) && v.Length == nx * ny && Interior(nx, ny, x, y)
      modifies v
      ensures v[..] == PushV(nx, ny, old(v[..]), x, y, amount)
    {
      v[Idx(nx, ny, x - 1, y - 1)] := v[Idx(nx, ny, x - 1, y - 1)] - amount;
      v[Idx(nx, ny, x, y - 1)] := v[Idx(nx, ny, x, y - 1)] - amount;
      v[Idx(nx, ny, x + 1, y - 1)] := v[Idx(nx, ny, x + 1, y - 1)] - amount;
      v[Idx(nx, ny, x - 1, y + 1)] := v[Idx(nx, ny, x - 1, y + 1)] + amount;
      v[Idx(nx, ny, x, y + 1)] := v[Idx(nx, ny, x, y + 1)] + amount;
      v[Idx(nx, ny, x + 1, y + 1)] := v[Idx(nx, ny, x + 1, y + 1)] + amount;
    }

    /** `ApplyForce(x, y, amount)`: the swirl of six cells on each velocity
        component, or nothing on the edge. */
    method ApplyForce(x: nat, y: nat, amount: real)
      requires Valid()
      modifies velocitiesU, velocitiesV
      ensures velocitiesU[..] == SwirlU(sizeX, sizeY, old(velocitiesU[..]), x, y, amount)
      ensures velocitiesV[..] == SwirlV(sizeX, sizeY, old(velocitiesV[..]), x, y, amount)
    {
      var nx, ny := sizeX, sizeY;
      if x == 0 || x >= nx - 1 || y == 0 || y >= ny - 1 {
        return;
      }
      PushColumns(nx, ny, velocitiesU, x, y, amount);
      PushRows(nx, ny, velocitiesV, x, y, amount);
    }

    /** `SetGravity(gu, gv)`: the vertical component is stored negated, so
        that a positive `gv` pulls towards lower row numbers. */
    method SetGravity(gu: real, gv: real)
      modifies this
      ensures gravityU == gu && gravityV == -gv
    {
      gravityU := gu;
      gravityV := -gv;
    }

    /** `AddSources(x, s, dt)`: `x[i] += dt * s[i]` over every cell. */
    method AddSources(x: array<real>, s: array<real>, dt: real)
      requires x.Length == numPoints && s.Length == numPoints
      modifies x
      ensures x[..] == AddScaled(old(x[..]), old(s[..]), dt)
    {
      var n := numPoints;
      ghost var x0, s0 := x[..], s[..];
      ghost var t := AddScaled(x0, s0, dt);
      var i := 0;
      while i < n
        invariant 0 <= i <= n
        invariant x[..] == Scanned(t, x0, i)
        invariant forall j | i <= j < n :: s[j] == s0[j]
      {
        var xi, si := x[i], s[i];
        AddScaledStep(x0, s0, dt, i, xi, si);
        x[i] := xi + dt * si;
        i := i + 1;
      }
      ScannedAll(t, x0);
    }

    /** `Decay(d, rate, dt)`: every interior cell loses `rate * dt` and is
        raised back to zero if that made it negative. */
    method Decay(d: array<real>, rate: real, dt: real)
      requires ValidSize(sizeX, sizeY) && d.Length == sizeX * sizeY
      modifies d
      ensures d[..] == DecayField(sizeX, sizeY, old(d[..]), rate * dt)
    {
      var nx, ny := sizeX, sizeY;
      ghost var s0 := d[..];
      ghost var t := DecayField(nx, ny, s0, rate * dt);
      var amount := rate * dt;
      ScannedFirst(nx, ny, t, s0);
      var y := 1;
      while y < ny - 1
        invariant 1 <= y <= ny - 1
        invariant d[..] == Scanned(t, s0, Idx(nx, ny, 1, y))
      {
        var x := 1;
        while x < nx - 1
          invariant 1 <= x <= nx - 1
          invariant d[..] == Scanned(t, s0, Idx(nx, ny, x, y))
        {
          var index := Idx(nx, ny, x, y);
          InteriorIndexAt(nx, ny, x, y);
          ScannedWrite(t, s0, index);
          d[index] := d[index] - amount;
          if d[index] < 0.0 {
            d[index] := 0.0;
          }
          x := x + 1;
        }
        ScannedNextRow(nx, ny, t, s0, y);
        y := y + 1;
      }
      ScannedLast(nx, ny, t, s0);
    }

    /** `ApplyGravity(dt)`: each interior velocity cell gains the mean of
        the three densities there times the stored gravity times `dt`. */
    method ApplyGravity(dt: real)
      requires ValidSize(sizeX, sizeY) && velocitiesU.Length == sizeX * sizeY && velocitiesV.Length == sizeX * sizeY
      requires densitiesR.Length == sizeX * sizeY && densitiesG.Length == sizeX * sizeY && densitiesB.Length == sizeX * sizeY
      requires velocitiesU != velocitiesV
      requires velocitiesU != densitiesR && velocitiesU != densitiesG && velocitiesU != densitiesB
      requires velocitiesV != densitiesR && velocitiesV != densitiesG && velocitiesV != densitiesB
      modifies velocitiesU, velocitiesV
      ensures velocitiesU[..] == GravityField(sizeX, sizeY, old(velocitiesU[..]), densitiesR[..], densitiesG[..], densitiesB[..], gravityU, dt)
      ensures velocitiesV[..] == GravityField(sizeX, sizeY, old(velocitiesV[..]), densitiesR[..], densitiesG[..], densitiesB[..], gravityV, dt)
    {
      var nx, ny := sizeX, sizeY;
      var gravityU, gravityV := this.gravityU, this.gravityV;
      var gu := gravityU * dt;
      var gv := gravityV * dt;
      ghost var u0, v0 := velocitiesU[..], velocitiesV[..];
      ghost var r, g, b := densitiesR[..], densitiesG[..], densitiesB[..];
      ghost var tu := GravityField(nx, ny, u0, r, g, b, gravityU, dt);
      ghost var tv := GravityField(nx, ny, v0, r, g, b, gravityV, dt);
      ScannedFirst(nx, ny, tu, u0);
      ScannedFirst(nx, ny, tv, v0);
      var y := 1;
      while y < ny - 1
        invariant 1 <= y <= ny - 1
        invariant velocitiesU[..] == Scanned(tu, u0, Idx(nx, ny, 1, y))
        invariant velocitiesV[..] == Scanned(tv, v0, Idx(nx, ny, 1, y))
        invariant densitiesR[..] == r && densitiesG[..] == g && densitiesB[..] == b
      {
        var x := 1;
        while x < nx - 1
          invariant 1 <= x <= nx - 1
          invariant velocitiesU[..] == Scanned(tu, u0, Idx(nx, ny, x, y))
          invariant velocitiesV[..] == Scanned(tv, v0, Idx(nx, ny, x, y))
          invariant densitiesR[..] == r && densitiesG[..] == g && densitiesB[..] == b
        {
          var i := Idx(nx, ny, x, y);
          InteriorIndexAt(nx, ny, x, y);
          var d := (densitiesR[i] + densitiesG[i] + densitiesB[i]) / 3.0;
          GravityCellStep(nx, ny, u0, r, g, b, gravityU, dt, i, d, gu);
          GravityCellStep(nx, ny, v0, r, g, b, gravityV, dt, i, d, gv);
          velocitiesU[i] := velocitiesU[i] + d * gu;
          velocitiesV[i] := velocitiesV[i] + d * gv;
          x := x + 1;
        }
        ScannedNextRow(nx, ny, tu, u0, y);
        ScannedNextRow(nx, ny, tv, v0, y);
        y := y + 1;
      }
      ScannedLast(nx, ny, tu, u0);
      ScannedLast(nx, ny, tv, v0);
    }

    /** `DensityStep(s, x, x0, u, v, diff, dt)`: the sources are added to
        `x`; after the first `SWAP` the diffusion writes into the array
        that came in as `x0`, reading the one that came in as `x`; after
        the second the advection writes back into `x`'s array, reading the
        diffused field. */
    method DensityStep(s: array<real>, x: array<real>, x0: array<real>, u: array<real>, v: array<real>,
                       diff: real, dt: real)
      requires ValidSize(sizeX, sizeY) && numPoints == sizeX * sizeY
      requires s.Length == numPoints && x.Length == numPoints && x0.Length == numPoints
      requires u.Length == numPoints && v.Length == numPoints
      requires x != x0 && x != s && x0 != s && x != u && x != v && x0 != u && x0 != v
      requires diff >= 0.0 && dt >= 0.0
      modifies x, x0
      ensures var r := Steps.DensityStep(sizeX, sizeY, old(s[..]), old(x[..]), old(x0[..]), u[..], v[..], diff, dt);
        x[..] == r.x && x0[..] == r.x0
    {
      var cur, prev := x, x0;
      AddSources(cur, s, dt);
      cur, prev := prev, cur;
      Diffuse(0, cur, prev, diff, dt);
      cur, prev := prev, cur;
      Advect(0, cur, prev, u, v, dt);
    }

    /** `VelocityStep(u, v, u0, v0, visc, dt)`.  `ApplyGravity` works on
        the member arrays, so `u` and `v` are those (as in `Update`, the
        only caller).  After the first pair of `SWAP`s the diffusion writes
        into the arrays of `u0` and `v0` and the projection uses those of
        `u` and `v` as scratch; after the second pair the advection writes
        back into `u` and `v`, carried by the projected field, and the
        final projection leaves pressure and divergence in `u0` and `v0`. */
    method VelocityStep(u: array<real>, v: array<real>, u0: array<real>, v0: array<real>, visc: real, dt: real)
      requires ValidSize(sizeX, sizeY) && numPoints == sizeX * sizeY && u == velocitiesU && v == velocitiesV
      requires u.Length == numPoints && v.Length == numPoints && u0.Length == numPoints && v0.Length == numPoints
      requires densitiesR.Length == numPoints && densitiesG.Length == numPoints && densitiesB.Length == numPoints
      requires u != v && u0 != v0 && u0 != u && u0 != v && v0 != u && v0 != v
      requires u != densitiesR && u != densitiesG && u != densitiesB
      requires v != densitiesR && v != densitiesG && v != densitiesB
      requires u0 != densitiesR && u0 != densitiesG && u0 != densitiesB
      requires v0 != densitiesR && v0 != densitiesG && v0 != densitiesB
      requires visc >= 0.0 && dt >= 0.0
      modifies u, v, u0, v0
      ensures var o := Steps.VelocityStep(sizeX, sizeY, old(u[..]), old(v[..]), old(u0[..]), old(v0[..]),
                                          densitiesR[..], densitiesG[..], densitiesB[..], gravityU, gravityV, visc, dt);
        u[..] == o.u && v[..] == o.v && u0[..] == o.u0 && v0[..] == o.v0
    {
      AddSources(u, u0, dt);
      AddSources(v, v0, dt);
      ApplyGravity(dt);
      var pu, pu0 := u0, u;
      Diffuse(1, pu, pu0, visc, dt);
      var pv, pv0 := v0, v;
      Diffuse(2, pv, pv0, visc, dt);
      Project(pu, pv, pu0, pv0);
      pu, pu0 := pu0, pu;
      pv, pv0 := pv0, pv;
      Advect(1, pu, pu0, pu0, pv0, dt);
      Advect(2, pv, pv0, pu0, pv0, dt);
      Project(pu, pv, pu0, pv0);
    }

    /** `Update(dt)`: a density step per colour channel, the velocity step,
        then decay of the three densities; the arrays end up holding `Tick`
        of what they held. */
    method Update(dt: real)
      requires Valid() && viscosity >= 0.0 && diffusion >= 0.0 && dt >= 0.0
      modifies densitiesR, densitiesG, densitiesB, densitiesR0, densitiesG0, densitiesB0
      modifies velocitiesU, velocitiesV, velocitiesU0, velocitiesV0
      ensures Snapshot() == Tick(sizeX, sizeY, old(Snapshot()), viscosity, diffusion, decay, gravityU, gravityV, dt)
    {
      var nx, ny := sizeX, sizeY;
      var visc, diff, rate := viscosity, diffusion, decay;
      var r, g, b, r0, g0, b0 := densitiesR, densitiesG, densitiesB, densitiesR0, densitiesG0, densitiesB0;
      var u, v, u0, v0 := velocitiesU, velocitiesV, velocitiesU0, velocitiesV0;
      var sr, sg, sb := sourcesR, sourcesG, sourcesB;
      ghost var f := Snapshot();
      ghost var red := Steps.DensityStep(nx, ny, f.sr, f.r, f.r0, f.u, f.v, diff, dt);
      DensityStep(sr, r, r0, u, v, diff, dt);
      assert r[..] == red.x && r0[..] == red.x0;
      ghost var green := Steps.DensityStep(nx, ny, f.sg, f.g, f.g0, f.u, f.v, diff, dt);
      DensityStep(sg, g, g0, u, v, diff, dt);
      assert g[..] == green.x && g0[..] == green.x0;
      ghost var blue := Steps.DensityStep(nx, ny, f.sb, f.b, f.b0, f.u, f.v, diff, dt);
      DensityStep(sb, b, b0, u, v, diff, dt);
      assert b[..] == blue.x && b0[..] == blue.x0;
      ghost var flow := Steps.VelocityStep(nx, ny, f.u, f.v, f.u0, f.v0, red.x, green.x, blue.x, gravityU, gravityV, visc, dt);
      VelocityStep(u, v, u0, v0, visc, dt);
      assert u[..] == flow.u && v[..] == flow.v && u0[..] == flow.u0 && v0[..] == flow.v0;
      Decay(r, rate, dt);
      Decay(g, rate, dt);
      Decay(b, rate, dt);
      TickStages(nx, ny, f, visc, diff, rate, gravityU, gravityV, dt, red, green, blue, flow);
    }
  }
}
