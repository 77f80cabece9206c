/** Semi-Lagrangian transport (`FluidSim::Advect`, FluidSim.cpp:350-379).

    Every interior cell traces its own velocity back over one time step,
    clamps the point it lands on to the grid, and takes the bilinear
    interpolation of the previous field at that point.  The border is then
    filled by `SetBnd`. */
module Advection {
  import opened Grid
  import opened Boundary

  /** `std::max(a, b)`: `b` when `a < b`, otherwise `a`. */
  function Max(a: real, b: real): (m: real)
    ensures m >= a && m >= b && (m == a || m == b)
  {
    if a < b then b else a
  }

  /** `std::min(a, b)`: `b` when `b < a`, otherwise `a`. */
  function Min(a: real, b: real): (m: real)
    ensures m <= a && m <= b && (m == a || m == b)
  {
    if b < a then b else a
  }

  /** `min(max(v, lo), hi)`: the nearest point of `[lo, hi]`. */
  function Clamp(v: real, lo: real, hi: real): (r: real)
    requires lo <= hi
    ensures lo <= r <= hi
    ensures lo <= v <= hi ==> r == v
    ensures v < lo ==> r == lo
    ensures v > hi ==> r == hi
  {
    Min(Max(v, lo), hi)
  }

  /** The C++ conversion `(int)r`: the integer part, rounding toward zero. */
  function Truncate(r: real): (n: int)
    ensures r >= 0.0 ==> n as real <= r < n as real + 1.0
    ensures r < 0.0 ==> n as real - 1.0 < r <= n as real
  {
    if r >= 0.0 then r.Floor else -((-r).Floor)
  }

  /** One axis of a backtraced point: the lower of the two grid lines it
      lies between (`i0`, with `i1 = i0 + 1`) and its distance from that
      line (`s1`), the weight of the upper one. */
  datatype Sample = Sample(lower: nat, weight: real)

  /** Start from grid line `p`, go back `dt0 * vel`, clamp to
      `[0.5, n - 1.501]` and split into line and weight.  Whatever the
      velocity, both lines interpolated between lie on the grid. */
  function Backtrace(n: nat, p: nat, vel: real, dt0: real): (s: Sample)
    requires n >= 3
    ensures s.lower + 1 < n
    ensures 0.0 <= s.weight < 1.0
    ensures 0.5 <= s.lower as real + s.weight <= n as real - 1.501
    ensures 0.5 <= p as real - dt0 * vel <= n as real - 1.501 ==>
      s.lower as real + s.weight == p as real - dt0 * vel
  {
    var x1 := Clamp(p as real - dt0 * vel, 0.5, n as real - 1.501);
    var i0 := Truncate(x1);
    Sample(i0, x1 - i0 as real)
  }

  /** A cell that does not move samples itself. */
  lemma BacktraceStill(n: nat, p: nat, vel: real, dt0: real)
    requires n >= 3 && 1 <= p <= n - 2 && (vel == 0.0 || dt0 == 0.0)
    ensures Backtrace(n, p, vel, dt0) == Sample(p, 0.0)
  {
    assert dt0 * vel == 0.0;
    assert Truncate(p as real) == p;
  }

  /** Bilinear interpolation of `d0` between the four cells around a
      backtraced point. */
  function Bilinear(nx: nat, ny: nat, d0: seq<real>, sx: Sample, sy: Sample): real
    requires ValidSize(nx, ny) && IsField(nx, ny, d0)
    requires sx.lower + 1 < nx && sy.lower + 1 < ny
  {
    var i0, i1 := sx.lower, sx.lower + 1;
    var j0, j1 := sy.lower, sy.lower + 1;
    var s1, t1 := sx.weight, sy.weight;
    var s0, t0 := 1.0 - s1, 1.0 - t1;
    s0 * (t0 * d0[Idx(nx, ny, i0, j0)] + t1 * d0[Idx(nx, ny, i0, j1)])
      + s1 * (t0 * d0[Idx(nx, ny, i1, j0)] + t1 * d0[Idx(nx, ny, i1, j1)])
  }

  lemma MixAtLeast(w: real, p: real, q: real, lo: real)
    requires 0.0 <= w <= 1.0 && p >= lo && q >= lo
    ensures (1.0 - w) * p + w * q >= lo
  {
    assert (1.0 - w) * p >= (1.0 - w) * lo;
    assert w * q >= w * lo;
  }

  lemma MixAtMost(w: real, p: real, q: real, hi: real)
    requires 0.0 <= w <= 1.0 && p <= hi && q <= hi
    ensures (1.0 - w) * p + w * q <= hi
  {
    assert (1.0 - w) * p <= (1.0 - w) * hi;
    assert w * q <= w * hi;
  }

  lemma MixTwiceAtLeast(s1: real, t1: real, p00: real, p01: real, p10: real, p11: real, lo: real)
    requires 0.0 <= s1 <= 1.0 && 0.0 <= t1 <= 1.0
    requires p00 >= lo && p01 >= lo && p10 >= lo && p11 >= lo
    ensures (1.0 - s1) * ((1.0 - t1) * p00 + t1 * p01) + s1 * ((1.0 - t1) * p10 + t1 * p11) >= lo
  {
    MixAtLeast(t1, p00, p01, lo);
    MixAtLeast(t1, p10, p11, lo);
    MixAtLeast(s1, (1.0 - t1) * p00 + t1 * p01, (1.0 - t1) * p10 + t1 * p11, lo);
  }

  lemma MixTwiceAtMost(s1: real, t1: real, p00: real, p01: real, p10: real, p11: real, hi: real)
    requires 0.0 <= s1 <= 1.0 && 0.0 <= t1 <= 1.0
    requires p00 <= hi && p01 <= hi && p10 <= hi && p11 <= hi
    ensures (1.0 - s1) * ((1.0 - t1) * p00 + t1 * p01) + s1 * ((1.0 - t1) * p10 + t1 * p11) <= hi
  {
    MixAtMost(t1, p00, p01, hi);
    MixAtMost(t1, p10, p11, hi);
    MixAtMost(s1, (1.0 - t1) * p00 + t1 * p01, (1.0 - t1) * p10 + t1 * p11, hi);
  }

  /** The interpolation is a convex combination: it is at least the
      smallest of its four cells ... */
  lemma BilinearAtLeast(nx: nat, ny: nat, d0: seq<real>, sx: Sample, sy: Sample, lo: real)
    requires ValidSize(nx, ny) && IsField(nx, ny, d0)
    requires sx.lower + 1 < nx && sy.lower + 1 < ny
    requires 0.0 <= sx.weight <= 1.0 && 0.0 <= sy.weight <= 1.0
    requires d0[Idx(nx, ny, sx.lower, sy.lower)] >= lo && d0[Idx(nx, ny, sx.lower, sy.lower + 1)] >= lo
    requires d0[Idx(nx, ny, sx.lower + 1, sy.lower)] >= lo && d0[Idx(nx, ny, sx.lower + 1, sy.lower + 1)] >= lo
    ensures Bilinear(nx, ny, d0, sx, sy) >= lo
  {
    MixTwiceAtLeast(sx.weight, sy.weight,
      d0[Idx(nx, ny, sx.lower, sy.lower)], d0[Idx(nx, ny, sx.lower, sy.lower + 1)],
      d0[Idx(nx, ny, sx.lower + 1, sy.lower)], d0[Idx(nx, ny, sx.lower + 1, sy.lower + 1)], lo);
  }

  /** ... and at most the largest. */
  lemma BilinearAtMost(nx: nat, ny: nat, d0: seq<real>, sx: Sample, sy: Sample, hi: real)
    requires ValidSize(nx, ny) && IsField(nx, ny, d0)
    requires sx.lower + 1 < nx && sy.lower + 1 < ny
    requires 0.0 <= sx.weight <= 1.0 && 0.0 <= sy.weight <= 1.0
    requires d0[Idx(nx, ny, sx.lower, sy.lower)] <= hi && d0[Idx(nx, ny, sx.lower, sy.lower + 1)] <= hi
    requires d0[Idx(nx, ny, sx.lower + 1, sy.lower)] <= hi && d0[Idx(nx, ny, sx.lower + 1, sy.lower + 1)] <= hi
    ensures Bilinear(nx, ny, d0, sx, sy) <= hi
  {
    MixTwiceAtMost(sx.weight, sy.weight,
      d0[Idx(nx, ny, sx.lower, sy.lower)], d0[Idx(nx, ny, sx.lower, sy.lower + 1)],
      d0[Idx(nx, ny, sx.lower + 1, sy.lower)], d0[Idx(nx, ny, sx.lower + 1, sy.lower + 1)], hi);
  }

  /** `dt0 = dt * sizeX`, the scale `Advect` applies to both velocity
      components. */
  function TimeScale(nx: nat, dt: real): real {
    dt * nx as real
  }

  /** The new value of interior cell (x, y). */
  function AdvectCell(nx: nat, ny: nat, d0: seq<real>, u: seq<real>, v: seq<real>, dt: real, x: nat, y: nat): real
    requires ValidSize(nx, ny) && IsField(nx, ny, d0) && IsField(nx, ny, u) && IsField(nx, ny, v)
    requires Interior(nx, ny, x, y)
  {
    var dt0 := TimeScale(nx, dt);
    Bilinear(nx, ny, d0, Backtrace(nx, x, u[Idx(nx, ny, x, y)], dt0), Backtrace(ny, y, v[Idx(nx, ny, x, y)], dt0))
  }

  /** `d` after the interior loop of `Advect`: interior cells advected,
      border cells as they were. */
  function AdvectTable(nx: nat, ny: nat, d: seq<real>, d0: seq<real>, u: seq<real>, v: seq<real>, dt: real): (r: seq<real>)
    requires ValidSize(nx, ny) && IsField(nx, ny, d) && IsField(nx, ny, d0) && IsField(nx, ny, u) && IsField(nx, ny, v)
    ensures IsField(nx, ny, r)
  {
    seq(|d|, i requires 0 <= i < |d| =>
      if InteriorIndex(nx, ny, i) then AdvectCell(nx, ny, d0, u, v, dt, ColumnOf(nx, i), RowOf(nx, i)) else d[i])
  }

  lemma AdvectTableAt(nx: nat, ny: nat, d: seq<real>, d0: seq<real>, u: seq<real>, v: seq<real>, dt: real, x: nat, y: nat)
    requires ValidSize(nx, ny) && IsField(nx, ny, d) && IsField(nx, ny, d0) && IsField(nx, ny, u) && IsField(nx, ny, v)
    requires x < nx && y < ny
    ensures Interior(nx, ny, x, y) ==> AdvectTable(nx, ny, d, d0, u, v, dt)[Idx(nx, ny, x, y)] == AdvectCell(nx, ny, d0, u, v, dt, x, y)
    ensures !Interior(nx, ny, x, y) ==> AdvectTable(nx, ny, d, d0, u, v, dt)[Idx(nx, ny, x, y)] == d[Idx(nx, ny, x, y)]
  {
    IdxCoords(nx, ny, x, y);
  }

  /** `Bilinear` with its weights and corner values named. */
  lemma BilinearOf(nx: nat, ny: nat, d0: seq<real>, sx: Sample, sy: Sample, s0: real, s1: real, t0: real, t1: real,
                   p00: real, p01: real, p10: real, p11: real)
    requires ValidSize(nx, ny) && IsField(nx, ny, d0) && sx.lower + 1 < nx && sy.lower + 1 < ny
    requires s1 == sx.weight && s0 == 1.0 - s1 && t1 == sy.weight && t0 == 1.0 - t1
    requires p00 == d0[Idx(nx, ny, sx.lower, sy.lower)] && p01 == d0[Idx(nx, ny, sx.lower, sy.lower + 1)]
    requires p10 == d0[Idx(nx, ny, sx.lower + 1, sy.lower)] && p11 == d0[Idx(nx, ny, sx.lower + 1, sy.lower + 1)]
    ensures Bilinear(nx, ny, d0, sx, sy) == s0 * (t0 * p00 + t1 * p01) + s1 * (t0 * p10 + t1 * p11)
  {
  }

  /** One cell of `Advect`'s interior loop: writing the advected value
      advances the pass towards `AdvectTable` by one cell. */
  lemma AdvectCellStep(nx: nat, ny: nat, d: seq<real>, d0: seq<real>, u: seq<real>, v: seq<real>, dt: real, x: nat, y: nat, w: real)
    requires ValidSize(nx, ny) && IsField(nx, ny, d) && IsField(nx, ny, d0) && IsField(nx, ny, u) && IsField(nx, ny, v)
    requires Interior(nx, ny, x, y) && w == AdvectCell(nx, ny, d0, u, v, dt, x, y)
    ensures var t, k := AdvectTable(nx, ny, d, d0, u, v, dt), Idx(nx, ny, x, y);
      Scanned(t, d, k)[k := w] == Scanned(t, d, k + 1)
  {
    var t, k := AdvectTable(nx, ny, d, d0, u, v, dt), Idx(nx, ny, x, y);
    AdvectTableAt(nx, ny, d, d0, u, v, dt, x, y);
    ScannedWrite(t, d, k);
  }

  /** The interior loop of `Advect` starts from `d` and, after the last
      interior row, has produced the table. */
  lemma AdvectScanEnds(nx: nat, ny: nat, d: seq<real>, d0: seq<real>, u: seq<real>, v: seq<real>, dt: real)
    requires ValidSize(nx, ny) && IsField(nx, ny, d) && IsField(nx, ny, d0) && IsField(nx, ny, u) && IsField(nx, ny, v)
    ensures Scanned(AdvectTable(nx, ny, d, d0, u, v, dt), d, Idx(nx, ny, 1, 1)) == d
    ensures Scanned(AdvectTable(nx, ny, d, d0, u, v, dt), d, Idx(nx, ny, 1, ny - 1)) == AdvectTable(nx, ny, d, d0, u, v, dt)
  {
    ScannedFirst(nx, ny, AdvectTable(nx, ny, d, d0, u, v, dt), d);
    ScannedLast(nx, ny, AdvectTable(nx, ny, d, d0, u, v, dt), d);
  }

  /** Past the last interior cell of row y the loop is at the first
      interior cell of row y + 1. */
  lemma AdvectScanRow(nx: nat, ny: nat, d: seq<real>, d0: seq<real>, u: seq<real>, v: seq<real>, dt: real, y: nat)
    requires ValidSize(nx, ny) && IsField(nx, ny, d) && IsField(nx, ny, d0) && IsField(nx, ny, u) && IsField(nx, ny, v)
    requires 0 < y < ny - 1
    ensures Scanned(AdvectTable(nx, ny, d, d0, u, v, dt), d, Idx(nx, ny, nx - 1, y))
         == Scanned(AdvectTable(nx, ny, d, d0, u, v, dt), d, Idx(nx, ny, 1, y + 1))
  {
    ScannedNextRow(nx, ny, AdvectTable(nx, ny, d, d0, u, v, dt), d, y);
  }

  /** `Advect(b, d, d0, u, v, dt)`: the table with its border filled. */
  function AdvectField(nx: nat, ny: nat, b: int, d: seq<real>, d0: seq<real>, u: seq<real>, v: seq<real>, dt: real): (r: seq<real>)
    requires ValidSize(nx, ny) && IsField(nx, ny, d) && IsField(nx, ny, d0) && IsField(nx, ny, u) && IsField(nx, ny, v)
    ensures IsField(nx, ny, r)
  {
    Bnd(nx, ny, b, AdvectTable(nx, ny, d, d0, u, v, dt))
  }

  /** `Advect` ends with a border consistent with the interior. */
  lemma AdvectConsistent(nx: nat, ny: nat, b: int, d: seq<real>, d0: seq<real>, u: seq<real>, v: seq<real>, dt: real)
    requires ValidSize(nx, ny) && IsField(nx, ny, d) && IsField(nx, ny, d0) && IsField(nx, ny, u) && IsField(nx, ny, v)
    ensures Consistent(nx, ny, b, AdvectField(nx, ny, b, d, d0, u, v, dt))
  {
    BndFills(nx, ny, b, AdvectTable(nx, ny, d, d0, u, v, dt));
  }

  /** The previous contents of `d` do not matter: every cell is overwritten,
      the interior by the loop and the border by the fill. */
  lemma AdvectOverwrites(nx: nat, ny: nat, b: int, d: seq<real>, d': seq<real>, d0: seq<real>, u: seq<real>, v: seq<real>, dt: real)
    requires ValidSize(nx, ny) && IsField(nx, ny, d) && IsField(nx, ny, d') && IsField(nx, ny, d0)
    requires IsField(nx, ny, u) && IsField(nx, ny, v)
    ensures AdvectField(nx, ny, b, d, d0, u, v, dt) == AdvectField(nx, ny, b, d', d0, u, v, dt)
  {
    forall x: nat, y: nat | Interior(nx, ny, x, y)
      ensures AdvectTable(nx, ny, d, d0, u, v, dt)[Idx(nx, ny, x, y)] == AdvectTable(nx, ny, d', d0, u, v, dt)[Idx(nx, ny, x, y)]
    {
      AdvectTableAt(nx, ny, d, d0, u, v, dt, x, y);
      AdvectTableAt(nx, ny, d', d0, u, v, dt, x, y);
    }
    BndReadsInterior(nx, ny, b, AdvectTable(nx, ny, d, d0, u, v, dt), AdvectTable(nx, ny, d', d0, u, v, dt));
  }

  /** With no velocity on the interior, or no elapsed time, every cell
      samples itself: `Advect` only fills the border of `d0`. */
  lemma AdvectStill(nx: nat, ny: nat, b: int, d: seq<real>, d0: seq<real>, u: seq<real>, v: seq<real>, dt: real)
    requires ValidSize(nx, ny) && IsField(nx, ny, d) && IsField(nx, ny, d0) && IsField(nx, ny, u) && IsField(nx, ny, v)
    requires dt == 0.0 || forall x: nat, y: nat | Interior(nx, ny, x, y) ::
      u[Idx(nx, ny, x, y)] == 0.0 && v[Idx(nx, ny, x, y)] == 0.0
    ensures AdvectField(nx, ny, b, d, d0, u, v, dt) == Bnd(nx, ny, b, d0)
  {
    var t := AdvectTable(nx, ny, d, d0, u, v, dt);
    forall x: nat, y: nat | Interior(nx, ny, x, y)
      ensures t[Idx(nx, ny, x, y)] == d0[Idx(nx, ny, x, y)]
    {
      AdvectTableAt(nx, ny, d, d0, u, v, dt, x, y);
      var dt0 := TimeScale(nx, dt);
      BacktraceStill(nx, x, u[Idx(nx, ny, x, y)], dt0);
      BacktraceStill(ny, y, v[Idx(nx, ny, x, y)], dt0);
    }
    BndReadsInterior(nx, ny, b, t, d0);
  }

  /** Scalar transport (kind 0) creates no new extremes: bounds that hold on
      all of `d0` hold on the result. */
  lemma AdvectBounds(nx: nat, ny: nat, d: seq<real>, d0: seq<real>, u: seq<real>, v: seq<real>, dt: real, lo: real, hi: real)
    requires ValidSize(nx, ny) && IsField(nx, ny, d) && IsField(nx, ny, d0) && IsField(nx, ny, u) && IsField(nx, ny, v)
    requires forall i | 0 <= i < |d0| :: lo <= d0[i] <= hi
    ensures forall i | 0 <= i < |d| :: lo <= AdvectField(nx, ny, 0, d, d0, u, v, dt)[i] <= hi
  {
    var t := AdvectTable(nx, ny, d, d0, u, v, dt);
    forall x: nat, y: nat | Interior(nx, ny, x, y)
      ensures lo <= t[Idx(nx, ny, x, y)] <= hi
    {
      AdvectTableAt(nx, ny, d, d0, u, v, dt, x, y);
      var dt0 := TimeScale(nx, dt);
      var sx := Backtrace(nx, x, u[Idx(nx, ny, x, y)], dt0);
      var sy := Backtrace(ny, y, v[Idx(nx, ny, x, y)], dt0);
      BilinearAtLeast(nx, ny, d0, sx, sy, lo);
      BilinearAtMost(nx, ny, d0, sx, sy, hi);
    }
    BndScalarBounds(nx, ny, t, lo, hi);
  }

  /** Scalar transport keeps a non-negative field non-negative. */
  lemma AdvectNonNegative(nx: nat, ny: nat, d: seq<real>, d0: seq<real>, u: seq<real>, v: seq<real>, dt: real)
    requires ValidSize(nx, ny) && IsField(nx, ny, d) && IsField(nx, ny, d0) && IsField(nx, ny, u) && IsField(nx, ny, v)
    requires NonNegative(d0)
    ensures NonNegative(AdvectField(nx, ny, 0, d, d0, u, v, dt))
  {
    var t := AdvectTable(nx, ny, d, d0, u, v, dt);
    forall x: nat, y: nat | Interior(nx, ny, x, y)
      ensures t[Idx(nx, ny, x, y)] >= 0.0
    {
      AdvectTableAt(nx, ny, d, d0, u, v, dt, x, y);
      var dt0 := TimeScale(nx, dt);
      var sx := Backtrace(nx, x, u[Idx(nx, ny, x, y)], dt0);
      var sy := Backtrace(ny, y, v[Idx(nx, ny, x, y)], dt0);
      BilinearAtLeast(nx, ny, d0, sx, sy, 0.0);
    }
    BndScalarNonNegative(nx, ny, t);
  }

  /** Transporting a zero field gives zero, with any border rule. */
  lemma AdvectOfZero(nx: nat, ny: nat, b: int, d: seq<real>, d0: seq<real>, u: seq<real>, v: seq<real>, dt: real)
    requires ValidSize(nx, ny) && IsField(nx, ny, d) && IsField(nx, ny, d0) && IsField(nx, ny, u) && IsField(nx, ny, v)
    requires AllZero(d0)
    ensures AllZero(AdvectField(nx, ny, b, d, d0, u, v, dt))
  {
    var t := AdvectTable(nx, ny, d, d0, u, v, dt);
    forall x: nat, y: nat | Interior(nx, ny, x, y)
      ensures t[Idx(nx, ny, x, y)] == 0.0
    {
      AdvectTableAt(nx, ny, d, d0, u, v, dt, x, y);
      var dt0 := TimeScale(nx, dt);
      var sx := Backtrace(nx, x, u[Idx(nx, ny, x, y)], dt0);
      var sy := Backtrace(ny, y, v[Idx(nx, ny, x, y)], dt0);
      BilinearAtLeast(nx, ny, d0, sx, sy, 0.0);
      BilinearAtMost(nx, ny, d0, sx, sy, 0.0);
    }
    BndOfZeroInterior(nx, ny, b, t);
  }
}
