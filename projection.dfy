/** Mass conservation (`FluidSim::Project`, FluidSim.cpp:382-422).

    The divergence of the velocity is measured on the interior, a pressure
    field is relaxed for ten rounds against it (starting from zero), and
    the pressure gradient is subtracted from the velocity.  `p` and `div`
    are scratch fields: whatever they held is overwritten, and they come out
    holding the pressure and the divergence. */
module Projection {
  import opened Grid
  import opened Boundary
  import opened Relaxation

  /** `h = 1 / sizeX`: the grid spacing, taken from the width alone. */
  function Spacing(nx: nat): (h: real)
    requires nx > 0
    ensures h > 0.0
  {
    1.0 / nx as real
  }

  /** The scaled divergence at interior cell (x, y). */
  function DivergenceCell(nx: nat, ny: nat, u: seq<real>, v: seq<real>, x: nat, y: nat): real
    requires ValidSize(nx, ny) && IsField(nx, ny, u) && IsField(nx, ny, v) && Interior(nx, ny, x, y)
  {
    -0.5 * Spacing(nx) * (u[Idx(nx, ny, x + 1, y)] - u[Idx(nx, ny, x - 1, y)]
                        + v[Idx(nx, ny, x, y + 1)] - v[Idx(nx, ny, x, y - 1)])
  }

  /** The velocity is divergence-free on the interior: the central
      differences of `u` across and of `v` down cancel in every cell. */
  ghost predicate DivergenceFree(nx: nat, ny: nat, u: seq<real>, v: seq<real>)
    requires ValidSize(nx, ny) && IsField(nx, ny, u) && IsField(nx, ny, v)
  {
    forall x: nat, y: nat | Interior(nx, ny, x, y) ::
      u[Idx(nx, ny, x + 1, y)] - u[Idx(nx, ny, x - 1, y)] + v[Idx(nx, ny, x, y + 1)] - v[Idx(nx, ny, x, y - 1)] == 0.0
  }

  /** `div` after the first loop: interior cells hold the divergence, border
      cells what they held before. */
  function DivergenceTable(nx: nat, ny: nat, u: seq<real>, v: seq<real>, div: seq<real>): (r: seq<real>)
    requires ValidSize(nx, ny) && IsField(nx, ny, u) && IsField(nx, ny, v) && IsField(nx, ny, div)
    ensures IsField(nx, ny, r)
  {
    seq(|div|, i requires 0 <= i < |div| =>
      if InteriorIndex(nx, ny, i) then DivergenceCell(nx, ny, u, v, ColumnOf(nx, i), RowOf(nx, i)) else div[i])
  }

  lemma DivergenceTableAt(nx: nat, ny: nat, u: seq<real>, v: seq<real>, div: seq<real>, x: nat, y: nat)
    requires ValidSize(nx, ny) && IsField(nx, ny, u) && IsField(nx, ny, v) && IsField(nx, ny, div)
    requires x < nx && y < ny
    ensures Interior(nx, ny, x, y) ==> DivergenceTable(nx, ny, u, v, div)[Idx(nx, ny, x, y)] == DivergenceCell(nx, ny, u, v, x, y)
    ensures !Interior(nx, ny, x, y) ==> DivergenceTable(nx, ny, u, v, div)[Idx(nx, ny, x, y)] == div[Idx(nx, ny, x, y)]
  {
    IdxCoords(nx, ny, x, y);
  }

  /** `p` after the first loop: interior cells zero, border cells as they
      were. */
  function ClearedTable(nx: nat, ny: nat, p: seq<real>): (r: seq<real>)
    requires ValidSize(nx, ny) && IsField(nx, ny, p)
    ensures IsField(nx, ny, r)
  {
    seq(|p|, i requires 0 <= i < |p| => if InteriorIndex(nx, ny, i) then 0.0 else p[i])
  }

  lemma ClearedTableAt(nx: nat, ny: nat, p: seq<real>, x: nat, y: nat)
    requires ValidSize(nx, ny) && IsField(nx, ny, p) && x < nx && y < ny
    ensures Interior(nx, ny, x, y) ==> ClearedTable(nx, ny, p)[Idx(nx, ny, x, y)] == 0.0
    ensures !Interior(nx, ny, x, y) ==> ClearedTable(nx, ny, p)[Idx(nx, ny, x, y)] == p[Idx(nx, ny, x, y)]
  {
    IdxCoords(nx, ny, x, y);
  }

  /** The pressure loop: ten rounds of `p = (div + sum of neighbours) / 4`,
      i.e. the stencil with coupling 1 and divisor 4, each followed by the
      scalar border fill. */
  function PressureSolve(nx: nat, ny: nat, p: seq<real>, div: seq<real>): (r: seq<real>)
    requires ValidSize(nx, ny) && IsField(nx, ny, p) && IsField(nx, ny, div)
    ensures IsField(nx, ny, r)
  {
    Relaxed(nx, ny, 0, p, div, 1.0, 4.0, SolverIterations)
  }

  /** `u` after the last loop: the horizontal pressure difference
      subtracted on the interior. */
  function GradientU(nx: nat, ny: nat, u: seq<real>, p: seq<real>): (r: seq<real>)
    requires ValidSize(nx, ny) && IsField(nx, ny, u) && IsField(nx, ny, p)
    ensures IsField(nx, ny, r)
  {
    seq(|u|, i requires 0 <= i < |u| =>
      if InteriorIndex(nx, ny, i) then
        var x, y := ColumnOf(nx, i), RowOf(nx, i);
        u[i] - 0.5 * (p[Idx(nx, ny, x + 1, y)] - p[Idx(nx, ny, x - 1, y)]) / Spacing(nx)
      else u[i])
  }

  lemma GradientUAt(nx: nat, ny: nat, u: seq<real>, p: seq<real>, x: nat, y: nat)
    requires ValidSize(nx, ny) && IsField(nx, ny, u) && IsField(nx, ny, p) && x < nx && y < ny
    ensures Interior(nx, ny, x, y) ==> (GradientU(nx, ny, u, p)[Idx(nx, ny, x, y)] ==
      u[Idx(nx, ny, x, y)] - 0.5 * (p[Idx(nx, ny, x + 1, y)] - p[Idx(nx, ny, x - 1, y)]) / Spacing(nx))
    ensures !Interior(nx, ny, x, y) ==> GradientU(nx, ny, u, p)[Idx(nx, ny, x, y)] == u[Idx(nx, ny, x, y)]
  {
    IdxCoords(nx, ny, x, y);
  }

  /** `v` after the last loop: the vertical pressure difference subtracted
      on the interior. */
  function GradientV(nx: nat, ny: nat, v: seq<real>, p: seq<real>): (r: seq<real>)
    requires ValidSize(nx, ny) && IsField(nx, ny, v) && IsField(nx, ny, p)
    ensures IsField(nx, ny, r)
  {
    seq(|v|, i requires 0 <= i < |v| =>
      if InteriorIndex(nx, ny, i) then
        var x, y := ColumnOf(nx, i), RowOf(nx, i);
        v[i] - 0.5 * (p[Idx(nx, ny, x, y + 1)] - p[Idx(nx, ny, x, y - 1)]) / Spacing(nx)
      else v[i])
  }

  lemma GradientVAt(nx: nat, ny: nat, v: seq<real>, p: seq<real>, x: nat, y: nat)
    requires ValidSize(nx, ny) && IsField(nx, ny, v) && IsField(nx, ny, p) && x < nx && y < ny
    ensures Interior(nx, ny, x, y) ==> (GradientV(nx, ny, v, p)[Idx(nx, ny, x, y)] ==
      v[Idx(nx, ny, x, y)] - 0.5 * (p[Idx(nx, ny, x, y + 1)] - p[Idx(nx, ny, x, y - 1)]) / Spacing(nx))
    ensures !Interior(nx, ny, x, y) ==> GradientV(nx, ny, v, p)[Idx(nx, ny, x, y)] == v[Idx(nx, ny, x, y)]
  {
    IdxCoords(nx, ny, x, y);
  }

  /** One cell of the divergence loop, with the spacing and the four
      velocity values the source reads named. */
  lemma DivergenceStep(nx: nat, ny: nat, u: seq<real>, v: seq<real>, div: seq<real>, x: nat, y: nat,
                       h: real, right: real, left: real, down: real, up: real)
    requires ValidSize(nx, ny) && IsField(nx, ny, u) && IsField(nx, ny, v) && IsField(nx, ny, div)
    requires Interior(nx, ny, x, y) && h == Spacing(nx)
    requires right == u[Idx(nx, ny, x + 1, y)] && left == u[Idx(nx, ny, x - 1, y)]
    requires down == v[Idx(nx, ny, x, y + 1)] && up == v[Idx(nx, ny, x, y - 1)]
    ensures var t, k := DivergenceTable(nx, ny, u, v, div), Idx(nx, ny, x, y);
      Scanned(t, div, k)[k := -0.5 * h * (right - left + down - up)] == Scanned(t, div, k + 1)
  {
    var t, k := DivergenceTable(nx, ny, u, v, div), Idx(nx, ny, x, y);
    DivergenceTableAt(nx, ny, u, v, div, x, y);
    ScannedWrite(t, div, k);
    assert t[k] == -0.5 * h * (right - left + down - up);
  }

  /** One cell of the same loop's clearing of `p`. */
  lemma ClearedStep(nx: nat, ny: nat, p: seq<real>, x: nat, y: nat)
    requires ValidSize(nx, ny) && IsField(nx, ny, p) && Interior(nx, ny, x, y)
    ensures var t, k := ClearedTable(nx, ny, p), Idx(nx, ny, x, y);
      Scanned(t, p, k)[k := 0.0] == Scanned(t, p, k + 1)
  {
    var t, k := ClearedTable(nx, ny, p), Idx(nx, ny, x, y);
    ClearedTableAt(nx, ny, p, x, y);
    ScannedWrite(t, p, k);
  }

  /** One cell of the gradient loop on `u`, with the values the source reads
      named. */
  lemma GradientUStep(nx: nat, ny: nat, u: seq<real>, p: seq<real>, x: nat, y: nat,
                      h: real, here: real, right: real, left: real)
    requires ValidSize(nx, ny) && IsField(nx, ny, u) && IsField(nx, ny, p)
    requires Interior(nx, ny, x, y) && h == Spacing(nx)
    requires here == u[Idx(nx, ny, x, y)] && right == p[Idx(nx, ny, x + 1, y)] && left == p[Idx(nx, ny, x - 1, y)]
    ensures var t, k := GradientU(nx, ny, u, p), Idx(nx, ny, x, y);
      Scanned(t, u, k)[k := here - 0.5 * (right - left) / h] == Scanned(t, u, k + 1)
  {
    var t, k := GradientU(nx, ny, u, p), Idx(nx, ny, x, y);
    GradientUAt(nx, ny, u, p, x, y);
    ScannedWrite(t, u, k);
  }

  /** One cell of the gradient loop on `v`. */
  lemma GradientVStep(nx: nat, ny: nat, v: seq<real>, p: seq<real>, x: nat, y: nat,
                      h: real, here: real, down: real, up: real)
    requires ValidSize(nx, ny) && IsField(nx, ny, v) && IsField(nx, ny, p)
    requires Interior(nx, ny, x, y) && h == Spacing(nx)
    requires here == v[Idx(nx, ny, x, y)] && down == p[Idx(nx, ny, x, y + 1)] && up == p[Idx(nx, ny, x, y - 1)]
    ensures var t, k := GradientV(nx, ny, v, p), Idx(nx, ny, x, y);
      Scanned(t, v, k)[k := here - 0.5 * (down - up) / h] == Scanned(t, v, k + 1)
  {
    var t, k := GradientV(nx, ny, v, p), Idx(nx, ny, x, y);
    GradientVAt(nx, ny, v, p, x, y);
    ScannedWrite(t, v, k);
  }

  /** The four fields `Project(u, v, p, div)` leaves behind. */
  /** The divergence loop over `div` and `p` starts from the old fields
      and, after the last interior row, has produced both tables. */
  lemma DivergenceScanEnds(nx: nat, ny: nat, u: seq<real>, v: seq<real>, div: seq<real>, p: seq<real>)
    requires ValidSize(nx, ny) && IsField(nx, ny, u) && IsField(nx, ny, v)
    requires IsField(nx, ny, div) && IsField(nx, ny, p)
    ensures Scanned(DivergenceTable(nx, ny, u, v, div), div, Idx(nx, ny, 1, 1)) == div
    ensures Scanned(ClearedTable(nx, ny, p), p, Idx(nx, ny, 1, 1)) == p
    ensures Scanned(DivergenceTable(nx, ny, u, v, div), div, Idx(nx, ny, 1, ny - 1)) == DivergenceTable(nx, ny, u, v, div)
    ensures Scanned(ClearedTable(nx, ny, p), p, Idx(nx, ny, 1, ny - 1)) == ClearedTable(nx, ny, p)
  {
    ScannedFirst(nx, ny, DivergenceTable(nx, ny, u, v, div), div);
    ScannedFirst(nx, ny, ClearedTable(nx, ny, p), p);
    ScannedLast(nx, ny, DivergenceTable(nx, ny, u, v, div), div);
    ScannedLast(nx, ny, ClearedTable(nx, ny, p), p);
  }

  /** Past the last interior cell of row y the divergence loop is at the
      first interior cell of row y + 1. */
  lemma DivergenceScanRow(nx: nat, ny: nat, u: seq<real>, v: seq<real>, div: seq<real>, p: seq<real>, y: nat)
    requires ValidSize(nx, ny) && IsField(nx, ny, u) && IsField(nx, ny, v)
    requires IsField(nx, ny, div) && IsField(nx, ny, p) && 0 < y < ny - 1
    ensures Scanned(DivergenceTable(nx, ny, u, v, div), div, Idx(nx, ny, nx - 1, y))
         == Scanned(DivergenceTable(nx, ny, u, v, div), div, Idx(nx, ny, 1, y + 1))
    ensures Scanned(ClearedTable(nx, ny, p), p, Idx(nx, ny, nx - 1, y)) == Scanned(ClearedTable(nx, ny, p), p, Idx(nx, ny, 1, y + 1))
  {
    ScannedNextRow(nx, ny, DivergenceTable(nx, ny, u, v, div), div, y);
    ScannedNextRow(nx, ny, ClearedTable(nx, ny, p), p, y);
  }

  /** The gradient loop over `u` and `v` starts from the old fields and,
      after the last interior row, has produced both tables. */
  lemma GradientScanEnds(nx: nat, ny: nat, u: seq<real>, v: seq<real>, p: seq<real>)
    requires ValidSize(nx, ny) && IsField(nx, ny, u) && IsField(nx, ny, v) && IsField(nx, ny, p)
    ensures Scanned(GradientU(nx, ny, u, p), u, Idx(nx, ny, 1, 1)) == u
    ensures Scanned(GradientV(nx, ny, v, p), v, Idx(nx, ny, 1, 1)) == v
    ensures Scanned(GradientU(nx, ny, u, p), u, Idx(nx, ny, 1, ny - 1)) == GradientU(nx, ny, u, p)
    ensures Scanned(GradientV(nx, ny, v, p), v, Idx(nx, ny, 1, ny - 1)) == GradientV(nx, ny, v, p)
  {
    ScannedFirst(nx, ny, GradientU(nx, ny, u, p), u);
    ScannedFirst(nx, ny, GradientV(nx, ny, v, p), v);
    ScannedLast(nx, ny, GradientU(nx, ny, u, p), u);
    ScannedLast(nx, ny, GradientV(nx, ny, v, p), v);
  }

  /** Past the last interior cell of row y the gradient loop is at the
      first interior cell of row y + 1. */
  lemma GradientScanRow(nx: nat, ny: nat, u: seq<real>, v: seq<real>, p: seq<real>, y: nat)
    requires ValidSize(nx, ny) && IsField(nx, ny, u) && IsField(nx, ny, v) && IsField(nx, ny, p) && 0 < y < ny - 1
    ensures Scanned(GradientU(nx, ny, u, p), u, Idx(nx, ny, nx - 1, y)) == Scanned(GradientU(nx, ny, u, p), u, Idx(nx, ny, 1, y + 1))
    ensures Scanned(GradientV(nx, ny, v, p), v, Idx(nx, ny, nx - 1, y)) == Scanned(GradientV(nx, ny, v, p), v, Idx(nx, ny, 1, y + 1))
  {
    ScannedNextRow(nx, ny, GradientU(nx, ny, u, p), u, y);
    ScannedNextRow(nx, ny, GradientV(nx, ny, v, p), v, y);
  }

  datatype Projected = Projected(u: seq<real>, v: seq<real>, p: seq<real>, div: seq<real>)

  /** `Project(u, v, p, div)`, stage by stage. */
  function Project(nx: nat, ny: nat, u: seq<real>, v: seq<real>, p: seq<real>, div: seq<real>): (r: Projected)
    requires ValidSize(nx, ny) && IsField(nx, ny, u) && IsField(nx, ny, v) && IsField(nx, ny, p) && IsField(nx, ny, div)
    ensures IsField(nx, ny, r.u) && IsField(nx, ny, r.v) && IsField(nx, ny, r.p) && IsField(nx, ny, r.div)
  {
    var div1 := Bnd(nx, ny, 0, DivergenceTable(nx, ny, u, v, div));
    var p1 := Bnd(nx, ny, 0, ClearedTable(nx, ny, p));
    var p2 := PressureSolve(nx, ny, p1, div1);
    Projected(Bnd(nx, ny, 1, GradientU(nx, ny, u, p2)), Bnd(nx, ny, 2, GradientV(nx, ny, v, p2)), p2, div1)
  }

  /** The pressure solve starts from the zero field, whatever `p` held. */
  lemma PressureStartsAtRest(nx: nat, ny: nat, p: seq<real>)
    requires ValidSize(nx, ny) && IsField(nx, ny, p)
    ensures AllZero(Bnd(nx, ny, 0, ClearedTable(nx, ny, p)))
  {
    forall x: nat, y: nat | Interior(nx, ny, x, y)
      ensures ClearedTable(nx, ny, p)[Idx(nx, ny, x, y)] == 0.0
    {
      ClearedTableAt(nx, ny, p, x, y);
    }
    BndOfZeroInterior(nx, ny, 0, ClearedTable(nx, ny, p));
  }

  /** Every field `Project` writes ends with a consistent border: the
      velocity with the reflecting rules (1 for `u`, 2 for `v`), the
      pressure and divergence with the scalar rule. */
  lemma ProjectConsistent(nx: nat, ny: nat, u: seq<real>, v: seq<real>, p: seq<real>, div: seq<real>)
    requires ValidSize(nx, ny) && IsField(nx, ny, u) && IsField(nx, ny, v) && IsField(nx, ny, p) && IsField(nx, ny, div)
    ensures var r := Project(nx, ny, u, v, p, div);
      Consistent(nx, ny, 1, r.u) && Consistent(nx, ny, 2, r.v) && Consistent(nx, ny, 0, r.p) && Consistent(nx, ny, 0, r.div)
  {
    var div1 := Bnd(nx, ny, 0, DivergenceTable(nx, ny, u, v, div));
    var p1 := Bnd(nx, ny, 0, ClearedTable(nx, ny, p));
    var p2 := PressureSolve(nx, ny, p1, div1);
    BndFills(nx, ny, 0, DivergenceTable(nx, ny, u, v, div));
    RelaxedConsistent(nx, ny, 0, p1, div1, 1.0, 4.0, SolverIterations);
    BndFills(nx, ny, 1, GradientU(nx, ny, u, p2));
    BndFills(nx, ny, 2, GradientV(nx, ny, v, p2));
  }

  /** `p` and `div` are outputs only: their previous contents do not reach
      any result. */
  lemma ProjectOverwritesScratch(nx: nat, ny: nat, u: seq<real>, v: seq<real>, p: seq<real>, div: seq<real>, p': seq<real>, div': seq<real>)
    requires ValidSize(nx, ny) && IsField(nx, ny, u) && IsField(nx, ny, v) && IsField(nx, ny, p) && IsField(nx, ny, div)
    requires IsField(nx, ny, p') && IsField(nx, ny, div')
    ensures Project(nx, ny, u, v, p, div) == Project(nx, ny, u, v, p', div')
  {
    forall x: nat, y: nat | Interior(nx, ny, x, y)
      ensures DivergenceTable(nx, ny, u, v, div)[Idx(nx, ny, x, y)] == DivergenceTable(nx, ny, u, v, div')[Idx(nx, ny, x, y)]
    {
      DivergenceTableAt(nx, ny, u, v, div, x, y);
      DivergenceTableAt(nx, ny, u, v, div', x, y);
    }
    BndReadsInterior(nx, ny, 0, DivergenceTable(nx, ny, u, v, div), DivergenceTable(nx, ny, u, v, div'));
    PressureStartsAtRest(nx, ny, p);
    PressureStartsAtRest(nx, ny, p');
    assert Bnd(nx, ny, 0, ClearedTable(nx, ny, p)) == Bnd(nx, ny, 0, ClearedTable(nx, ny, p'));
  }

  /** The zero field has a consistent border under every rule. */
  lemma ZeroConsistent(nx: nat, ny: nat, b: int, s: seq<real>)
    requires ValidSize(nx, ny) && IsField(nx, ny, s) && AllZero(s)
    ensures Consistent(nx, ny, b, s)
  {
    BndIdempotentOfZero(nx, ny, b, s);
    BndFills(nx, ny, b, s);
  }

  lemma BndIdempotentOfZero(nx: nat, ny: nat, b: int, s: seq<real>)
    requires ValidSize(nx, ny) && IsField(nx, ny, s) && AllZero(s)
    ensures Bnd(nx, ny, b, s) == s
  {
    BndOfZeroInterior(nx, ny, b, s);
  }

  /** With zero divergence the pressure solve stays at zero. */
  lemma PressureOfZero(nx: nat, ny: nat, p: seq<real>, div: seq<real>)
    requires ValidSize(nx, ny) && IsField(nx, ny, p) && IsField(nx, ny, div)
    requires AllZero(p) && AllZero(div)
    ensures PressureSolve(nx, ny, p, div) == p
  {
    ZeroIsStationary(nx, ny, p, div, 1.0, 4.0);
    ZeroConsistent(nx, ny, 0, p);
    RelaxedFixesSolution(nx, ny, 0, p, div, 1.0, 4.0, SolverIterations);
  }

  /** In a divergence-free velocity every interior cell has zero
      divergence. */
  lemma DivergenceCellOfFree(nx: nat, ny: nat, u: seq<real>, v: seq<real>, x: nat, y: nat)
    requires ValidSize(nx, ny) && IsField(nx, ny, u) && IsField(nx, ny, v) && Interior(nx, ny, x, y)
    requires DivergenceFree(nx, ny, u, v)
    ensures DivergenceCell(nx, ny, u, v, x, y) == 0.0
  {
    var net := u[Idx(nx, ny, x + 1, y)] - u[Idx(nx, ny, x - 1, y)] + v[Idx(nx, ny, x, y + 1)] - v[Idx(nx, ny, x, y - 1)];
    assert net == 0.0;
    assert DivergenceCell(nx, ny, u, v, x, y) == -0.5 * Spacing(nx) * net;
  }

  /** The divergence of a divergence-free velocity is zero everywhere,
      border included. */
  lemma DivergenceOfFree(nx: nat, ny: nat, u: seq<real>, v: seq<real>, div: seq<real>)
    requires ValidSize(nx, ny) && IsField(nx, ny, u) && IsField(nx, ny, v) && IsField(nx, ny, div)
    requires DivergenceFree(nx, ny, u, v)
    ensures AllZero(Bnd(nx, ny, 0, DivergenceTable(nx, ny, u, v, div)))
  {
    var t := DivergenceTable(nx, ny, u, v, div);
    forall x: nat, y: nat | Interior(nx, ny, x, y)
      ensures t[Idx(nx, ny, x, y)] == 0.0
    {
      DivergenceTableAt(nx, ny, u, v, div, x, y);
      DivergenceCellOfFree(nx, ny, u, v, x, y);
    }
    BndOfZeroInterior(nx, ny, 0, t);
  }

  /** A zero pressure has no gradient: the velocity only gets its border
      filled, `u` ... */
  lemma GradientUOfZero(nx: nat, ny: nat, u: seq<real>, p: seq<real>)
    requires ValidSize(nx, ny) && IsField(nx, ny, u) && IsField(nx, ny, p)
    requires AllZero(p)
    ensures Bnd(nx, ny, 1, GradientU(nx, ny, u, p)) == Bnd(nx, ny, 1, u)
  {
    forall x: nat, y: nat | Interior(nx, ny, x, y)
      ensures GradientU(nx, ny, u, p)[Idx(nx, ny, x, y)] == u[Idx(nx, ny, x, y)]
    {
      GradientUAt(nx, ny, u, p, x, y);
      assert p[Idx(nx, ny, x + 1, y)] == 0.0 && p[Idx(nx, ny, x - 1, y)] == 0.0;
    }
    BndReadsInterior(nx, ny, 1, GradientU(nx, ny, u, p), u);
  }

  /** ... and `v`. */
  lemma GradientVOfZero(nx: nat, ny: nat, v: seq<real>, p: seq<real>)
    requires ValidSize(nx, ny) && IsField(nx, ny, v) && IsField(nx, ny, p)
    requires AllZero(p)
    ensures Bnd(nx, ny, 2, GradientV(nx, ny, v, p)) == Bnd(nx, ny, 2, v)
  {
    forall x: nat, y: nat | Interior(nx, ny, x, y)
      ensures GradientV(nx, ny, v, p)[Idx(nx, ny, x, y)] == v[Idx(nx, ny, x, y)]
    {
      GradientVAt(nx, ny, v, p, x, y);
      assert p[Idx(nx, ny, x, y + 1)] == 0.0 && p[Idx(nx, ny, x, y - 1)] == 0.0;
    }
    BndReadsInterior(nx, ny, 2, GradientV(nx, ny, v, p), v);
  }

  /** A velocity that is already divergence-free is kept: only its border is
      filled, and the pressure and divergence come out zero. */
  lemma ProjectKeepsDivergenceFree(nx: nat, ny: nat, u: seq<real>, v: seq<real>, p: seq<real>, div: seq<real>)
    requires ValidSize(nx, ny) && IsField(nx, ny, u) && IsField(nx, ny, v) && IsField(nx, ny, p) && IsField(nx, ny, div)
    requires DivergenceFree(nx, ny, u, v)
    ensures var r := Project(nx, ny, u, v, p, div);
      r.u == Bnd(nx, ny, 1, u) && r.v == Bnd(nx, ny, 2, v) && AllZero(r.p) && AllZero(r.div)
  {
    var div1 := Bnd(nx, ny, 0, DivergenceTable(nx, ny, u, v, div));
    var p1 := Bnd(nx, ny, 0, ClearedTable(nx, ny, p));
    DivergenceOfFree(nx, ny, u, v, div);
    PressureStartsAtRest(nx, ny, p);
    PressureOfZero(nx, ny, p1, div1);
    GradientUOfZero(nx, ny, u, p1);
    GradientVOfZero(nx, ny, v, p1);
  }

  /** A fluid at rest stays at rest: zero velocity gives zero everywhere. */
  lemma ProjectOfRest(nx: nat, ny: nat, u: seq<real>, v: seq<real>, p: seq<real>, div: seq<real>)
    requires ValidSize(nx, ny) && IsField(nx, ny, u) && IsField(nx, ny, v) && IsField(nx, ny, p) && IsField(nx, ny, div)
    requires AllZero(u) && AllZero(v)
    ensures var r := Project(nx, ny, u, v, p, div);
      AllZero(r.u) && AllZero(r.v) && AllZero(r.p) && AllZero(r.div)
  {
    forall x: nat, y: nat | Interior(nx, ny, x, y)
      ensures u[Idx(nx, ny, x + 1, y)] - u[Idx(nx, ny, x - 1, y)] + v[Idx(nx, ny, x, y + 1)] - v[Idx(nx, ny, x, y - 1)] == 0.0
    {
    }
    ProjectKeepsDivergenceFree(nx, ny, u, v, p, div);
    BndIdempotentOfZero(nx, ny, 1, u);
    BndIdempotentOfZero(nx, ny, 2, v);
  }
}
