/** Gauss–Seidel relaxation, shared by `Diffuse` (FluidSim.cpp:331-347) and
    the pressure solve of `Project` (FluidSim.cpp:398-409).

    One sweep visits the interior cells row by row, left to right, and
    overwrites each with its stencil value computed from the array as it is
    at that moment: the left and upper neighbours have already been
    rewritten in this sweep, the right and lower ones not yet.  Every sweep
    is followed by the boundary fill. */
module Relaxation {
  import opened Grid
  import opened Boundary

  /** `SOLVER_ITERATIONS` (FluidSim.cpp:6). */
  const SolverIterations: nat := 10

  /** The stencil value of interior cell (x, y): the source term plus `a`
      times the four neighbours (left, right, up, down), divided by `c`.
      The left and upper neighbours are read from `early`, the right and
      lower ones from `late`. */
  function Stencil(nx: nat, ny: nat, src: seq<real>, a: real, c: real, early: seq<real>, late: seq<real>, x: nat, y: nat): real
    requires ValidSize(nx, ny) && IsField(nx, ny, src) && IsField(nx, ny, early) && IsField(nx, ny, late)
    requires Interior(nx, ny, x, y) && c != 0.0
  {
    (src[Idx(nx, ny, x, y)] + a * (early[Idx(nx, ny, x - 1, y)] + late[Idx(nx, ny, x + 1, y)]
                                   + early[Idx(nx, ny, x, y - 1)] + late[Idx(nx, ny, x, y + 1)])) / c
  }

  /** The rest of a sweep that is about to update cell (x, y): the source's
      two nested loops, one cell per step. */
  function SweepFrom(nx: nat, ny: nat, s: seq<real>, src: seq<real>, a: real, c: real, x: nat, y: nat): (r: seq<real>)
    requires ValidSize(nx, ny) && IsField(nx, ny, s) && IsField(nx, ny, src) && c != 0.0
    requires 1 <= x <= nx - 1 && 1 <= y <= ny - 1
    ensures IsField(nx, ny, r)
    decreases ny - y, nx - x
  {
    if y == ny - 1 then s
    else if x == nx - 1 then SweepFrom(nx, ny, s, src, a, c, 1, y + 1)
    else SweepFrom(nx, ny, s[Idx(nx, ny, x, y) := Stencil(nx, ny, src, a, c, s, s, x, y)], src, a, c, x + 1, y)
  }

  /** One whole sweep. */
  function Sweep(nx: nat, ny: nat, s: seq<real>, src: seq<real>, a: real, c: real): (r: seq<real>)
    requires ValidSize(nx, ny) && IsField(nx, ny, s) && IsField(nx, ny, src) && c != 0.0
    ensures IsField(nx, ny, r)
  {
    SweepFrom(nx, ny, s, src, a, c, 1, 1)
  }

  /** One cell of a sweep, with the five values the source reads at (x, y)
      named: writing their stencil and moving right gives the same rest of
      the sweep. */
  lemma SweepFromCell(nx: nat, ny: nat, s: seq<real>, src: seq<real>, a: real, c: real, x: nat, y: nat,
                      here: real, left: real, right: real, up: real, down: real)
    requires ValidSize(nx, ny) && IsField(nx, ny, s) && IsField(nx, ny, src) && c != 0.0
    requires Interior(nx, ny, x, y)
    requires here == src[Idx(nx, ny, x, y)]
    requires left == s[Idx(nx, ny, x - 1, y)] && right == s[Idx(nx, ny, x + 1, y)]
    requires up == s[Idx(nx, ny, x, y - 1)] && down == s[Idx(nx, ny, x, y + 1)]
    ensures SweepFrom(nx, ny, s[Idx(nx, ny, x, y) := (here + a * (left + right + up + down)) / c], src, a, c, x + 1, y)
         == SweepFrom(nx, ny, s, src, a, c, x, y)
  {
    assert (here + a * (left + right + up + down)) / c == Stencil(nx, ny, src, a, c, s, s, x, y);
  }

  /** What the part of a sweep starting at (x0, y0) does, stated without
      running it: the cells it does not visit keep their value, and every
      cell it visits holds the stencil of its final left and upper
      neighbours and its initial right and lower ones. */
  ghost predicate SweptFrom(nx: nat, ny: nat, s: seq<real>, src: seq<real>, a: real, c: real, r: seq<real>, x0: nat, y0: nat)
    requires ValidSize(nx, ny) && IsField(nx, ny, s) && IsField(nx, ny, src) && IsField(nx, ny, r) && c != 0.0
  {
    && (forall x: nat, y: nat | x < nx && y < ny && !(Interior(nx, ny, x, y) && !Before(x, y, x0, y0)) ::
          r[Idx(nx, ny, x, y)] == s[Idx(nx, ny, x, y)])
    && (forall x: nat, y: nat {:trigger Stencil(nx, ny, src, a, c, r, s, x, y)}
          | Interior(nx, ny, x, y) && !Before(x, y, x0, y0) ::
          r[Idx(nx, ny, x, y)] == Stencil(nx, ny, src, a, c, r, s, x, y))
  }

  /** One step of a sweep, cell (x0, y0) just rewritten in `s1`, keeps the
      cells it does not visit. */
  lemma SweepStepFrame(nx: nat, ny: nat, s: seq<real>, s1: seq<real>, src: seq<real>, a: real, c: real, r: seq<real>,
                       x0: nat, y0: nat, x: nat, y: nat)
    requires ValidSize(nx, ny) && IsField(nx, ny, s) && IsField(nx, ny, src) && IsField(nx, ny, r) && c != 0.0
    requires Interior(nx, ny, x0, y0)
    requires s1 == s[Idx(nx, ny, x0, y0) := Stencil(nx, ny, src, a, c, s, s, x0, y0)]
    requires SweptFrom(nx, ny, s1, src, a, c, r, x0 + 1, y0)
    requires x < nx && y < ny && !(Interior(nx, ny, x, y) && !Before(x, y, x0, y0))
    ensures r[Idx(nx, ny, x, y)] == s[Idx(nx, ny, x, y)]
  {
    IdxInjective(nx, ny, x, y, x0, y0);
    assert r[Idx(nx, ny, x, y)] == s1[Idx(nx, ny, x, y)];
  }

  /** ... leaves the cell it rewrote on its stencil value ... */
  lemma SweepStepFirst(nx: nat, ny: nat, s: seq<real>, s1: seq<real>, src: seq<real>, a: real, c: real, r: seq<real>,
                         x0: nat, y0: nat, x: nat, y: nat)
    requires ValidSize(nx, ny) && IsField(nx, ny, s) && IsField(nx, ny, src) && IsField(nx, ny, r) && c != 0.0
    requires Interior(nx, ny, x0, y0)
    requires s1 == s[Idx(nx, ny, x0, y0) := Stencil(nx, ny, src, a, c, s, s, x0, y0)]
    requires SweptFrom(nx, ny, s1, src, a, c, r, x0 + 1, y0)
    requires x == x0 && y == y0
    ensures r[Idx(nx, ny, x, y)] == Stencil(nx, ny, src, a, c, r, s, x, y)
  {
    IdxNeighbours(nx, ny, x0, y0);
    assert r[Idx(nx, ny, x0, y0)] == s1[Idx(nx, ny, x0, y0)];
    assert r[Idx(nx, ny, x0 - 1, y0)] == s1[Idx(nx, ny, x0 - 1, y0)];
    assert r[Idx(nx, ny, x0, y0 - 1)] == s1[Idx(nx, ny, x0, y0 - 1)];
  }

  /** ... and every later cell, whose right and lower neighbours it did not
      touch, on its stencil value too. */
  lemma SweepStepLater(nx: nat, ny: nat, s: seq<real>, s1: seq<real>, src: seq<real>, a: real, c: real, r: seq<real>,
                         x0: nat, y0: nat, x: nat, y: nat)
    requires ValidSize(nx, ny) && IsField(nx, ny, s) && IsField(nx, ny, src) && IsField(nx, ny, r) && c != 0.0
    requires Interior(nx, ny, x0, y0)
    requires s1 == s[Idx(nx, ny, x0, y0) := Stencil(nx, ny, src, a, c, s, s, x0, y0)]
    requires SweptFrom(nx, ny, s1, src, a, c, r, x0 + 1, y0)
    requires Interior(nx, ny, x, y) && !Before(x, y, x0 + 1, y0)
    ensures r[Idx(nx, ny, x, y)] == Stencil(nx, ny, src, a, c, r, s, x, y)
  {
    IdxInjective(nx, ny, x + 1, y, x0, y0);
    IdxInjective(nx, ny, x, y + 1, x0, y0);
    assert r[Idx(nx, ny, x, y)] == Stencil(nx, ny, src, a, c, r, s1, x, y);
  }

  lemma {:induction false} SweepFromSpec(nx: nat, ny: nat, s: seq<real>, src: seq<real>, a: real, c: real, x0: nat, y0: nat)
    requires ValidSize(nx, ny) && IsField(nx, ny, s) && IsField(nx, ny, src) && c != 0.0
    requires 1 <= x0 <= nx - 1 && 1 <= y0 <= ny - 1
    ensures SweptFrom(nx, ny, s, src, a, c, SweepFrom(nx, ny, s, src, a, c, x0, y0), x0, y0)
    decreases ny - y0, nx - x0
  {
    if y0 == ny - 1 {
    } else if x0 == nx - 1 {
      SweepFromSpec(nx, ny, s, src, a, c, 1, y0 + 1);
    } else {
      var s1 := s[Idx(nx, ny, x0, y0) := Stencil(nx, ny, src, a, c, s, s, x0, y0)];
      var r := SweepFrom(nx, ny, s1, src, a, c, x0 + 1, y0);
      SweepFromSpec(nx, ny, s1, src, a, c, x0 + 1, y0);
      forall x: nat, y: nat | x < nx && y < ny && !(Interior(nx, ny, x, y) && !Before(x, y, x0, y0))
        ensures r[Idx(nx, ny, x, y)] == s[Idx(nx, ny, x, y)]
      {
        SweepStepFrame(nx, ny, s, s1, src, a, c, r, x0, y0, x, y);
      }
      forall x: nat, y: nat | Interior(nx, ny, x, y) && !Before(x, y, x0, y0)
        ensures r[Idx(nx, ny, x, y)] == Stencil(nx, ny, src, a, c, r, s, x, y)
      {
        if x == x0 && y == y0 {
          SweepStepFirst(nx, ny, s, s1, src, a, c, r, x0, y0, x, y);
        } else {
          SweepStepLater(nx, ny, s, s1, src, a, c, r, x0, y0, x, y);
        }
      }
    }
  }

  /** A sweep is one Gauss–Seidel step: the border is untouched, and every
      interior cell of the result solves its stencil equation with the new
      left and upper neighbours and the old right and lower ones. */
  lemma SweepIsGaussSeidel(nx: nat, ny: nat, s: seq<real>, src: seq<real>, a: real, c: real)
    requires ValidSize(nx, ny) && IsField(nx, ny, s) && IsField(nx, ny, src) && c != 0.0
    ensures SameBorder(nx, ny, Sweep(nx, ny, s, src, a, c), s)
    ensures forall x: nat, y: nat {:trigger Stencil(nx, ny, src, a, c, Sweep(nx, ny, s, src, a, c), s, x, y)}
      | Interior(nx, ny, x, y) ::
      Sweep(nx, ny, s, src, a, c)[Idx(nx, ny, x, y)] == Stencil(nx, ny, src, a, c, Sweep(nx, ny, s, src, a, c), s, x, y)
  {
    SweepFromSpec(nx, ny, s, src, a, c, 1, 1);
  }

  /** Without coupling (`a == 0`, `c == 1`, as in `Diffuse` with no
      diffusion) a sweep copies the source into the interior. */
  lemma SweepUncoupled(nx: nat, ny: nat, s: seq<real>, src: seq<real>)
    requires ValidSize(nx, ny) && IsField(nx, ny, s) && IsField(nx, ny, src)
    ensures SameInterior(nx, ny, Sweep(nx, ny, s, src, 0.0, 1.0), src)
  {
    var r := Sweep(nx, ny, s, src, 0.0, 1.0);
    SweepIsGaussSeidel(nx, ny, s, src, 0.0, 1.0);
    forall x: nat, y: nat | Interior(nx, ny, x, y)
      ensures r[Idx(nx, ny, x, y)] == src[Idx(nx, ny, x, y)]
    {
      assert r[Idx(nx, ny, x, y)] == Stencil(nx, ny, src, 0.0, 1.0, r, s, x, y);
    }
  }

  /** `s` already solves every stencil equation of the interior. */
  ghost predicate Stationary(nx: nat, ny: nat, s: seq<real>, src: seq<real>, a: real, c: real)
    requires ValidSize(nx, ny) && IsField(nx, ny, s) && IsField(nx, ny, src) && c != 0.0
  {
    forall x: nat, y: nat {:trigger Stencil(nx, ny, src, a, c, s, s, x, y)}
      | Interior(nx, ny, x, y) :: s[Idx(nx, ny, x, y)] == Stencil(nx, ny, src, a, c, s, s, x, y)
  }

  /** A field that solves the stencil equations is a fixed point of the
      sweep. */
  lemma {:induction false} SweepFixesSolution(nx: nat, ny: nat, s: seq<real>, src: seq<real>, a: real, c: real, x: nat, y: nat)
    requires ValidSize(nx, ny) && IsField(nx, ny, s) && IsField(nx, ny, src) && c != 0.0
    requires 1 <= x <= nx - 1 && 1 <= y <= ny - 1
    requires Stationary(nx, ny, s, src, a, c)
    ensures SweepFrom(nx, ny, s, src, a, c, x, y) == s
    decreases ny - y, nx - x
  {
    if y == ny - 1 {
    } else if x == nx - 1 {
      SweepFixesSolution(nx, ny, s, src, a, c, 1, y + 1);
    } else {
      assert s[Idx(nx, ny, x, y) := Stencil(nx, ny, src, a, c, s, s, x, y)] == s;
      SweepFixesSolution(nx, ny, s, src, a, c, x + 1, y);
    }
  }

  /** The zero field solves the equations of a zero source. */
  lemma ZeroIsStationary(nx: nat, ny: nat, s: seq<real>, src: seq<real>, a: real, c: real)
    requires ValidSize(nx, ny) && IsField(nx, ny, s) && IsField(nx, ny, src) && c != 0.0
    requires AllZero(s) && AllZero(src)
    ensures Stationary(nx, ny, s, src, a, c)
  {
    forall x: nat, y: nat | Interior(nx, ny, x, y)
      ensures s[Idx(nx, ny, x, y)] == Stencil(nx, ny, src, a, c, s, s, x, y)
    {
      assert s[Idx(nx, ny, x - 1, y)] == 0.0 && s[Idx(nx, ny, x + 1, y)] == 0.0;
      assert s[Idx(nx, ny, x, y - 1)] == 0.0 && s[Idx(nx, ny, x, y + 1)] == 0.0;
      assert src[Idx(nx, ny, x, y)] == 0.0 && s[Idx(nx, ny, x, y)] == 0.0;
    }
  }

  lemma StencilNonNegative(nx: nat, ny: nat, src: seq<real>, a: real, c: real, s: seq<real>, x: nat, y: nat)
    requires ValidSize(nx, ny) && IsField(nx, ny, src) && IsField(nx, ny, s)
    requires Interior(nx, ny, x, y) && a >= 0.0 && c > 0.0
    requires NonNegative(s) && NonNegative(src)
    ensures Stencil(nx, ny, src, a, c, s, s, x, y) >= 0.0
  {
    var sum := s[Idx(nx, ny, x - 1, y)] + s[Idx(nx, ny, x + 1, y)] + s[Idx(nx, ny, x, y - 1)] + s[Idx(nx, ny, x, y + 1)];
    assert sum >= 0.0;
    assert a * sum >= 0.0;
  }

  /** With non-negative coupling and a positive divisor, a sweep of a
      non-negative field with a non-negative source stays non-negative. */
  lemma {:induction false} SweepNonNegative(nx: nat, ny: nat, s: seq<real>, src: seq<real>, a: real, c: real, x: nat, y: nat)
    requires ValidSize(nx, ny) && IsField(nx, ny, s) && IsField(nx, ny, src) && a >= 0.0 && c > 0.0
    requires 1 <= x <= nx - 1 && 1 <= y <= ny - 1
    requires NonNegative(s) && NonNegative(src)
    ensures NonNegative(SweepFrom(nx, ny, s, src, a, c, x, y))
    decreases ny - y, nx - x
  {
    if y == ny - 1 {
    } else if x == nx - 1 {
      SweepNonNegative(nx, ny, s, src, a, c, 1, y + 1);
    } else {
      StencilNonNegative(nx, ny, src, a, c, s, x, y);
      SweepNonNegative(nx, ny, s[Idx(nx, ny, x, y) := Stencil(nx, ny, src, a, c, s, s, x, y)], src, a, c, x + 1, y);
    }
  }

  /** `k` rounds of "sweep, then fill the border with kind b", starting from
      `s`: the iteration loop of `Diffuse` and of the pressure solve. */
  function Relaxed(nx: nat, ny: nat, b: int, s: seq<real>, src: seq<real>, a: real, c: real, k: nat): (r: seq<real>)
    requires ValidSize(nx, ny) && IsField(nx, ny, s) && IsField(nx, ny, src) && c != 0.0
    ensures IsField(nx, ny, r)
  {
    if k == 0 then s else Bnd(nx, ny, b, Sweep(nx, ny, Relaxed(nx, ny, b, s, src, a, c, k - 1), src, a, c))
  }

  /** One more round is a sweep followed by the border fill. */
  lemma RelaxedNext(nx: nat, ny: nat, b: int, s: seq<real>, src: seq<real>, a: real, c: real, k: nat, r: seq<real>)
    requires ValidSize(nx, ny) && IsField(nx, ny, s) && IsField(nx, ny, src) && c != 0.0
    requires r == Relaxed(nx, ny, b, s, src, a, c, k)
    ensures Relaxed(nx, ny, b, s, src, a, c, k + 1) == Bnd(nx, ny, b, Sweep(nx, ny, r, src, a, c))
  {
  }

  /** Without coupling the rounds copy the source, whatever the start. */
  lemma RelaxedUncoupled(nx: nat, ny: nat, b: int, s: seq<real>, src: seq<real>, k: nat)
    requires ValidSize(nx, ny) && IsField(nx, ny, s) && IsField(nx, ny, src) && k > 0
    ensures Relaxed(nx, ny, b, s, src, 0.0, 1.0, k) == Bnd(nx, ny, b, src)
  {
    var prev := Relaxed(nx, ny, b, s, src, 0.0, 1.0, k - 1);
    SweepUncoupled(nx, ny, prev, src);
    BndReadsInterior(nx, ny, b, Sweep(nx, ny, prev, src, 0.0, 1.0), src);
  }

  /** A field that solves the stencil equations and has a consistent border
      is left as it is by any number of rounds. */
  lemma {:induction false} RelaxedFixesSolution(nx: nat, ny: nat, b: int, s: seq<real>, src: seq<real>, a: real, c: real, k: nat)
    requires ValidSize(nx, ny) && IsField(nx, ny, s) && IsField(nx, ny, src) && c != 0.0
    requires Stationary(nx, ny, s, src, a, c) && Consistent(nx, ny, b, s)
    ensures Relaxed(nx, ny, b, s, src, a, c, k) == s
  {
    if k > 0 {
      RelaxedFixesSolution(nx, ny, b, s, src, a, c, k - 1);
      assert Relaxed(nx, ny, b, s, src, a, c, k) == Bnd(nx, ny, b, Sweep(nx, ny, s, src, a, c));
      SweepFixesSolution(nx, ny, s, src, a, c, 1, 1);
      BndIdempotent(nx, ny, b, s);
    }
  }

  /** After at least one round the border is consistent with the interior. */
  lemma RelaxedConsistent(nx: nat, ny: nat, b: int, s: seq<real>, src: seq<real>, a: real, c: real, k: nat)
    requires ValidSize(nx, ny) && IsField(nx, ny, s) && IsField(nx, ny, src) && c != 0.0 && k > 0
    ensures Consistent(nx, ny, b, Relaxed(nx, ny, b, s, src, a, c, k))
  {
    BndFills(nx, ny, b, Sweep(nx, ny, Relaxed(nx, ny, b, s, src, a, c, k - 1), src, a, c));
  }

  /** Scalar rounds (kind 0) keep a non-negative field non-negative. */
  lemma {:induction false} RelaxedNonNegative(nx: nat, ny: nat, s: seq<real>, src: seq<real>, a: real, c: real, k: nat)
    requires ValidSize(nx, ny) && IsField(nx, ny, s) && IsField(nx, ny, src) && a >= 0.0 && c > 0.0
    requires NonNegative(s) && NonNegative(src)
    ensures NonNegative(Relaxed(nx, ny, 0, s, src, a, c, k))
  {
    if k > 0 {
      RelaxedNonNegative(nx, ny, s, src, a, c, k - 1);
      var swept := Sweep(nx, ny, Relaxed(nx, ny, 0, s, src, a, c, k - 1), src, a, c);
      SweepNonNegative(nx, ny, Relaxed(nx, ny, 0, s, src, a, c, k - 1), src, a, c, 1, 1);
      BndScalarNonNegative(nx, ny, swept);
    }
  }

  /** `a = dt * diff * sizeX * sizeY`, the coupling `Diffuse` uses. */
  function DiffusionRate(nx: nat, ny: nat, diff: real, dt: real): (a: real)
    requires diff >= 0.0 && dt >= 0.0
    ensures a >= 0.0
    ensures a == 0.0 <==> diff == 0.0 || dt == 0.0 || nx == 0 || ny == 0
  {
    var a := dt * diff * (nx as real) * (ny as real);
    assert dt * diff >= 0.0;
    assert dt * diff * (nx as real) >= 0.0;
    a
  }

  /** `1 + 4a`, the divisor of `Diffuse`'s stencil. */
  function DiffusionDivisor(a: real): (c: real)
    requires a >= 0.0
    ensures c >= 1.0
  {
    1.0 + 4.0 * a
  }

  /** `Diffuse(b, d, d0, diff, dt)`: ten rounds with coupling `a` and divisor
      `1 + 4a`, starting from the current contents of `d` and with `d0` as
      the source term. */
  function DiffuseField(nx: nat, ny: nat, b: int, d: seq<real>, d0: seq<real>, diff: real, dt: real): (r: seq<real>)
    requires ValidSize(nx, ny) && IsField(nx, ny, d) && IsField(nx, ny, d0)
    requires diff >= 0.0 && dt >= 0.0
    ensures IsField(nx, ny, r)
  {
    var a := DiffusionRate(nx, ny, diff, dt);
    Relaxed(nx, ny, b, d, d0, a, DiffusionDivisor(a), SolverIterations)
  }

  /** `Diffuse` ends with a border consistent with the interior. */
  lemma DiffuseConsistent(nx: nat, ny: nat, b: int, d: seq<real>, d0: seq<real>, diff: real, dt: real)
    requires ValidSize(nx, ny) && IsField(nx, ny, d) && IsField(nx, ny, d0)
    requires diff >= 0.0 && dt >= 0.0
    ensures Consistent(nx, ny, b, DiffuseField(nx, ny, b, d, d0, diff, dt))
  {
    var a := DiffusionRate(nx, ny, diff, dt);
    RelaxedConsistent(nx, ny, b, d, d0, a, DiffusionDivisor(a), SolverIterations);
  }

  /** With no diffusion (or no elapsed time) `Diffuse` copies `d0` and fills
      the border. */
  lemma DiffuseWithoutDiffusion(nx: nat, ny: nat, b: int, d: seq<real>, d0: seq<real>, diff: real, dt: real)
    requires ValidSize(nx, ny) && IsField(nx, ny, d) && IsField(nx, ny, d0)
    requires diff >= 0.0 && dt >= 0.0 && (diff == 0.0 || dt == 0.0)
    ensures DiffuseField(nx, ny, b, d, d0, diff, dt) == Bnd(nx, ny, b, d0)
  {
    var a := DiffusionRate(nx, ny, diff, dt);
    assert a == 0.0 && DiffusionDivisor(a) == 1.0;
    RelaxedUncoupled(nx, ny, b, d, d0, SolverIterations);
  }

  /** `Diffuse` leaves alone a field that already solves the implicit
      diffusion equation `(1 + 4a) d - a * (sum of neighbours) = d0` and has a
      consistent border. */
  lemma DiffuseKeepsEquilibrium(nx: nat, ny: nat, b: int, d: seq<real>, d0: seq<real>, diff: real, dt: real)
    requires ValidSize(nx, ny) && IsField(nx, ny, d) && IsField(nx, ny, d0)
    requires diff >= 0.0 && dt >= 0.0 && Consistent(nx, ny, b, d)
    requires var a := DiffusionRate(nx, ny, diff, dt); Stationary(nx, ny, d, d0, a, DiffusionDivisor(a))
    ensures DiffuseField(nx, ny, b, d, d0, diff, dt) == d
  {
    var a := DiffusionRate(nx, ny, diff, dt);
    RelaxedFixesSolution(nx, ny, b, d, d0, a, DiffusionDivisor(a), SolverIterations);
  }

  /** Scalar diffusion (kind 0) of non-negative densities stays
      non-negative. */
  lemma DiffuseNonNegative(nx: nat, ny: nat, d: seq<real>, d0: seq<real>, diff: real, dt: real)
    requires ValidSize(nx, ny) && IsField(nx, ny, d) && IsField(nx, ny, d0)
    requires diff >= 0.0 && dt >= 0.0 && NonNegative(d) && NonNegative(d0)
    ensures NonNegative(DiffuseField(nx, ny, 0, d, d0, diff, dt))
  {
    var a := DiffusionRate(nx, ny, diff, dt);
    RelaxedNonNegative(nx, ny, d, d0, a, DiffusionDivisor(a), SolverIterations);
  }
}
