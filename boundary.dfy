/** Boundary fill (`FluidSim::SetBnd`, FluidSim.cpp:425-443).

    The kind `b` selects the sign rule: 0 for scalars (densities, pressure,
    divergence), 1 for the horizontal velocity `u` (negated across the left
    and right edges), 2 for the vertical velocity `v` (negated across the top
    and bottom edges).  Edges are copied from the adjacent interior row or
    column first; each corner is then the mean of its two already-filled
    edge neighbours. */
module Boundary {
  import opened Grid

  /** The copy rule across one edge. */
  function Reflected(negate: bool, v: real): real {
    if negate then -v else v
  }

  /** The relation `SetBnd(b, ·)` establishes between the border of a field
      and its interior. */
  ghost predicate Consistent(nx: nat, ny: nat, b: int, s: seq<real>)
    requires ValidSize(nx, ny) && IsField(nx, ny, s)
  {
    && (forall x: nat | 0 < x < nx - 1 ::
          s[Idx(nx, ny, x, 0)] == Reflected(b == 2, s[Idx(nx, ny, x, 1)]) &&
          s[Idx(nx, ny, x, ny - 1)] == Reflected(b == 2, s[Idx(nx, ny, x, ny - 2)]))
    && (forall y: nat | 0 < y < ny - 1 ::
          s[Idx(nx, ny, 0, y)] == Reflected(b == 1, s[Idx(nx, ny, 1, y)]) &&
          s[Idx(nx, ny, nx - 1, y)] == Reflected(b == 1, s[Idx(nx, ny, nx - 2, y)]))
    && s[Idx(nx, ny, 0, 0)] == 0.5 * (s[Idx(nx, ny, 1, 0)] + s[Idx(nx, ny, 0, 1)])
    && s[Idx(nx, ny, 0, ny - 1)] == 0.5 * (s[Idx(nx, ny, 1, ny - 1)] + s[Idx(nx, ny, 0, ny - 2)])
    && s[Idx(nx, ny, nx - 1, 0)] == 0.5 * (s[Idx(nx, ny, nx - 2, 0)] + s[Idx(nx, ny, nx - 1, 1)])
    && s[Idx(nx, ny, nx - 1, ny - 1)] == 0.5 * (s[Idx(nx, ny, nx - 2, ny - 1)] + s[Idx(nx, ny, nx - 1, ny - 2)])
  }

  /** The interior coordinate a border coordinate copies from: 0 reads 1,
      n - 1 reads n - 2, anything else reads itself. */
  function Inward(n: nat, x: nat): nat
    requires n >= 3
  {
    if x == 0 then 1 else if x == n - 1 then n - 2 else x
  }

  /** The value `SetBnd(b, s)` leaves in cell (x, y), written in terms of the
      input field.  A corner combines the two edge values it reads, which
      are both copies of the diagonal interior neighbour. */
  function BndCell(nx: nat, ny: nat, b: int, s: seq<real>, x: nat, y: nat): real
    requires ValidSize(nx, ny) && IsField(nx, ny, s) && x < nx && y < ny
  {
    var cx := Inward(nx, x);
    var cy := Inward(ny, y);
    if Interior(nx, ny, x, y) then s[Idx(nx, ny, x, y)]
    else if 0 < x < nx - 1 then Reflected(b == 2, s[Idx(nx, ny, x, cy)])
    else if 0 < y < ny - 1 then Reflected(b == 1, s[Idx(nx, ny, cx, y)])
    else 0.5 * (Reflected(b == 2, s[Idx(nx, ny, cx, cy)]) + Reflected(b == 1, s[Idx(nx, ny, cx, cy)]))
  }

  /** The field after `SetBnd(b, s)`, cell by cell. */
  function Bnd(nx: nat, ny: nat, b: int, s: seq<real>): (r: seq<real>)
    requires ValidSize(nx, ny) && IsField(nx, ny, s)
    ensures IsField(nx, ny, r)
  {
    seq(|s|, i requires 0 <= i < |s| => (IdxOnto(nx, ny, i); BndCell(nx, ny, b, s, ColumnOf(nx, i), RowOf(nx, i))))
  }

  lemma BndAt(nx: nat, ny: nat, b: int, s: seq<real>, x: nat, y: nat)
    requires ValidSize(nx, ny) && IsField(nx, ny, s) && x < nx && y < ny
    ensures Bnd(nx, ny, b, s)[Idx(nx, ny, x, y)] == BndCell(nx, ny, b, s, x, y)
  {
    IdxCoords(nx, ny, x, y);
  }

  /** `SetBnd` leaves the interior untouched and makes the border consistent
      with it. */
  lemma BndFills(nx: nat, ny: nat, b: int, s: seq<real>)
    requires ValidSize(nx, ny) && IsField(nx, ny, s)
    ensures SameInterior(nx, ny, Bnd(nx, ny, b, s), s)
    ensures Consistent(nx, ny, b, Bnd(nx, ny, b, s))
  {
    var r := Bnd(nx, ny, b, s);
    forall x: nat, y: nat | x < nx && y < ny
      ensures r[Idx(nx, ny, x, y)] == BndCell(nx, ny, b, s, x, y)
    {
      BndAt(nx, ny, b, s, x, y);
    }
    ClosedFormConsistent(nx, ny, b, s, r);
  }

  /** A field that agrees with the closed form on every cell keeps the
      interior of `s` and has a consistent border. */
  lemma ClosedFormConsistent(nx: nat, ny: nat, b: int, s: seq<real>, r: seq<real>)
    requires ValidSize(nx, ny) && IsField(nx, ny, s) && IsField(nx, ny, r)
    requires forall x: nat, y: nat | x < nx && y < ny :: r[Idx(nx, ny, x, y)] == BndCell(nx, ny, b, s, x, y)
    ensures SameInterior(nx, ny, r, s)
    ensures Consistent(nx, ny, b, r)
  {
    forall x: nat | 0 < x < nx - 1
      ensures r[Idx(nx, ny, x, 0)] == Reflected(b == 2, r[Idx(nx, ny, x, 1)])
      ensures r[Idx(nx, ny, x, ny - 1)] == Reflected(b == 2, r[Idx(nx, ny, x, ny - 2)])
    {
      assert r[Idx(nx, ny, x, 1)] == BndCell(nx, ny, b, s, x, 1);
      assert r[Idx(nx, ny, x, ny - 2)] == BndCell(nx, ny, b, s, x, ny - 2);
      assert r[Idx(nx, ny, x, 0)] == BndCell(nx, ny, b, s, x, 0);
      assert r[Idx(nx, ny, x, ny - 1)] == BndCell(nx, ny, b, s, x, ny - 1);
    }
    forall y: nat | 0 < y < ny - 1
      ensures r[Idx(nx, ny, 0, y)] == Reflected(b == 1, r[Idx(nx, ny, 1, y)])
      ensures r[Idx(nx, ny, nx - 1, y)] == Reflected(b == 1, r[Idx(nx, ny, nx - 2, y)])
    {
      assert r[Idx(nx, ny, 1, y)] == BndCell(nx, ny, b, s, 1, y);
      assert r[Idx(nx, ny, nx - 2, y)] == BndCell(nx, ny, b, s, nx - 2, y);
      assert r[Idx(nx, ny, 0, y)] == BndCell(nx, ny, b, s, 0, y);
      assert r[Idx(nx, ny, nx - 1, y)] == BndCell(nx, ny, b, s, nx - 1, y);
    }
    assert r[Idx(nx, ny, 1, 0)] == BndCell(nx, ny, b, s, 1, 0);
    assert r[Idx(nx, ny, 0, 1)] == BndCell(nx, ny, b, s, 0, 1);
    assert r[Idx(nx, ny, 0, 0)] == BndCell(nx, ny, b, s, 0, 0);
    assert r[Idx(nx, ny, 1, ny - 1)] == BndCell(nx, ny, b, s, 1, ny - 1);
    assert r[Idx(nx, ny, 0, ny - 2)] == BndCell(nx, ny, b, s, 0, ny - 2);
    assert r[Idx(nx, ny, 0, ny - 1)] == BndCell(nx, ny, b, s, 0, ny - 1);
    assert r[Idx(nx, ny, nx - 2, 0)] == BndCell(nx, ny, b, s, nx - 2, 0);
    assert r[Idx(nx, ny, nx - 1, 1)] == BndCell(nx, ny, b, s, nx - 1, 1);
    assert r[Idx(nx, ny, nx - 1, 0)] == BndCell(nx, ny, b, s, nx - 1, 0);
    assert r[Idx(nx, ny, nx - 2, ny - 1)] == BndCell(nx, ny, b, s, nx - 2, ny - 1);
    assert r[Idx(nx, ny, nx - 1, ny - 2)] == BndCell(nx, ny, b, s, nx - 1, ny - 2);
    assert r[Idx(nx, ny, nx - 1, ny - 1)] == BndCell(nx, ny, b, s, nx - 1, ny - 1);
  }

  /** One cell of a field with the interior of `s` and a consistent border
      has the closed-form value. */
  lemma ConsistentCell(nx: nat, ny: nat, b: int, s: seq<real>, t: seq<real>, x: nat, y: nat)
    requires ValidSize(nx, ny) && IsField(nx, ny, s) && IsField(nx, ny, t)
    requires SameInterior(nx, ny, t, s) && Consistent(nx, ny, b, t)
    requires x < nx && y < ny
    ensures t[Idx(nx, ny, x, y)] == BndCell(nx, ny, b, s, x, y)
  {
    var cx := Inward(nx, x);
    var cy := Inward(ny, y);
    if Interior(nx, ny, x, y) {
      assert t[Idx(nx, ny, x, y)] == s[Idx(nx, ny, x, y)];
    } else if 0 < x < nx - 1 {
      assert Interior(nx, ny, x, cy);
      assert t[Idx(nx, ny, x, cy)] == s[Idx(nx, ny, x, cy)];
      if y == 0 {
        assert t[Idx(nx, ny, x, 0)] == Reflected(b == 2, t[Idx(nx, ny, x, 1)]);
      } else {
        assert t[Idx(nx, ny, x, ny - 1)] == Reflected(b == 2, t[Idx(nx, ny, x, ny - 2)]);
      }
    } else if 0 < y < ny - 1 {
      assert Interior(nx, ny, cx, y);
      assert t[Idx(nx, ny, cx, y)] == s[Idx(nx, ny, cx, y)];
      if x == 0 {
        assert t[Idx(nx, ny, 0, y)] == Reflected(b == 1, t[Idx(nx, ny, 1, y)]);
      } else {
        assert t[Idx(nx, ny, nx - 1, y)] == Reflected(b == 1, t[Idx(nx, ny, nx - 2, y)]);
      }
    } else {
      assert Interior(nx, ny, cx, cy);
      assert t[Idx(nx, ny, cx, cy)] == s[Idx(nx, ny, cx, cy)];
      assert 0 < cx < nx - 1 && 0 < cy < ny - 1;
      assert t[Idx(nx, ny, cx, y)] == Reflected(b == 2, t[Idx(nx, ny, cx, cy)]);
      assert t[Idx(nx, ny, x, cy)] == Reflected(b == 1, t[Idx(nx, ny, cx, cy)]);
    }
  }

  /** Interior and boundary relation together fix a field: whatever satisfies
      both is the result of `SetBnd`. */
  lemma {:induction false} BndUnique(nx: nat, ny: nat, b: int, s: seq<real>, t: seq<real>)
    requires ValidSize(nx, ny) && IsField(nx, ny, s) && IsField(nx, ny, t)
    requires SameInterior(nx, ny, t, s) && Consistent(nx, ny, b, t)
    ensures t == Bnd(nx, ny, b, s)
  {
    var r := Bnd(nx, ny, b, s);
    forall x: nat, y: nat | x < nx && y < ny
      ensures t[Idx(nx, ny, x, y)] == r[Idx(nx, ny, x, y)]
    {
      ConsistentCell(nx, ny, b, s, t, x, y);
      BndAt(nx, ny, b, s, x, y);
    }
    EqualByCells(nx, ny, t, r);
  }

  /** Filling an already consistent border changes nothing. */
  lemma BndIdempotent(nx: nat, ny: nat, b: int, s: seq<real>)
    requires ValidSize(nx, ny) && IsField(nx, ny, s) && Consistent(nx, ny, b, s)
    ensures Bnd(nx, ny, b, s) == s
  {
    BndUnique(nx, ny, b, s, s);
  }

  /** The fill reads only the interior: the old border is overwritten. */
  lemma BndReadsInterior(nx: nat, ny: nat, b: int, s: seq<real>, t: seq<real>)
    requires ValidSize(nx, ny) && IsField(nx, ny, s) && IsField(nx, ny, t)
    requires SameInterior(nx, ny, s, t)
    ensures Bnd(nx, ny, b, s) == Bnd(nx, ny, b, t)
  {
    BndFills(nx, ny, b, s);
    BndUnique(nx, ny, b, t, Bnd(nx, ny, b, s));
  }

  /** Effect of the edges-then-corners order: a velocity corner (kind 1 or
      2) averages a negated and an unnegated copy of the same interior value
      and so vanishes; a scalar corner copies its diagonal interior
      neighbour. */
  lemma CornersOf(nx: nat, ny: nat, b: int, s: seq<real>)
    requires ValidSize(nx, ny) && IsField(nx, ny, s) && Consistent(nx, ny, b, s)
    ensures b == 1 || b == 2 ==>
      && s[Idx(nx, ny, 0, 0)] == 0.0 && s[Idx(nx, ny, 0, ny - 1)] == 0.0
      && s[Idx(nx, ny, nx - 1, 0)] == 0.0 && s[Idx(nx, ny, nx - 1, ny - 1)] == 0.0
    ensures b != 1 && b != 2 ==>
      && s[Idx(nx, ny, 0, 0)] == s[Idx(nx, ny, 1, 1)]
      && s[Idx(nx, ny, 0, ny - 1)] == s[Idx(nx, ny, 1, ny - 2)]
      && s[Idx(nx, ny, nx - 1, 0)] == s[Idx(nx, ny, nx - 2, 1)]
      && s[Idx(nx, ny, nx - 1, ny - 1)] == s[Idx(nx, ny, nx - 2, ny - 2)]
  {
    assert 0 < 1 < nx - 1 && 0 < nx - 2 < nx - 1;
    assert 0 < 1 < ny - 1 && 0 < ny - 2 < ny - 1;
  }

  /** Every cell of the fill is built from the single cell `Inward` picks,
      which is interior. */
  lemma BndCellReadsInward(nx: nat, ny: nat, b: int, s: seq<real>, x: nat, y: nat)
    requires ValidSize(nx, ny) && IsField(nx, ny, s) && x < nx && y < ny
    ensures Interior(nx, ny, Inward(nx, x), Inward(ny, y))
    ensures s[Idx(nx, ny, Inward(nx, x), Inward(ny, y))] == 0.0 ==> BndCell(nx, ny, b, s, x, y) == 0.0
  {
  }

  /** A field whose interior is zero is zero everywhere after the fill. */
  lemma BndOfZeroInterior(nx: nat, ny: nat, b: int, s: seq<real>)
    requires ValidSize(nx, ny) && IsField(nx, ny, s)
    requires forall x: nat, y: nat | Interior(nx, ny, x, y) :: s[Idx(nx, ny, x, y)] == 0.0
    ensures AllZero(Bnd(nx, ny, b, s))
  {
    var r := Bnd(nx, ny, b, s);
    forall i | 0 <= i < |r|
      ensures r[i] == 0.0
    {
      IdxOnto(nx, ny, i);
      var x, y := ColumnOf(nx, i), RowOf(nx, i);
      BndAt(nx, ny, b, s, x, y);
      BndCellReadsInward(nx, ny, b, s, x, y);
    }
  }

  /** With the scalar rule (kind 0) every cell after the fill is a copy of
      the cell one step inward in each coordinate that lies on the border;
      that cell is interior. */
  lemma BndScalarCopiesInward(nx: nat, ny: nat, s: seq<real>, x: nat, y: nat)
    requires ValidSize(nx, ny) && IsField(nx, ny, s) && x < nx && y < ny
    ensures Interior(nx, ny, Inward(nx, x), Inward(ny, y))
    ensures Bnd(nx, ny, 0, s)[Idx(nx, ny, x, y)] == s[Idx(nx, ny, Inward(nx, x), Inward(ny, y))]
  {
    BndAt(nx, ny, 0, s, x, y);
  }

  /** Bounds that hold on the interior hold on the whole field after the
      scalar fill. */
  lemma BndScalarBounds(nx: nat, ny: nat, s: seq<real>, lo: real, hi: real)
    requires ValidSize(nx, ny) && IsField(nx, ny, s)
    requires forall x: nat, y: nat | Interior(nx, ny, x, y) :: lo <= s[Idx(nx, ny, x, y)] <= hi
    ensures forall i | 0 <= i < |s| :: lo <= Bnd(nx, ny, 0, s)[i] <= hi
  {
    forall i | 0 <= i < |s|
      ensures lo <= Bnd(nx, ny, 0, s)[i] <= hi
    {
      IdxOnto(nx, ny, i);
      BndScalarCopiesInward(nx, ny, s, ColumnOf(nx, i), RowOf(nx, i));
    }
  }

  /** The scalar fill of a field whose interior is non-negative is
      non-negative. */
  lemma BndScalarNonNegative(nx: nat, ny: nat, s: seq<real>)
    requires ValidSize(nx, ny) && IsField(nx, ny, s)
    requires forall x: nat, y: nat | Interior(nx, ny, x, y) :: s[Idx(nx, ny, x, y)] >= 0.0
    ensures NonNegative(Bnd(nx, ny, 0, s))
  {
    forall i | 0 <= i < |s|
      ensures Bnd(nx, ny, 0, s)[i] >= 0.0
    {
      IdxOnto(nx, ny, i);
      BndScalarCopiesInward(nx, ny, s, ColumnOf(nx, i), RowOf(nx, i));
    }
  }

  /* `SetBnd` itself writes the border in place: first the top and bottom
     edges column by column, then the left and right edges row by row, then
     the four corners.  The predicates and functions below describe that
     order; together they reach `Bnd`. */

  /** After the first loop has handled columns 1 .. x-1. */
  ghost predicate RowsFilled(nx: nat, ny: nat, b: int, s: seq<real>, x: nat)
    requires ValidSize(nx, ny) && IsField(nx, ny, s) && x <= nx - 1
  {
    forall xp: nat | 0 < xp < x ::
      s[Idx(nx, ny, xp, 0)] == Reflected(b == 2, s[Idx(nx, ny, xp, 1)]) &&
      s[Idx(nx, ny, xp, ny - 1)] == Reflected(b == 2, s[Idx(nx, ny, xp, ny - 2)])
  }

  /** After the second loop has handled rows 1 .. y-1. */
  ghost predicate ColumnsFilled(nx: nat, ny: nat, b: int, s: seq<real>, y: nat)
    requires ValidSize(nx, ny) && IsField(nx, ny, s) && y <= ny - 1
  {
    forall yp: nat | 0 < yp < y ::
      s[Idx(nx, ny, 0, yp)] == Reflected(b == 1, s[Idx(nx, ny, 1, yp)]) &&
      s[Idx(nx, ny, nx - 1, yp)] == Reflected(b == 1, s[Idx(nx, ny, nx - 2, yp)])
  }

  /** One pass of the first loop: the top cell, then the bottom cell, of
      column x. */
  function FillRow(nx: nat, ny: nat, b: int, s: seq<real>, x: nat): (r: seq<real>)
    requires ValidSize(nx, ny) && IsField(nx, ny, s) && 0 < x < nx - 1
    ensures IsField(nx, ny, r)
  {
    var s1 := s[Idx(nx, ny, x, 0) := Reflected(b == 2, s[Idx(nx, ny, x, 1)])];
    s1[Idx(nx, ny, x, ny - 1) := Reflected(b == 2, s1[Idx(nx, ny, x, ny - 2)])]
  }

  /** One pass of the second loop: the left cell, then the right cell, of
      row y. */
  function FillColumn(nx: nat, ny: nat, b: int, s: seq<real>, y: nat): (r: seq<real>)
    requires ValidSize(nx, ny) && IsField(nx, ny, s) && 0 < y < ny - 1
    ensures IsField(nx, ny, r)
  {
    var s1 := s[Idx(nx, ny, 0, y) := Reflected(b == 1, s[Idx(nx, ny, 1, y)])];
    s1[Idx(nx, ny, nx - 1, y) := Reflected(b == 1, s1[Idx(nx, ny, nx - 2, y)])]
  }

  /** The four corner assignments, in source order. */
  function FillCorners(nx: nat, ny: nat, s: seq<real>): (r: seq<real>)
    requires ValidSize(nx, ny) && IsField(nx, ny, s)
    ensures IsField(nx, ny, r)
  {
    var s1 := s[Idx(nx, ny, 0, 0) := 0.5 * (s[Idx(nx, ny, 1, 0)] + s[Idx(nx, ny, 0, 1)])];
    var s2 := s1[Idx(nx, ny, 0, ny - 1) := 0.5 * (s1[Idx(nx, ny, 1, ny - 1)] + s1[Idx(nx, ny, 0, ny - 2)])];
    var s3 := s2[Idx(nx, ny, nx - 1, 0) := 0.5 * (s2[Idx(nx, ny, nx - 2, 0)] + s2[Idx(nx, ny, nx - 1, 1)])];
    s3[Idx(nx, ny, nx - 1, ny - 1) := 0.5 * (s3[Idx(nx, ny, nx - 2, ny - 1)] + s3[Idx(nx, ny, nx - 1, ny - 2)])]
  }

  /** A pass of the first loop keeps the interior and extends the filled
      columns by one. */
  lemma FillRowStep(nx: nat, ny: nat, b: int, s: seq<real>, s0: seq<real>, x: nat)
    requires ValidSize(nx, ny) && IsField(nx, ny, s) && IsField(nx, ny, s0) && 0 < x < nx - 1
    requires SameInterior(nx, ny, s, s0) && RowsFilled(nx, ny, b, s, x)
    ensures SameInterior(nx, ny, FillRow(nx, ny, b, s, x), s0)
    ensures RowsFilled(nx, ny, b, FillRow(nx, ny, b, s, x), x + 1)
  {
    IdxCoordsAll(nx, ny);
  }

  /** A pass of the second loop touches only the two end cells of row y. */
  lemma FillColumnKeeps(nx: nat, ny: nat, b: int, s: seq<real>, y: nat, xp: nat, yp: nat)
    requires ValidSize(nx, ny) && IsField(nx, ny, s) && 0 < y < ny - 1
    requires xp < nx && yp < ny && (0 < xp < nx - 1 || yp != y)
    ensures FillColumn(nx, ny, b, s, y)[Idx(nx, ny, xp, yp)] == s[Idx(nx, ny, xp, yp)]
  {
    IdxInjective(nx, ny, xp, yp, 0, y);
    IdxInjective(nx, ny, xp, yp, nx - 1, y);
  }

  /** A pass of the second loop leaves the end cells of every other row
      as they were. */
  lemma FillColumnKeepsEnds(nx: nat, ny: nat, b: int, s: seq<real>, y: nat, yp: nat)
    requires ValidSize(nx, ny) && IsField(nx, ny, s) && 0 < y < ny - 1 && 0 < yp < ny - 1 && yp != y
    requires s[Idx(nx, ny, 0, yp)] == Reflected(b == 1, s[Idx(nx, ny, 1, yp)])
    requires s[Idx(nx, ny, nx - 1, yp)] == Reflected(b == 1, s[Idx(nx, ny, nx - 2, yp)])
    ensures var r := FillColumn(nx, ny, b, s, y);
      && r[Idx(nx, ny, 0, yp)] == Reflected(b == 1, r[Idx(nx, ny, 1, yp)])
      && r[Idx(nx, ny, nx - 1, yp)] == Reflected(b == 1, r[Idx(nx, ny, nx - 2, yp)])
  {
    FillColumnKeeps(nx, ny, b, s, y, 0, yp);
    FillColumnKeeps(nx, ny, b, s, y, 1, yp);
    FillColumnKeeps(nx, ny, b, s, y, nx - 1, yp);
    FillColumnKeeps(nx, ny, b, s, y, nx - 2, yp);
  }

  /** A pass of the second loop fills the two end cells of row y from
      their inner neighbours. */
  lemma FillColumnFills(nx: nat, ny: nat, b: int, s: seq<real>, y: nat)
    requires ValidSize(nx, ny) && IsField(nx, ny, s) && 0 < y < ny - 1
    ensures var r := FillColumn(nx, ny, b, s, y);
      && r[Idx(nx, ny, 0, y)] == Reflected(b == 1, r[Idx(nx, ny, 1, y)])
      && r[Idx(nx, ny, nx - 1, y)] == Reflected(b == 1, r[Idx(nx, ny, nx - 2, y)])
  {
    FillColumnKeeps(nx, ny, b, s, y, 1, y);
    FillColumnKeeps(nx, ny, b, s, y, nx - 2, y);
    IdxInjective(nx, ny, 0, y, nx - 1, y);
    IdxInjective(nx, ny, nx - 2, y, nx - 1, y);
  }

  /** A corner of the grid. */
  predicate Corner(nx: nat, ny: nat, x: nat, y: nat) {
    (x == 0 || x == nx - 1) && (y == 0 || y == ny - 1)
  }

  /** The corner assignments touch only the corners. */
  lemma FillCornersKeeps(nx: nat, ny: nat, s: seq<real>, x: nat, y: nat)
    requires ValidSize(nx, ny) && IsField(nx, ny, s) && x < nx && y < ny && !Corner(nx, ny, x, y)
    ensures FillCorners(nx, ny, s)[Idx(nx, ny, x, y)] == s[Idx(nx, ny, x, y)]
  {
    IdxInjective(nx, ny, x, y, 0, 0);
    IdxInjective(nx, ny, x, y, 0, ny - 1);
    IdxInjective(nx, ny, x, y, nx - 1, 0);
    IdxInjective(nx, ny, x, y, nx - 1, ny - 1);
  }

  /** Each corner ends as the mean of its two edge neighbours. */
  lemma FillCornersMeans(nx: nat, ny: nat, s: seq<real>)
    requires ValidSize(nx, ny) && IsField(nx, ny, s)
    ensures var r := FillCorners(nx, ny, s);
      && r[Idx(nx, ny, 0, 0)] == 0.5 * (r[Idx(nx, ny, 1, 0)] + r[Idx(nx, ny, 0, 1)])
      && r[Idx(nx, ny, 0, ny - 1)] == 0.5 * (r[Idx(nx, ny, 1, ny - 1)] + r[Idx(nx, ny, 0, ny - 2)])
      && r[Idx(nx, ny, nx - 1, 0)] == 0.5 * (r[Idx(nx, ny, nx - 2, 0)] + r[Idx(nx, ny, nx - 1, 1)])
      && r[Idx(nx, ny, nx - 1, ny - 1)] == 0.5 * (r[Idx(nx, ny, nx - 2, ny - 1)] + r[Idx(nx, ny, nx - 1, ny - 2)])
  {
    RowStartMonotone(nx, 2, ny - 1);
    assert RowStart(nx, 2) == RowStart(nx, 1) + nx && RowStart(nx, 1) == RowStart(nx, 0) + nx;
    assert RowStart(nx, ny - 1) == RowStart(nx, ny - 2) + nx;
  }

  /** The corners complete the fill: the three steps in order compute
      `Bnd` of the field they started from. */
  lemma FillCornersDone(nx: nat, ny: nat, b: int, s: seq<real>, s0: seq<real>)
    requires ValidSize(nx, ny) && IsField(nx, ny, s) && IsField(nx, ny, s0)
    requires SameInterior(nx, ny, s, s0) && RowsFilled(nx, ny, b, s, nx - 1) && ColumnsFilled(nx, ny, b, s, ny - 1)
    ensures FillCorners(nx, ny, s) == Bnd(nx, ny, b, s0)
  {
    var r := FillCorners(nx, ny, s);
    forall xp: nat, yp: nat | Interior(nx, ny, xp, yp)
      ensures r[Idx(nx, ny, xp, yp)] == s0[Idx(nx, ny, xp, yp)]
    {
      FillCornersKeeps(nx, ny, s, xp, yp);
    }
    forall xp: nat | 0 < xp < nx - 1
      ensures r[Idx(nx, ny, xp, 0)] == Reflected(b == 2, r[Idx(nx, ny, xp, 1)])
      ensures r[Idx(nx, ny, xp, ny - 1)] == Reflected(b == 2, r[Idx(nx, ny, xp, ny - 2)])
    {
      FillCornersKeeps(nx, ny, s, xp, 0);
      FillCornersKeeps(nx, ny, s, xp, 1);
      FillCornersKeeps(nx, ny, s, xp, ny - 1);
      FillCornersKeeps(nx, ny, s, xp, ny - 2);
    }
    forall yp: nat | 0 < yp < ny - 1
      ensures r[Idx(nx, ny, 0, yp)] == Reflected(b == 1, r[Idx(nx, ny, 1, yp)])
      ensures r[Idx(nx, ny, nx - 1, yp)] == Reflected(b == 1, r[Idx(nx, ny, nx - 2, yp)])
    {
      FillCornersKeeps(nx, ny, s, 0, yp);
      FillCornersKeeps(nx, ny, s, 1, yp);
      FillCornersKeeps(nx, ny, s, nx - 1, yp);
      FillCornersKeeps(nx, ny, s, nx - 2, yp);
    }
    FillCornersMeans(nx, ny, s);
    BndUnique(nx, ny, b, s0, r);
  }
  /** The field after the first loop of `SetBnd` has handled columns
      1 .. x-1, one `FillRow` per column. */
  function FillRows(nx: nat, ny: nat, b: int, s: seq<real>, x: nat): (r: seq<real>)
    requires ValidSize(nx, ny) && IsField(nx, ny, s) && 1 <= x <= nx - 1
    ensures IsField(nx, ny, r)
    decreases x
  {
    if x == 1 then s else FillRow(nx, ny, b, FillRows(nx, ny, b, s, x - 1), x - 1)
  }

  /** The field after the second loop of `SetBnd` has handled rows
      1 .. y-1, starting from `s`. */
  function FillColumns(nx: nat, ny: nat, b: int, s: seq<real>, y: nat): (r: seq<real>)
    requires ValidSize(nx, ny) && IsField(nx, ny, s) && 1 <= y <= ny - 1
    ensures IsField(nx, ny, r)
    decreases y
  {
    if y == 1 then s else FillColumn(nx, ny, b, FillColumns(nx, ny, b, s, y - 1), y - 1)
  }

  /** The first loop keeps the interior and fills the columns it has passed. */
  lemma {:induction false} FillRowsFill(nx: nat, ny: nat, b: int, s: seq<real>, x: nat)
    requires ValidSize(nx, ny) && IsField(nx, ny, s) && 1 <= x <= nx - 1
    ensures SameInterior(nx, ny, FillRows(nx, ny, b, s, x), s)
    ensures RowsFilled(nx, ny, b, FillRows(nx, ny, b, s, x), x)
  {
    if x > 1 {
      FillRowsFill(nx, ny, b, s, x - 1);
      FillRowStep(nx, ny, b, FillRows(nx, ny, b, s, x - 1), s, x - 1);
    }
  }

  /** The second loop never touches a cell off the left and right
      edges. */
  lemma {:induction false} FillColumnsKeepsCell(nx: nat, ny: nat, b: int, s: seq<real>, y: nat, xp: nat, yp: nat)
    requires ValidSize(nx, ny) && IsField(nx, ny, s) && 1 <= y <= ny - 1 && 0 < xp < nx - 1 && yp < ny
    ensures FillColumns(nx, ny, b, s, y)[Idx(nx, ny, xp, yp)] == s[Idx(nx, ny, xp, yp)]
  {
    if y > 1 {
      FillColumnsKeepsCell(nx, ny, b, s, y - 1, xp, yp);
      FillColumnKeeps(nx, ny, b, FillColumns(nx, ny, b, s, y - 1), y - 1, xp, yp);
    }
  }

  /** Once the second loop has passed row yp, that row's end cells hold
      their reflected inner neighbours for good. */
  lemma {:induction false} FillColumnsFillCell(nx: nat, ny: nat, b: int, s: seq<real>, y: nat, yp: nat)
    requires ValidSize(nx, ny) && IsField(nx, ny, s) && 1 <= y <= ny - 1 && 0 < yp < y
    ensures var r := FillColumns(nx, ny, b, s, y);
      && r[Idx(nx, ny, 0, yp)] == Reflected(b == 1, r[Idx(nx, ny, 1, yp)])
      && r[Idx(nx, ny, nx - 1, yp)] == Reflected(b == 1, r[Idx(nx, ny, nx - 2, yp)])
  {
    var prev := FillColumns(nx, ny, b, s, y - 1);
    if yp < y - 1 {
      FillColumnsFillCell(nx, ny, b, s, y - 1, yp);
      FillColumnKeepsEnds(nx, ny, b, prev, y - 1, yp);
    } else {
      FillColumnFills(nx, ny, b, prev, yp);
    }
  }

  /** The second loop keeps the interior, ... */
  lemma FillColumnsKeepInterior(nx: nat, ny: nat, b: int, s: seq<real>, s0: seq<real>, y: nat)
    requires ValidSize(nx, ny) && IsField(nx, ny, s) && IsField(nx, ny, s0) && 1 <= y <= ny - 1
    requires SameInterior(nx, ny, s, s0)
    ensures SameInterior(nx, ny, FillColumns(nx, ny, b, s, y), s0)
  {
    forall xp: nat, yp: nat | Interior(nx, ny, xp, yp)
      ensures FillColumns(nx, ny, b, s, y)[Idx(nx, ny, xp, yp)] == s0[Idx(nx, ny, xp, yp)]
    {
      FillColumnsKeepsCell(nx, ny, b, s, y, xp, yp);
    }
  }

  /** ... keeps the filled top and bottom edges, ... */
  lemma FillColumnsKeepRows(nx: nat, ny: nat, b: int, s: seq<real>, y: nat)
    requires ValidSize(nx, ny) && IsField(nx, ny, s) && 1 <= y <= ny - 1
    requires RowsFilled(nx, ny, b, s, nx - 1)
    ensures RowsFilled(nx, ny, b, FillColumns(nx, ny, b, s, y), nx - 1)
  {
    var r := FillColumns(nx, ny, b, s, y);
    forall xp: nat | 0 < xp < nx - 1
      ensures r[Idx(nx, ny, xp, 0)] == Reflected(b == 2, r[Idx(nx, ny, xp, 1)])
      ensures r[Idx(nx, ny, xp, ny - 1)] == Reflected(b == 2, r[Idx(nx, ny, xp, ny - 2)])
    {
      FillColumnsKeepsCell(nx, ny, b, s, y, xp, 0);
      FillColumnsKeepsCell(nx, ny, b, s, y, xp, 1);
      FillColumnsKeepsCell(nx, ny, b, s, y, xp, ny - 1);
      FillColumnsKeepsCell(nx, ny, b, s, y, xp, ny - 2);
    }
  }

  /** ... and fills the rows it has passed. */
  lemma FillColumnsFill(nx: nat, ny: nat, b: int, s: seq<real>, y: nat)
    requires ValidSize(nx, ny) && IsField(nx, ny, s) && 1 <= y <= ny - 1
    ensures ColumnsFilled(nx, ny, b, FillColumns(nx, ny, b, s, y), y)
  {
    forall yp: nat | 0 < yp < y
      ensures var r := FillColumns(nx, ny, b, s, y);
        && r[Idx(nx, ny, 0, yp)] == Reflected(b == 1, r[Idx(nx, ny, 1, yp)])
        && r[Idx(nx, ny, nx - 1, yp)] == Reflected(b == 1, r[Idx(nx, ny, nx - 2, yp)])
    {
      FillColumnsFillCell(nx, ny, b, s, y, yp);
    }
  }

  /** After both edge loops the interior is untouched and the four edges,
      corners aside, hold their reflected neighbours. */
  lemma EdgeLoopsDone(nx: nat, ny: nat, b: int, s: seq<real>)
    requires ValidSize(nx, ny) && IsField(nx, ny, s)
    ensures var cols := FillColumns(nx, ny, b, FillRows(nx, ny, b, s, nx - 1), ny - 1);
      SameInterior(nx, ny, cols, s) && RowsFilled(nx, ny, b, cols, nx - 1) && ColumnsFilled(nx, ny, b, cols, ny - 1)
  {
    var rows := FillRows(nx, ny, b, s, nx - 1);
    FillRowsFill(nx, ny, b, s, nx - 1);
    FillColumnsKeepInterior(nx, ny, b, rows, s, ny - 1);
    FillColumnsKeepRows(nx, ny, b, rows, ny - 1);
    FillColumnsFill(nx, ny, b, rows, ny - 1);
  }

  /** The assignments of `SetBnd`, in the source's order, compute `Bnd`. */
  lemma SetBndOrder(nx: nat, ny: nat, b: int, s: seq<real>)
    requires ValidSize(nx, ny) && IsField(nx, ny, s)
    ensures FillCorners(nx, ny, FillColumns(nx, ny, b, FillRows(nx, ny, b, s, nx - 1), ny - 1)) == Bnd(nx, ny, b, s)
  {
    EdgeLoopsDone(nx, ny, b, s);
    FillCornersDone(nx, ny, b, FillColumns(nx, ny, b, FillRows(nx, ny, b, s, nx - 1), ny - 1), s);
  }
}
