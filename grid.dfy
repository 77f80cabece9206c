/** Cell addressing of the solver's grid (FluidSim.h, `IDX`).

    A field is a row-major array of `nx * ny` cells: cell `(x, y)` lives at
    index `y * nx + x`.  The outermost rows and columns form the border,
    which only the boundary fill writes; every other cell is interior. */
module Grid {

  /** A grid the solver accepts: at least one interior cell in each direction. */
  predicate ValidSize(nx: nat, ny: nat) {
    nx >= 3 && ny >= 3
  }

  /** A field of the grid: one value per cell. */
  predicate IsField(nx: nat, ny: nat, s: seq<real>) {
    |s| == nx * ny
  }

  lemma {:induction false} MulMonotone(a: nat, b: nat, n: nat)
    requires a <= b
    ensures a * n <= b * n
  {
    if a < b {
      MulMonotone(a, b - 1, n);
      assert (b - 1) * n + n == b * n;
    }
  }

  /** Index of the first cell of row y, `y * nx`, one row at a time. */
  function RowStart(nx: nat, y: nat): nat {
    if y == 0 then 0 else RowStart(nx, y - 1) + nx
  }

  lemma {:induction false} RowStartIsProduct(nx: nat, y: nat)
    ensures RowStart(nx, y) == y * nx
  {
    if y > 0 {
      RowStartIsProduct(nx, y - 1);
      assert (y - 1) * nx + nx == y * nx;
    }
  }

  /** `IDX(x, y)`: the linear index of cell (x, y).  Its bounds assertion
      becomes the precondition, and the index lands inside the field. */
  function Idx(nx: nat, ny: nat, x: nat, y: nat): (i: nat)
    requires x < nx && y < ny
    ensures i < nx * ny
  {
    RowStartIsProduct(nx, y);
    MulMonotone(y, ny - 1, nx);
    assert (ny - 1) * nx + nx == nx * ny;
    RowStart(nx, y) + x
  }

  /** The index is the source's `y * sizeX + x`. */
  lemma IdxIsRowMajor(nx: nat, ny: nat, x: nat, y: nat)
    requires x < nx && y < ny
    ensures Idx(nx, ny, x, y) == y * nx + x
  {
    RowStartIsProduct(nx, y);
  }

  lemma {:induction false} RowStartMonotone(nx: nat, y1: nat, y2: nat)
    requires y1 <= y2
    ensures RowStart(nx, y1) <= RowStart(nx, y2)
  {
    if y1 < y2 {
      RowStartMonotone(nx, y1, y2 - 1);
    }
  }

  /** Column of the cell stored at index i (the source's `i % sizeX`). */
  function ColumnOf(nx: nat, i: nat): (x: nat)
    requires nx > 0
    ensures x < nx
  {
    if i < nx then i else ColumnOf(nx, i - nx)
  }

  /** Row of the cell stored at index i (the source's `i / sizeX`). */
  function RowOf(nx: nat, i: nat): nat
    requires nx > 0
  {
    if i < nx then 0 else RowOf(nx, i - nx) + 1
  }

  lemma {:induction false} DecodeRowStart(nx: nat, x: nat, y: nat)
    requires x < nx
    ensures ColumnOf(nx, RowStart(nx, y) + x) == x
    ensures RowOf(nx, RowStart(nx, y) + x) == y
  {
    if y > 0 {
      DecodeRowStart(nx, x, y - 1);
    }
  }

  lemma {:induction false} EncodeDecoded(nx: nat, i: nat)
    requires nx > 0
    ensures RowStart(nx, RowOf(nx, i)) + ColumnOf(nx, i) == i
  {
    if i >= nx {
      EncodeDecoded(nx, i - nx);
    }
  }

  /** The column and the row can be read back from the index. */
  lemma IdxCoords(nx: nat, ny: nat, x: nat, y: nat)
    requires x < nx && y < ny
    ensures ColumnOf(nx, Idx(nx, ny, x, y)) == x && RowOf(nx, Idx(nx, ny, x, y)) == y
  {
    DecodeRowStart(nx, x, y);
  }

  lemma IdxCoordsAll(nx: nat, ny: nat)
    ensures forall x: nat, y: nat | x < nx && y < ny ::
      ColumnOf(nx, Idx(nx, ny, x, y)) == x && RowOf(nx, Idx(nx, ny, x, y)) == y
  {
    forall x: nat, y: nat | x < nx && y < ny
      ensures ColumnOf(nx, Idx(nx, ny, x, y)) == x && RowOf(nx, Idx(nx, ny, x, y)) == y
    {
      IdxCoords(nx, ny, x, y);
    }
  }

  /** Every index of a field is the index of some cell: `Idx` is onto. */
  lemma IdxOnto(nx: nat, ny: nat, i: nat)
    requires i < nx * ny
    ensures nx > 0 && RowOf(nx, i) < ny
    ensures Idx(nx, ny, ColumnOf(nx, i), RowOf(nx, i)) == i
  {
    if nx == 0 {
      assert false;
    }
    EncodeDecoded(nx, i);
    if RowOf(nx, i) >= ny {
      RowStartIsProduct(nx, ny);
      RowStartMonotone(nx, ny, RowOf(nx, i));
      assert false;
    }
  }

  /** `IDX` is injective on in-range cells. */
  lemma IdxInjective(nx: nat, ny: nat, x1: nat, y1: nat, x2: nat, y2: nat)
    requires x1 < nx && y1 < ny && x2 < nx && y2 < ny
    ensures Idx(nx, ny, x1, y1) == Idx(nx, ny, x2, y2) <==> x1 == x2 && y1 == y2
  {
    IdxCoords(nx, ny, x1, y1);
    IdxCoords(nx, ny, x2, y2);
  }

  lemma IdxInjectiveAll(nx: nat, ny: nat)
    ensures forall x1: nat, y1: nat, x2: nat, y2: nat
      | x1 < nx && y1 < ny && x2 < nx && y2 < ny && Idx(nx, ny, x1, y1) == Idx(nx, ny, x2, y2) ::
      x1 == x2 && y1 == y2
  {
    forall x1: nat, y1: nat, x2: nat, y2: nat
      | x1 < nx && y1 < ny && x2 < nx && y2 < ny && Idx(nx, ny, x1, y1) == Idx(nx, ny, x2, y2)
      ensures x1 == x2 && y1 == y2
    {
      IdxInjective(nx, ny, x1, y1, x2, y2);
    }
  }

  /** Neighbour arithmetic the stencils rely on: one column is one index,
      one row is `nx` indices. */
  lemma IdxNeighbours(nx: nat, ny: nat, x: nat, y: nat)
    requires 0 < x < nx - 1 && 0 < y < ny - 1
    ensures Idx(nx, ny, x - 1, y) == Idx(nx, ny, x, y) - 1
    ensures Idx(nx, ny, x + 1, y) == Idx(nx, ny, x, y) + 1
    ensures Idx(nx, ny, x, y - 1) == Idx(nx, ny, x, y) - nx
    ensures Idx(nx, ny, x, y + 1) == Idx(nx, ny, x, y) + nx
  {
  }

  /** The cells of column x on the first two and the last two rows, as
      offsets of the start of the last row (which lies two rows or more
      past the start of the grid). */
  lemma EdgeRowsIdx(nx: nat, ny: nat, x: nat)
    requires ValidSize(nx, ny) && x < nx
    ensures Idx(nx, ny, 0, ny - 1) >= nx + nx
    ensures Idx(nx, ny, x, 0) == x && Idx(nx, ny, x, 1) == nx + x
    ensures Idx(nx, ny, x, ny - 1) == Idx(nx, ny, 0, ny - 1) + x
    ensures Idx(nx, ny, x, ny - 2) == Idx(nx, ny, 0, ny - 1) - nx + x
  {
    RowStartMonotone(nx, 2, ny - 1);
    assert RowStart(nx, 1) == nx;
    assert RowStart(nx, 2) == nx + nx;
    assert RowStart(nx, ny - 1) == RowStart(nx, ny - 2) + nx;
  }

  /** A cell that is neither on the outermost rows nor the outermost columns. */
  predicate Interior(nx: nat, ny: nat, x: nat, y: nat) {
    0 < x < nx - 1 && 0 < y < ny - 1
  }

  /** The guard of `PlaceSource`, `EraseSource` and `ApplyForce`: a request
      whose cell is on the edge (or past it) is ignored.  The comparisons are
      the source's unsigned ones; they cannot wrap once `nx, ny >= 1`. */
  predicate OnEdge(nx: nat, ny: nat, x: nat, y: nat) {
    x == 0 || x >= nx - 1 || y == 0 || y >= ny - 1
  }

  lemma OnEdgeIsNotInterior(nx: nat, ny: nat, x: nat, y: nat)
    ensures OnEdge(nx, ny, x, y) <==> !Interior(nx, ny, x, y)
  {
  }

  /** Two fields are equal when they agree cell by cell. */
  lemma {:induction false} EqualByCells(nx: nat, ny: nat, s: seq<real>, t: seq<real>)
    requires IsField(nx, ny, s) && IsField(nx, ny, t)
    requires forall x: nat, y: nat | x < nx && y < ny :: s[Idx(nx, ny, x, y)] == t[Idx(nx, ny, x, y)]
    ensures s == t
  {
    forall i | 0 <= i < |s|
      ensures s[i] == t[i]
    {
      IdxOnto(nx, ny, i);
      var x, y := ColumnOf(nx, i), RowOf(nx, i);
      assert s[Idx(nx, ny, x, y)] == t[Idx(nx, ny, x, y)];
    }
  }

  /** Every cell of `s` is zero. */
  predicate AllZero(s: seq<real>) {
    forall i | 0 <= i < |s| :: s[i] == 0.0
  }

  /** Every cell of `s` is at least zero. */
  predicate NonNegative(s: seq<real>) {
    forall i | 0 <= i < |s| :: s[i] >= 0.0
  }

  /** `s` and `t` agree on every interior cell. */
  ghost predicate SameInterior(nx: nat, ny: nat, s: seq<real>, t: seq<real>)
    requires IsField(nx, ny, s) && IsField(nx, ny, t)
  {
    forall x: nat, y: nat | Interior(nx, ny, x, y) :: s[Idx(nx, ny, x, y)] == t[Idx(nx, ny, x, y)]
  }

  /** `s` and `t` agree on every border cell. */
  ghost predicate SameBorder(nx: nat, ny: nat, s: seq<real>, t: seq<real>)
    requires IsField(nx, ny, s) && IsField(nx, ny, t)
  {
    forall x: nat, y: nat | x < nx && y < ny && !Interior(nx, ny, x, y) ::
      s[Idx(nx, ny, x, y)] == t[Idx(nx, ny, x, y)]
  }

  /** Two fields that agree on the interior and on the border are equal. */
  lemma InteriorAndBorderDetermine(nx: nat, ny: nat, s: seq<real>, t: seq<real>)
    requires IsField(nx, ny, s) && IsField(nx, ny, t)
    requires SameInterior(nx, ny, s, t) && SameBorder(nx, ny, s, t)
    ensures s == t
  {
    forall x: nat, y: nat | x < nx && y < ny
      ensures s[Idx(nx, ny, x, y)] == t[Idx(nx, ny, x, y)]
    {
      if Interior(nx, ny, x, y) {
        assert s[Idx(nx, ny, x, y)] == t[Idx(nx, ny, x, y)];
      }
    }
    EqualByCells(nx, ny, s, t);
  }

  /** Index i holds an interior cell. */
  predicate InteriorIndex(nx: nat, ny: nat, i: nat)
    requires nx > 0
  {
    Interior(nx, ny, ColumnOf(nx, i), RowOf(nx, i))
  }

  lemma InteriorIndexAt(nx: nat, ny: nat, x: nat, y: nat)
    requires x < nx && y < ny
    ensures InteriorIndex(nx, ny, Idx(nx, ny, x, y)) <==> Interior(nx, ny, x, y)
  {
    IdxCoords(nx, ny, x, y);
  }

  /* The source's interior loops run `for y in 1..ny-2 { for x in 1..nx-2 }`,
     which visits the interior cells in increasing index order.  The next
     three lemmas let a loop invariant say "every interior index below
     Idx(x, y) is done". */

  /** No interior index lies before the first interior cell. */
  lemma ScanStart(nx: nat, ny: nat)
    requires ValidSize(nx, ny)
    ensures forall i: nat | i < Idx(nx, ny, 1, 1) :: !InteriorIndex(nx, ny, i)
  {
    forall i: nat | i < Idx(nx, ny, 1, 1)
      ensures !InteriorIndex(nx, ny, i)
    {
      assert RowStart(nx, 1) == RowStart(nx, 0) + nx;
      if i == nx {
        assert ColumnOf(nx, i) == ColumnOf(nx, 0);
      }
    }
  }

  /** The last cell of row y and the first of row y + 1 are on the border,
      so moving from one row to the next skips no interior index. */
  lemma ScanNextRow(nx: nat, ny: nat, y: nat)
    requires ValidSize(nx, ny) && 0 < y < ny - 1
    ensures Idx(nx, ny, 1, y + 1) == Idx(nx, ny, nx - 1, y) + 2
    ensures !InteriorIndex(nx, ny, Idx(nx, ny, nx - 1, y)) && !InteriorIndex(nx, ny, Idx(nx, ny, nx - 1, y) + 1)
    ensures forall i: nat ::
      (i < Idx(nx, ny, nx - 1, y) && InteriorIndex(nx, ny, i)) <==>
      (i < Idx(nx, ny, 1, y + 1) && InteriorIndex(nx, ny, i))
  {
    InteriorIndexAt(nx, ny, nx - 1, y);
    InteriorIndexAt(nx, ny, 0, y + 1);
    assert Idx(nx, ny, 0, y + 1) == Idx(nx, ny, nx - 1, y) + 1;
  }

  /** Every interior index lies before the first cell of the last row. */
  lemma ScanEnd(nx: nat, ny: nat)
    requires ValidSize(nx, ny)
    ensures forall i: nat | InteriorIndex(nx, ny, i) :: i < Idx(nx, ny, 1, ny - 1)
  {
    forall i: nat | InteriorIndex(nx, ny, i)
      ensures i < Idx(nx, ny, 1, ny - 1)
    {
      EncodeDecoded(nx, i);
      RowStartMonotone(nx, RowOf(nx, i) + 1, ny - 1);
    }
  }

  /** Row-major order: cell (x', y') is visited before cell (x, y) by the
      source's `for y { for x { … } }` loops. */
  predicate Before(xp: nat, yp: nat, x: nat, y: nat) {
    yp < y || (yp == y && xp < x)
  }
  /** `t` differs from `s` at most on interior cells: the result of a pass
      that writes only inside the border. */
  ghost predicate OffInteriorSame(nx: nat, ny: nat, t: seq<real>, s: seq<real>)
    requires ValidSize(nx, ny) && IsField(nx, ny, t) && IsField(nx, ny, s)
  {
    forall i | 0 <= i < |s| && !InteriorIndex(nx, ny, i) :: t[i] == s[i]
  }

  /** A field part-way through a row-major pass from `s` to `t`: the
      indices below `k` already hold `t`, the others still hold `s`. */
  function Scanned(t: seq<real>, s: seq<real>, k: nat): (r: seq<real>)
    requires |t| == |s|
    ensures |r| == |s|
  {
    seq(|s|, i requires 0 <= i < |s| => if i < k then t[i] else s[i])
  }

  /** Writing the pass's value at index k advances the pass by one. */
  lemma ScannedWrite(t: seq<real>, s: seq<real>, k: nat)
    requires |t| == |s| && k < |s|
    ensures Scanned(t, s, k)[k := t[k]] == Scanned(t, s, k + 1)
  {
  }

  /** A pass over every index is complete. */
  lemma ScannedAll(t: seq<real>, s: seq<real>)
    requires |t| == |s|
    ensures Scanned(t, s, |s|) == t
  {
  }

  /** Before the first interior cell nothing has changed. */
  lemma ScannedFirst(nx: nat, ny: nat, t: seq<real>, s: seq<real>)
    requires ValidSize(nx, ny) && IsField(nx, ny, t) && IsField(nx, ny, s)
    requires OffInteriorSame(nx, ny, t, s)
    ensures Scanned(t, s, Idx(nx, ny, 1, 1)) == s
  {
    ScanStart(nx, ny);
    assert forall i | 0 <= i < |s| :: Scanned(t, s, Idx(nx, ny, 1, 1))[i] == s[i];
  }

  /** Finishing row y and starting row y + 1 skips two border cells. */
  lemma ScannedNextRow(nx: nat, ny: nat, t: seq<real>, s: seq<real>, y: nat)
    requires ValidSize(nx, ny) && IsField(nx, ny, t) && IsField(nx, ny, s) && 0 < y < ny - 1
    requires OffInteriorSame(nx, ny, t, s)
    ensures Scanned(t, s, Idx(nx, ny, nx - 1, y)) == Scanned(t, s, Idx(nx, ny, 1, y + 1))
  {
    ScanNextRow(nx, ny, y);
    var k := Idx(nx, ny, nx - 1, y);
    assert t[k] == s[k] && t[k + 1] == s[k + 1];
    assert forall i | 0 <= i < |s| :: Scanned(t, s, k)[i] == Scanned(t, s, k + 2)[i];
  }

  /** After the last interior row the pass is complete. */
  lemma ScannedLast(nx: nat, ny: nat, t: seq<real>, s: seq<real>)
    requires ValidSize(nx, ny) && IsField(nx, ny, t) && IsField(nx, ny, s)
    requires OffInteriorSame(nx, ny, t, s)
    ensures Scanned(t, s, Idx(nx, ny, 1, ny - 1)) == t
  {
    ScanEnd(nx, ny);
    assert forall i | 0 <= i < |s| :: Scanned(t, s, Idx(nx, ny, 1, ny - 1))[i] == t[i];
  }
}
