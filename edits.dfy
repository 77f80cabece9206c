/** The editing API's effect on fields (FluidSim.cpp:82-196): the
    plus-shaped source stamp written by `PlaceSource` and `EraseSource`, and
    the swirl `ApplyForce` adds to the velocity fields.  All three ignore a
    request whose cell lies on the edge of the grid. */
module Edits {
  import opened Grid

  /** Cell (xp, yp) is one of the five cells of the stamp centred on (x, y). */
  predicate InStamp(x: nat, y: nat, xp: nat, yp: nat) {
    || (xp == x && yp == y)
    || (xp + 1 == x && yp == y)
    || (xp == x + 1 && yp == y)
    || (xp == x && yp + 1 == y)
    || (xp == x && yp == y + 1)
  }

  /** One source field after writing `v` into the stamp at (x, y): the
      centre index, the indices one to either side and the indices one row
      above and below.  The ensures clauses say which cells these are. */
  function Stamp(nx: nat, ny: nat, s: seq<real>, x: nat, y: nat, v: real): (r: seq<real>)
    requires ValidSize(nx, ny) && IsField(nx, ny, s)
    ensures IsField(nx, ny, r)
    ensures OnEdge(nx, ny, x, y) ==> r == s
    ensures !OnEdge(nx, ny, x, y) ==>
      forall xp: nat, yp: nat | xp < nx && yp < ny ::
        r[Idx(nx, ny, xp, yp)] == if InStamp(x, y, xp, yp) then v else s[Idx(nx, ny, xp, yp)]
  {
    if OnEdge(nx, ny, x, y) then s
    else
      var index := Idx(nx, ny, x, y);
      IdxNeighbours(nx, ny, x, y);
      IdxInjectiveAll(nx, ny);
      s[index := v][index - 1 := v][index + 1 := v][index - nx := v][index + nx := v]
  }

  /** Erasing after placing leaves the same field as erasing alone: the five
      cells are zero and every other cell is as before the placement. */
  lemma EraseAfterPlace(nx: nat, ny: nat, s: seq<real>, x: nat, y: nat, v: real)
    requires ValidSize(nx, ny) && IsField(nx, ny, s)
    ensures Stamp(nx, ny, Stamp(nx, ny, s, x, y, v), x, y, 0.0) == Stamp(nx, ny, s, x, y, 0.0)
    ensures !OnEdge(nx, ny, x, y) ==>
      forall xp: nat, yp: nat | xp < nx && yp < ny && InStamp(x, y, xp, yp) ::
        Stamp(nx, ny, Stamp(nx, ny, s, x, y, v), x, y, 0.0)[Idx(nx, ny, xp, yp)] == 0.0
  {
    var a := Stamp(nx, ny, Stamp(nx, ny, s, x, y, v), x, y, 0.0);
    var b := Stamp(nx, ny, s, x, y, 0.0);
    if !OnEdge(nx, ny, x, y) {
      forall xp: nat, yp: nat | xp < nx && yp < ny
        ensures a[Idx(nx, ny, xp, yp)] == b[Idx(nx, ny, xp, yp)]
      {
      }
      EqualByCells(nx, ny, a, b);
    }
  }

  /** The stamp of an interior cell lies inside the grid and its five cells
      are pairwise distinct. */
  lemma StampCellsDistinct(nx: nat, ny: nat, x: nat, y: nat)
    requires ValidSize(nx, ny) && Interior(nx, ny, x, y)
    ensures var c := Idx(nx, ny, x, y);
      && c - nx < c - 1 < c < c + 1 < c + nx
      && 0 <= c - nx && c + nx < nx * ny
  {
    IdxNeighbours(nx, ny, x, y);
  }

  /** `s[i] += delta`, the compound assignments of `ApplyForce`. */
  function Bump(s: seq<real>, i: nat, delta: real): seq<real>
    requires i < |s|
  {
    s[i := s[i] + delta]
  }

  lemma BumpAt(s: seq<real>, i: nat, delta: real, j: nat)
    requires i < |s| && j < |s|
    ensures |Bump(s, i, delta)| == |s|
    ensures Bump(s, i, delta)[j] == s[j] + if i == j then delta else 0.0
  {
  }

  /** `yp` is within one row (or column) of `y`. */
  predicate Near(y: nat, yp: nat) {
    yp + 1 >= y && yp <= y + 1
  }

  /** The six compound assignments of `ApplyForce` to u, in source order. */
  function PushU(nx: nat, ny: nat, u: seq<real>, x: nat, y: nat, amount: real): seq<real>
    requires ValidSize(nx, ny) && IsField(nx, ny, u) && Interior(nx, ny, x, y)
  {
    var u1 := Bump(u, Idx(nx, ny, x - 1, y - 1), -amount);
    var u2 := Bump(u1, Idx(nx, ny, x - 1, y), -amount);
    var u3 := Bump(u2, Idx(nx, ny, x - 1, y + 1), -amount);
    var u4 := Bump(u3, Idx(nx, ny, x + 1, y - 1), amount);
    var u5 := Bump(u4, Idx(nx, ny, x + 1, y), amount);
    Bump(u5, Idx(nx, ny, x + 1, y + 1), amount)
  }

  /** The six compound assignments of `ApplyForce` to v, in source order. */
  function PushV(nx: nat, ny: nat, v: seq<real>, x: nat, y: nat, amount: real): seq<real>
    requires ValidSize(nx, ny) && IsField(nx, ny, v) && Interior(nx, ny, x, y)
  {
    var v1 := Bump(v, Idx(nx, ny, x - 1, y - 1), -amount);
    var v2 := Bump(v1, Idx(nx, ny, x, y - 1), -amount);
    var v3 := Bump(v2, Idx(nx, ny, x + 1, y - 1), -amount);
    var v4 := Bump(v3, Idx(nx, ny, x - 1, y + 1), amount);
    var v5 := Bump(v4, Idx(nx, ny, x, y + 1), amount);
    Bump(v5, Idx(nx, ny, x + 1, y + 1), amount)
  }

  /** `ApplyForce` on u: the three cells of column x-1 lose `amount`, the
      three cells of column x+1 gain it; all other cells, including the
      centre column, keep their value. */
  function SwirlU(nx: nat, ny: nat, u: seq<real>, x: nat, y: nat, amount: real): (r: seq<real>)
    requires ValidSize(nx, ny) && IsField(nx, ny, u)
    ensures IsField(nx, ny, r)
    ensures OnEdge(nx, ny, x, y) ==> r == u
    ensures !OnEdge(nx, ny, x, y) ==>
      forall xp: nat, yp: nat | xp < nx && yp < ny ::
        r[Idx(nx, ny, xp, yp)] == u[Idx(nx, ny, xp, yp)]
          + (if xp + 1 == x && Near(y, yp) then -amount
             else if xp == x + 1 && Near(y, yp) then amount
             else 0.0)
  {
    if OnEdge(nx, ny, x, y) then u
    else
      PushUCells(nx, ny, u, x, y, amount);
      PushU(nx, ny, u, x, y, amount)
  }

  /** `ApplyForce` on v: the three cells of row y-1 lose `amount`, the three
      cells of row y+1 gain it; all other cells, including the centre row,
      keep their value. */
  function SwirlV(nx: nat, ny: nat, v: seq<real>, x: nat, y: nat, amount: real): (r: seq<real>)
    requires ValidSize(nx, ny) && IsField(nx, ny, v)
    ensures IsField(nx, ny, r)
    ensures OnEdge(nx, ny, x, y) ==> r == v
    ensures !OnEdge(nx, ny, x, y) ==>
      forall xp: nat, yp: nat | xp < nx && yp < ny ::
        r[Idx(nx, ny, xp, yp)] == v[Idx(nx, ny, xp, yp)]
          + (if yp + 1 == y && Near(x, xp) then -amount
             else if yp == y + 1 && Near(x, xp) then amount
             else 0.0)
  {
    if OnEdge(nx, ny, x, y) then v
    else
      PushVCells(nx, ny, v, x, y, amount);
      PushV(nx, ny, v, x, y, amount)
  }

  /** One cell of `PushU`: it moves by `amount` exactly when it lies in
      column x-1 or x+1 within one row of y. */
  lemma PushUAt(nx: nat, ny: nat, u: seq<real>, x: nat, y: nat, amount: real, xp: nat, yp: nat)
    requires ValidSize(nx, ny) && IsField(nx, ny, u) && Interior(nx, ny, x, y)
    requires xp < nx && yp < ny
    ensures |PushU(nx, ny, u, x, y, amount)| == |u|
    ensures PushU(nx, ny, u, x, y, amount)[Idx(nx, ny, xp, yp)] == u[Idx(nx, ny, xp, yp)]
      + (if xp + 1 == x && Near(y, yp) then -amount
         else if xp == x + 1 && Near(y, yp) then amount
         else 0.0)
  {
    var j := Idx(nx, ny, xp, yp);
    var k1, k2, k3 := Idx(nx, ny, x - 1, y - 1), Idx(nx, ny, x - 1, y), Idx(nx, ny, x - 1, y + 1);
    var k4, k5, k6 := Idx(nx, ny, x + 1, y - 1), Idx(nx, ny, x + 1, y), Idx(nx, ny, x + 1, y + 1);
    var u1 := Bump(u, k1, -amount);
    var u2 := Bump(u1, k2, -amount);
    var u3 := Bump(u2, k3, -amount);
    var u4 := Bump(u3, k4, amount);
    var u5 := Bump(u4, k5, amount);
    BumpAt(u, k1, -amount, j);
    BumpAt(u1, k2, -amount, j);
    BumpAt(u2, k3, -amount, j);
    BumpAt(u3, k4, amount, j);
    BumpAt(u4, k5, amount, j);
    BumpAt(u5, k6, amount, j);
    IdxInjective(nx, ny, xp, yp, x - 1, y - 1);
    IdxInjective(nx, ny, xp, yp, x - 1, y);
    IdxInjective(nx, ny, xp, yp, x - 1, y + 1);
    IdxInjective(nx, ny, xp, yp, x + 1, y - 1);
    IdxInjective(nx, ny, xp, yp, x + 1, y);
    IdxInjective(nx, ny, xp, yp, x + 1, y + 1);
  }

  lemma PushUCells(nx: nat, ny: nat, u: seq<real>, x: nat, y: nat, amount: real)
    requires ValidSize(nx, ny) && IsField(nx, ny, u) && Interior(nx, ny, x, y)
    ensures |PushU(nx, ny, u, x, y, amount)| == |u|
    ensures forall xp: nat, yp: nat | xp < nx && yp < ny ::
      PushU(nx, ny, u, x, y, amount)[Idx(nx, ny, xp, yp)] == u[Idx(nx, ny, xp, yp)]
        + (if xp + 1 == x && Near(y, yp) then -amount
           else if xp == x + 1 && Near(y, yp) then amount
           else 0.0)
  {
    PushUAt(nx, ny, u, x, y, amount, 0, 0);
    forall xp: nat, yp: nat | xp < nx && yp < ny {
      PushUAt(nx, ny, u, x, y, amount, xp, yp);
    }
  }

  /** One cell of `PushV`: it moves by `amount` exactly when it lies in
      row y-1 or y+1 within one column of x. */
  lemma PushVAt(nx: nat, ny: nat, v: seq<real>, x: nat, y: nat, amount: real, xp: nat, yp: nat)
    requires ValidSize(nx, ny) && IsField(nx, ny, v) && Interior(nx, ny, x, y)
    requires xp < nx && yp < ny
    ensures |PushV(nx, ny, v, x, y, amount)| == |v|
    ensures PushV(nx, ny, v, x, y, amount)[Idx(nx, ny, xp, yp)] == v[Idx(nx, ny, xp, yp)]
      + (if yp + 1 == y && Near(x, xp) then -amount
         else if yp == y + 1 && Near(x, xp) then amount
         else 0.0)
  {
    var j := Idx(nx, ny, xp, yp);
    var k1, k2, k3 := Idx(nx, ny, x - 1, y - 1), Idx(nx, ny, x, y - 1), Idx(nx, ny, x + 1, y - 1);
    var k4, k5, k6 := Idx(nx, ny, x - 1, y + 1), Idx(nx, ny, x, y + 1), Idx(nx, ny, x + 1, y + 1);
    var v1 := Bump(v, k1, -amount);
    var v2 := Bump(v1, k2, -amount);
    var v3 := Bump(v2, k3, -amount);
    var v4 := Bump(v3, k4, amount);
    var v5 := Bump(v4, k5, amount);
    BumpAt(v, k1, -amount, j);
    BumpAt(v1, k2, -amount, j);
    BumpAt(v2, k3, -amount, j);
    BumpAt(v3, k4, amount, j);
    BumpAt(v4, k5, amount, j);
    BumpAt(v5, k6, amount, j);
    IdxInjective(nx, ny, xp, yp, x - 1, y - 1);
    IdxInjective(nx, ny, xp, yp, x, y - 1);
    IdxInjective(nx, ny, xp, yp, x + 1, y - 1);
    IdxInjective(nx, ny, xp, yp, x - 1, y + 1);
    IdxInjective(nx, ny, xp, yp, x, y + 1);
    IdxInjective(nx, ny, xp, yp, x + 1, y + 1);
  }

  lemma PushVCells(nx: nat, ny: nat, v: seq<real>, x: nat, y: nat, amount: real)
    requires ValidSize(nx, ny) && IsField(nx, ny, v) && Interior(nx, ny, x, y)
    ensures |PushV(nx, ny, v, x, y, amount)| == |v|
    ensures forall xp: nat, yp: nat | xp < nx && yp < ny ::
      PushV(nx, ny, v, x, y, amount)[Idx(nx, ny, xp, yp)] == v[Idx(nx, ny, xp, yp)]
        + (if yp + 1 == y && Near(x, xp) then -amount
           else if yp == y + 1 && Near(x, xp) then amount
           else 0.0)
  {
    PushVAt(nx, ny, v, x, y, amount, 0, 0);
    forall xp: nat, yp: nat | xp < nx && yp < ny {
      PushVAt(nx, ny, v, x, y, amount, xp, yp);
    }
  }

  /** Sum of the first n cells of a field. */
  function SumTo(s: seq<real>, n: nat): real
    requires n <= |s|
  {
    if n == 0 then 0.0 else SumTo(s, n - 1) + s[n - 1]
  }

  /** Sum of all cells of a field. */
  function Total(s: seq<real>): real {
    SumTo(s, |s|)
  }

  lemma {:induction false} SumToBump(s: seq<real>, i: nat, delta: real, n: nat)
    requires i < |s| && n <= |s|
    ensures SumTo(Bump(s, i, delta), n) == SumTo(s, n) + if i < n then delta else 0.0
  {
    if n > 0 {
      SumToBump(s, i, delta, n - 1);
    }
  }

  /** One compound assignment changes the total by exactly its delta. */
  lemma TotalBump(s: seq<real>, i: nat, delta: real)
    requires i < |s|
    ensures Total(Bump(s, i, delta)) == Total(s) + delta
  {
    SumToBump(s, i, delta, |s|);
  }

  lemma PushUTotal(nx: nat, ny: nat, u: seq<real>, x: nat, y: nat, amount: real)
    requires ValidSize(nx, ny) && IsField(nx, ny, u) && Interior(nx, ny, x, y)
    ensures Total(PushU(nx, ny, u, x, y, amount)) == Total(u)
  {
    var u1 := Bump(u, Idx(nx, ny, x - 1, y - 1), -amount);
    var u2 := Bump(u1, Idx(nx, ny, x - 1, y), -amount);
    var u3 := Bump(u2, Idx(nx, ny, x - 1, y + 1), -amount);
    var u4 := Bump(u3, Idx(nx, ny, x + 1, y - 1), amount);
    var u5 := Bump(u4, Idx(nx, ny, x + 1, y), amount);
    TotalBump(u, Idx(nx, ny, x - 1, y - 1), -amount);
    TotalBump(u1, Idx(nx, ny, x - 1, y), -amount);
    TotalBump(u2, Idx(nx, ny, x - 1, y + 1), -amount);
    TotalBump(u3, Idx(nx, ny, x + 1, y - 1), amount);
    TotalBump(u4, Idx(nx, ny, x + 1, y), amount);
    TotalBump(u5, Idx(nx, ny, x + 1, y + 1), amount);
  }

  lemma PushVTotal(nx: nat, ny: nat, v: seq<real>, x: nat, y: nat, amount: real)
    requires ValidSize(nx, ny) && IsField(nx, ny, v) && Interior(nx, ny, x, y)
    ensures Total(PushV(nx, ny, v, x, y, amount)) == Total(v)
  {
    var v1 := Bump(v, Idx(nx, ny, x - 1, y - 1), -amount);
    var v2 := Bump(v1, Idx(nx, ny, x, y - 1), -amount);
    var v3 := Bump(v2, Idx(nx, ny, x + 1, y - 1), -amount);
    var v4 := Bump(v3, Idx(nx, ny, x - 1, y + 1), amount);
    var v5 := Bump(v4, Idx(nx, ny, x, y + 1), amount);
    TotalBump(v, Idx(nx, ny, x - 1, y - 1), -amount);
    TotalBump(v1, Idx(nx, ny, x, y - 1), -amount);
    TotalBump(v2, Idx(nx, ny, x + 1, y - 1), -amount);
    TotalBump(v3, Idx(nx, ny, x - 1, y + 1), amount);
    TotalBump(v4, Idx(nx, ny, x, y + 1), amount);
    TotalBump(v5, Idx(nx, ny, x + 1, y + 1), amount);
  }

  /** The swirl is a rotation, not a push: it adds no net momentum to the
      horizontal velocity. */
  lemma SwirlUKeepsTotal(nx: nat, ny: nat, u: seq<real>, x: nat, y: nat, amount: real)
    requires ValidSize(nx, ny) && IsField(nx, ny, u)
    ensures Total(SwirlU(nx, ny, u, x, y, amount)) == Total(u)
  {
    if !OnEdge(nx, ny, x, y) {
      PushUTotal(nx, ny, u, x, y, amount);
    }
  }

  /** Likewise for the vertical velocity. */
  lemma SwirlVKeepsTotal(nx: nat, ny: nat, v: seq<real>, x: nat, y: nat, amount: real)
    requires ValidSize(nx, ny) && IsField(nx, ny, v)
    ensures Total(SwirlV(nx, ny, v, x, y, amount)) == Total(v)
  {
    if !OnEdge(nx, ny, x, y) {
      PushVTotal(nx, ny, v, x, y, amount);
    }
  }
}
