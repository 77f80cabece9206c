/** The per-cell passes of a tick: `AddSources` (FluidSim.cpp:282-288),
    `Decay` (FluidSim.cpp:311-328) and `ApplyGravity` (FluidSim.cpp:291-308).
    Each one rewrites a cell from values stored at the same index, so the
    result is a field built index by index. */
module Pointwise {
  import opened Grid

  /** `AddSources(x, s, dt)`: every cell, border included, gains `dt` times
      the source stored at the same index. */
  function AddScaled(x: seq<real>, s: seq<real>, dt: real): (r: seq<real>)
    requires |s| == |x|
    ensures |r| == |x|
  {
    seq(|x|, i requires 0 <= i < |x| => x[i] + dt * s[i])
  }

  /** One cell of the source's `AddSources` loop, with `xi` and `si` the
      values read at index i, advances the pass from `x` to `AddScaled` by
      one. */
  lemma AddScaledStep(x: seq<real>, s: seq<real>, dt: real, i: nat, xi: real, si: real)
    requires |s| == |x| && i < |x| && xi == x[i] && si == s[i]
    ensures var t := AddScaled(x, s, dt);
      Scanned(t, x, i)[i := xi + dt * si] == Scanned(t, x, i + 1)
  {
    var t := AddScaled(x, s, dt);
    ScannedWrite(t, x, i);
    assert xi + dt * si == t[i];
  }

  /** Two additions of the same source add up their time steps. */
  lemma AddScaledCompose(x: seq<real>, s: seq<real>, dt1: real, dt2: real)
    requires |s| == |x|
    ensures AddScaled(AddScaled(x, s, dt1), s, dt2) == AddScaled(x, s, dt1 + dt2)
  {
    var l := AddScaled(AddScaled(x, s, dt1), s, dt2);
    forall i | 0 <= i < |x|
      ensures l[i] == AddScaled(x, s, dt1 + dt2)[i]
    {
      calc {
        l[i];
        (x[i] + dt1 * s[i]) + dt2 * s[i];
        x[i] + (dt1 + dt2) * s[i];
      }
    }
  }

  /** Adding with the opposite time step undoes an addition. */
  lemma AddScaledUndo(x: seq<real>, s: seq<real>, dt: real)
    requires |s| == |x|
    ensures AddScaled(AddScaled(x, s, dt), s, -dt) == x
  {
    AddScaledCompose(x, s, dt, -dt);
    assert AddScaled(x, s, 0.0) == x;
  }

  /** A zero source leaves the field as it is. */
  lemma AddScaledOfZero(x: seq<real>, s: seq<real>, dt: real)
    requires |s| == |x| && AllZero(s)
    ensures AddScaled(x, s, dt) == x
  {
    assert forall i | 0 <= i < |x| :: AddScaled(x, s, dt)[i] == x[i];
  }

  /** Non-negative cells and a non-negative source stay non-negative over a
      non-negative time step. */
  lemma AddScaledNonNegative(x: seq<real>, s: seq<real>, dt: real)
    requires |s| == |x| && dt >= 0.0
    requires forall i | 0 <= i < |x| :: x[i] >= 0.0 && s[i] >= 0.0
    ensures forall i | 0 <= i < |x| :: AddScaled(x, s, dt)[i] >= 0.0
  {
    forall i | 0 <= i < |x|
      ensures AddScaled(x, s, dt)[i] >= 0.0
    {
      assert dt * s[i] >= 0.0;
    }
  }

  /** One cell of `Decay`: lowered by `amount` and then raised back to zero
      if it went negative.  The result is the larger of `v - amount` and 0. */
  function DecayCell(v: real, amount: real): (r: real)
    ensures r >= 0.0 && r >= v - amount
    ensures r == 0.0 || r == v - amount
  {
    var lowered := v - amount;
    if lowered < 0.0 then 0.0 else lowered
  }

  /** Decaying twice is decaying once by the combined amount. */
  lemma DecayCellCompose(v: real, a1: real, a2: real)
    requires a1 >= 0.0 && a2 >= 0.0
    ensures DecayCell(DecayCell(v, a1), a2) == DecayCell(v, a1 + a2)
  {
  }

  /** A non-negative cell never grows under a non-negative decay; a
      negative cell, which the clamp raises to zero, does. */
  lemma DecayCellShrinks(v: real, amount: real)
    requires amount >= 0.0
    ensures v >= 0.0 ==> DecayCell(v, amount) <= v
    ensures v < 0.0 ==> DecayCell(v, amount) == 0.0 > v
  {
  }

  /** `Decay(d, rate, dt)` with `amount == rate * dt`: interior cells decay,
      border cells are left alone. */
  function DecayField(nx: nat, ny: nat, s: seq<real>, amount: real): (r: seq<real>)
    requires ValidSize(nx, ny) && IsField(nx, ny, s)
    ensures IsField(nx, ny, r)
  {
    seq(|s|, i requires 0 <= i < |s| => if InteriorIndex(nx, ny, i) then DecayCell(s[i], amount) else s[i])
  }

  /** After `Decay` every interior cell is non-negative, whatever it was
      before, and no border cell has moved. */
  lemma DecayFieldBounds(nx: nat, ny: nat, s: seq<real>, amount: real)
    requires ValidSize(nx, ny) && IsField(nx, ny, s)
    ensures forall i | 0 <= i < |s| && InteriorIndex(nx, ny, i) ::
      DecayField(nx, ny, s, amount)[i] >= 0.0 && DecayField(nx, ny, s, amount)[i] >= s[i] - amount
    ensures forall i | 0 <= i < |s| && !InteriorIndex(nx, ny, i) :: DecayField(nx, ny, s, amount)[i] == s[i]
  {
  }

  /** Two decays compose like one with the summed amount. */
  lemma DecayFieldCompose(nx: nat, ny: nat, s: seq<real>, a1: real, a2: real)
    requires ValidSize(nx, ny) && IsField(nx, ny, s) && a1 >= 0.0 && a2 >= 0.0
    ensures DecayField(nx, ny, DecayField(nx, ny, s, a1), a2) == DecayField(nx, ny, s, a1 + a2)
  {
    var l := DecayField(nx, ny, DecayField(nx, ny, s, a1), a2);
    forall i | 0 <= i < |s|
      ensures l[i] == DecayField(nx, ny, s, a1 + a2)[i]
    {
      DecayCellCompose(s[i], a1, a2);
    }
  }

  /** A non-negative field stays non-negative and never grows. */
  lemma DecayFieldShrinks(nx: nat, ny: nat, s: seq<real>, amount: real)
    requires ValidSize(nx, ny) && IsField(nx, ny, s) && amount >= 0.0
    requires forall i | 0 <= i < |s| :: s[i] >= 0.0
    ensures forall i | 0 <= i < |s| :: 0.0 <= DecayField(nx, ny, s, amount)[i] <= s[i]
  {
  }

  /** `ApplyGravity` on one velocity component: each interior cell gains the
      mean of the three density channels times `gravity * dt`. */
  function GravityField(nx: nat, ny: nat, w: seq<real>, r: seq<real>, g: seq<real>, b: seq<real>, gravity: real, dt: real): (o: seq<real>)
    requires ValidSize(nx, ny) && IsField(nx, ny, w)
    requires IsField(nx, ny, r) && IsField(nx, ny, g) && IsField(nx, ny, b)
    ensures IsField(nx, ny, o)
  {
    seq(|w|, i requires 0 <= i < |w| =>
      if InteriorIndex(nx, ny, i) then w[i] + ((r[i] + g[i] + b[i]) / 3.0) * (gravity * dt) else w[i])
  }

  /** One cell of the source's `ApplyGravity` loop, written from the local
      mean `d` and the local `gdt = gravity * dt`, advances the row-major
      pass from `w` to `GravityField` by one index. */
  lemma GravityCellStep(nx: nat, ny: nat, w: seq<real>, r: seq<real>, g: seq<real>, b: seq<real>, gravity: real, dt: real,
                        i: nat, d: real, gdt: real)
    requires ValidSize(nx, ny) && IsField(nx, ny, w)
    requires IsField(nx, ny, r) && IsField(nx, ny, g) && IsField(nx, ny, b)
    requires i < |w| && InteriorIndex(nx, ny, i)
    requires d == (r[i] + g[i] + b[i]) / 3.0 && gdt == gravity * dt
    ensures var t := GravityField(nx, ny, w, r, g, b, gravity, dt);
      Scanned(t, w, i)[i := Scanned(t, w, i)[i] + d * gdt] == Scanned(t, w, i + 1)
  {
    var t := GravityField(nx, ny, w, r, g, b, gravity, dt);
    ScannedWrite(t, w, i);
    assert d * gdt == ((r[i] + g[i] + b[i]) / 3.0) * (gravity * dt);
    assert Scanned(t, w, i)[i] + d * gdt == t[i];
  }

  /** The push of one cell, regrouped. */
  lemma MeanPush(r: real, g: real, b: real, gravity: real, dt: real)
    ensures ((r + g + b) / 3.0) * (gravity * dt) == (r + g + b) * gravity * dt / 3.0
  {
  }

  /** Gravity pushes each interior cell by its total density times
      `gravity * dt / 3`; border cells are not pushed. */
  lemma GravityFieldPush(nx: nat, ny: nat, w: seq<real>, r: seq<real>, g: seq<real>, b: seq<real>, gravity: real, dt: real)
    requires ValidSize(nx, ny) && IsField(nx, ny, w)
    requires IsField(nx, ny, r) && IsField(nx, ny, g) && IsField(nx, ny, b)
    ensures forall i | 0 <= i < |w| ::
      GravityField(nx, ny, w, r, g, b, gravity, dt)[i] - w[i] ==
        if InteriorIndex(nx, ny, i) then (r[i] + g[i] + b[i]) * gravity * dt / 3.0 else 0.0
  {
    forall i | 0 <= i < |w|
      ensures GravityField(nx, ny, w, r, g, b, gravity, dt)[i] - w[i] ==
        if InteriorIndex(nx, ny, i) then (r[i] + g[i] + b[i]) * gravity * dt / 3.0 else 0.0
    {
      MeanPush(r[i], g[i], b[i], gravity, dt);
    }
  }

  /** Pushes over two time steps add up, as `d * (k * t)` distributes. */
  lemma PushAdds(d: real, gravity: real, dt1: real, dt2: real)
    ensures d * (gravity * dt1) + d * (gravity * dt2) == d * (gravity * (dt1 + dt2))
  {
  }

  /** Two gravity passes over the same densities add up their time steps. */
  lemma GravityFieldCompose(nx: nat, ny: nat, w: seq<real>, r: seq<real>, g: seq<real>, b: seq<real>, gravity: real, dt1: real, dt2: real)
    requires ValidSize(nx, ny) && IsField(nx, ny, w)
    requires IsField(nx, ny, r) && IsField(nx, ny, g) && IsField(nx, ny, b)
    ensures GravityField(nx, ny, GravityField(nx, ny, w, r, g, b, gravity, dt1), r, g, b, gravity, dt2)
         == GravityField(nx, ny, w, r, g, b, gravity, dt1 + dt2)
  {
    var l := GravityField(nx, ny, GravityField(nx, ny, w, r, g, b, gravity, dt1), r, g, b, gravity, dt2);
    forall i | 0 <= i < |w|
      ensures l[i] == GravityField(nx, ny, w, r, g, b, gravity, dt1 + dt2)[i]
    {
      PushAdds((r[i] + g[i] + b[i]) / 3.0, gravity, dt1, dt2);
    }
  }

  /** Without density, without gravity or without time, the velocity is
      left alone. */
  lemma GravityFieldInert(nx: nat, ny: nat, w: seq<real>, r: seq<real>, g: seq<real>, b: seq<real>, gravity: real, dt: real)
    requires ValidSize(nx, ny) && IsField(nx, ny, w)
    requires IsField(nx, ny, r) && IsField(nx, ny, g) && IsField(nx, ny, b)
    requires gravity == 0.0 || dt == 0.0 || (AllZero(r) && AllZero(g) && AllZero(b))
    ensures GravityField(nx, ny, w, r, g, b, gravity, dt) == w
  {
    assert gravity * dt == 0.0 || (AllZero(r) && AllZero(g) && AllZero(b));
    assert forall i | 0 <= i < |w| :: GravityField(nx, ny, w, r, g, b, gravity, dt)[i] == w[i];
  }
}
