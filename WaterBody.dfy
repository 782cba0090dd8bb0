/**
 * The water body: a surface of `n` sample points kept in three parallel
 * arrays (point X, point Y, vertical velocity) and updated in place by the
 * resize handler, the impact handler, the continuous-pulse timer and the
 * per-frame step. Every method is proved against the definitions of
 * module WaveMath.
 */
module Water {
  import opened WaveMath

  class WaterBody {
    /** Number of sample points; fixed for the lifetime of the surface. */
    const n: nat

    /** Sample point X coordinates (global). */
    var xs: array<real>
    /** Sample point Y coordinates (global). */
    var ys: array<real>
    /** Vertical velocity of each sample point. */
    var vs: array<real>

    // Tuning, with the defaults of the editor.
    var waveTargetHeight: real
    var waveStiffness: real
    var waveDampening: real
    var waveSpreadPasses: int
    var waveSpreadFactor: real
    var waveImpactPower: real
    var continuousImpact: bool
    var continuousImpactPower: real

    /** Global position of the surface's top-left corner and its size. */
    var originX: real
    var originY: real
    var sizeX: real
    var sizeY: real

    /** The collision region below the rest line, relative to the top-left corner. */
    var area: Rect

    ghost predicate Valid()
      reads this
    {
      n >= 3 &&
      xs.Length == n && ys.Length == n && vs.Length == n &&
      xs != ys && ys != vs && xs != vs
    }

    /** Current heights and velocities as a chain. */
    ghost function Surface(): (c: Chain)
      reads this, ys, vs
      requires Valid()
      ensures |c.ys| == |c.vs| == n
    {
      Chain(ys[..], vs[..])
    }

    /** The height at which the surface rests. */
    function Rest(): real
      reads this
    {
      originY + waveTargetHeight
    }

    /**
     * Creation of a surface of `count` points over the rectangle at
     * (`ox`, `oy`) of size `w` x `h`: every velocity starts at zero and the
     * points are laid out as on a resize.
     */
    constructor (count: nat, ox: real, oy: real, w: real, h: real)
      requires count >= 3
      ensures Valid() && n == count
      ensures fresh(xs) && fresh(ys) && fresh(vs)
      ensures waveTargetHeight == 20.0 && waveStiffness == 0.01 && waveDampening == 0.005
      ensures waveSpreadPasses == 8 && waveSpreadFactor == 0.5 && waveImpactPower == 50.0
      ensures !continuousImpact && continuousImpactPower == 100.0
      ensures forall i :: 0 <= i < n ==> vs[i] == 0.0
      ensures forall i :: 0 <= i < n ==> xs[i] == LayoutX(ox, w, n, i) && ys[i] == Rest()
      ensures originX == ox && originY == oy && sizeX == w && sizeY == h
      ensures area == CollisionRect(w, h, waveTargetHeight)
    {
      n := count;
      xs := new real[count](_ => 0.0);
      ys := new real[count](_ => 0.0);
      var v := new real[count];
      var i := 0;
      while i < count
        invariant 0 <= i <= count
        invariant forall j :: 0 <= j < i ==> v[j] == 0.0
      {
        v[i] := 0.0;
        i := i + 1;
      }
      vs := v;
      waveTargetHeight := 20.0;
      waveStiffness := 0.01;
      waveDampening := 0.005;
      waveSpreadPasses := 8;
      waveSpreadFactor := 0.5;
      waveImpactPower := 50.0;
      continuousImpact := false;
      continuousImpactPower := 100.0;
      new;
      Resize(ox, oy, w, h);
    }

    /**
     * The resize handler, for the surface now at (`ox`, `oy`) with size
     * `w` x `h`: the collision region spans from the rest line to the
     * bottom, and point i is placed at `ox + w / (n - 1) * i` on the rest
     * line. Velocities are left as they were.
     */
    method Resize(ox: real, oy: real, w: real, h: real)
      requires Valid()
      modifies this`originX, this`originY, this`sizeX, this`sizeY, this`area, xs, ys
      ensures Valid()
      ensures originX == ox && originY == oy && sizeX == w && sizeY == h
      ensures area == CollisionRect(w, h, waveTargetHeight)
      ensures forall i :: 0 <= i < n ==> xs[i] == LayoutX(ox, w, n, i) && ys[i] == Rest()
      ensures vs[..] == old(vs[..])
    {
      originX, originY, sizeX, sizeY := ox, oy, w, h;
      area := Rect(w / 2.0, waveTargetHeight + (h - waveTargetHeight) / 2.0, w, h - waveTargetHeight);
      var i := 0;
      while i < n
        invariant 0 <= i <= n
        invariant originX == ox && originY == oy && sizeX == w && sizeY == h
        invariant area == CollisionRect(w, h, waveTargetHeight)
        invariant forall j :: 0 <= j < i ==> xs[j] == LayoutX(ox, w, n, j) && ys[j] == oy + waveTargetHeight
      {
        xs[i] := ox + w / ((n - 1) as real) * (i as real);
        ys[i] := oy + waveTargetHeight;
        i := i + 1;
      }
    }

    /**
     * First half of an impact: the index of the point nearest the body at
     * (`px`, `py`), lowest index on ties.
     */
    method PickTarget(px: real, py: real) returns (k: int)
      requires Valid()
      ensures 0 <= k < n
      ensures IsNearest(xs[..], ys[..], px, py, k)
    {
      k := NearestIndex(xs, ys, px, py);
    }

    /**
     * Second half of an impact, one frame later: `dy`, the body's vertical
     * displacement over that frame, times the impact power is added to the
     * velocity of point `k`, boundary points included. Nothing else changes.
     */
    method ApplyImpact(k: nat, dy: real)
      requires Valid() && k < n
      modifies vs
      ensures Valid()
      ensures vs[..] == AddAt(old(vs[..]), k, dy * waveImpactPower)
      ensures xs[..] == old(xs[..]) && ys[..] == old(ys[..])
    {
      var gain := dy * waveImpactPower;
      vs[k] := vs[k] + gain;
      assert vs[..] == AddAt(old(vs[..]), k, gain);
      // The solver does not carry the product of a field and a parameter
      // into the postcondition on its own; this step is needed.
      assert gain == dy * waveImpactPower;
    }

    /** The continuous-pulse timer: pulses the surface when the flag is set. */
    method ContinuousPulse()
      requires Valid()
      ensures Valid()
      modifies vs
      ensures continuousImpact ==> vs[..] == Pulse(old(vs[..]), continuousImpactPower)
      ensures !continuousImpact ==> vs[..] == old(vs[..])
      ensures xs[..] == old(xs[..]) && ys[..] == old(ys[..])
    {
      if continuousImpact {
        ghost var v0 := vs[..];
        vs[1] := vs[1] + continuousImpactPower;
        vs[n / 2] := vs[n / 2] + continuousImpactPower;
        vs[n - 2] := vs[n - 2] + continuousImpactPower;
        assert vs[..] == Pulse(v0, continuousImpactPower);
      }
    }

    /**
     * One frame of `dt` seconds: the spring/damper phase over the interior
     * points, then the spread sweeps. No X coordinate moves.
     */
    method Step(dt: real)
      requires Valid()
      ensures Valid()
      modifies ys, vs
      ensures Surface() == WaveMath.Step(old(Surface()), Rest(), waveStiffness, waveDampening, dt,
                                         waveSpreadFactor, waveSpreadPasses)
      ensures xs[..] == old(xs[..])
    {
      IntegrateInterior(dt);
      Spread();
    }

    /**
     * The spread phase: `waveSpreadPasses` sweeps (none when it is
     * negative) over heights that stay fixed throughout.
     */
    method Spread()
      requires Valid()
      ensures Valid()
      modifies vs
      ensures vs[..] == SpreadPasses(ys[..], old(vs[..]), waveSpreadFactor, PassCount(waveSpreadPasses))
    {
      var p := 0;
      while p < waveSpreadPasses
        invariant 0 <= p <= PassCount(waveSpreadPasses)
        invariant vs[..] == SpreadPasses(ys[..], old(vs[..]), waveSpreadFactor, p)
      {
        SpreadSweep();
        p := p + 1;
      }
    }

    /**
     * The spring/damper phase: for each interior point in index order, the
     * velocity is updated first and the height then moves by the new
     * velocity; the first and last points are skipped.
     */
    method IntegrateInterior(dt: real)
      requires Valid()
      ensures Valid()
      modifies ys, vs
      ensures Surface() == Integrate(old(Surface()), Rest(), waveStiffness, waveDampening, dt)
    {
      ghost var c0 := Surface();
      ghost var rest := Rest();
      ghost var y0, v0 := ys[..], vs[..];
      var i := 0;
      while i < n
        invariant 0 <= i <= n
        invariant forall m :: 0 <= m < i ==>
          ys[m] == NewHeight(c0, rest, waveStiffness, waveDampening, dt, m) &&
          vs[m] == NewVelocity(c0, rest, waveStiffness, waveDampening, m)
        invariant forall m :: i <= m < n ==> ys[m] == y0[m] && vs[m] == v0[m]
      {
        if i > 0 && i < n - 1 {
          var extension := ys[i] - (originY + waveTargetHeight);
          var loss := -waveDampening * vs[i];
          vs[i] := vs[i] + (-waveStiffness * extension + loss);
          ys[i] := ys[i] + vs[i] * dt;
        }
        i := i + 1;
      }
      assert ys[..] == Integrate(c0, rest, waveStiffness, waveDampening, dt).ys;
      assert vs[..] == Integrate(c0, rest, waveStiffness, waveDampening, dt).vs;
    }

    /**
     * One spread sweep, j from first to last: point j pushes its height
     * difference into the velocities of both neighbours. Heights are only
     * read, so the sweep adds each point's spread delta to its velocity.
     */
    method SpreadSweep()
      requires Valid()
      ensures Valid()
      modifies vs
      ensures vs[..] == SpreadPass(ys[..], old(vs[..]), waveSpreadFactor)
    {
      ghost var y, v0 := ys[..], vs[..];
      var f := waveSpreadFactor;
      var j := 0;
      while j < n
        invariant 0 <= j <= n
        invariant forall m :: 0 <= m < n ==>
          vs[m] == v0[m] + (if m - 1 < j then FromLeft(y, f, m) else 0.0)
                         + (if m + 1 < j then FromRight(y, f, m) else 0.0)
      {
        if j > 0 {
          vs[j - 1] := vs[j - 1] + f * (ys[j] - ys[j - 1]);
        }
        if j < n - 1 {
          vs[j + 1] := vs[j + 1] + f * (ys[j] - ys[j + 1]);
        }
        j := j + 1;
      }
      assert vs[..] == SpreadPass(y, v0, f);
    }
  }

  /**
   * The nearest-point scan: the first index is taken as the best so far
   * and a later point replaces it only when strictly nearer. An empty
   * chain yields -1, which tells the caller that no point was found.
   */
  method NearestIndex(xs: array<real>, ys: array<real>, px: real, py: real) returns (k: int)
    requires xs.Length == ys.Length
    ensures k == -1 <==> xs.Length == 0
    ensures k != -1 ==> IsNearest(xs[..], ys[..], px, py, k)
  {
    k := -1;
    var i := 0;
    while i < xs.Length
      invariant 0 <= i <= xs.Length
      invariant k == -1 <==> i == 0
      invariant k != -1 ==> IsNearest(xs[..i], ys[..i], px, py, k)
    {
      if k < 0 {
        k := i;
      } else {
        var lowest := SqDist(xs[k], ys[k], px, py);
        var d := SqDist(xs[i], ys[i], px, py);
        if d < lowest {
          k := i;
        }
      }
      i := i + 1;
    }
    assert xs[..i] == xs[..] && ys[..i] == ys[..];
  }
}
