/**
 * Pure model of the spring-mesh water surface: the sample chain as two
 * index-aligned sequences (heights and vertical velocities), the per-frame
 * spring/damper update, the neighbour spread passes, the continuous pulse,
 * the point layout on resize and the nearest-point rule for impacts.
 * The class in WaterBody.dfy mutates arrays in place and is proved against
 * these definitions.
 */
module WaveMath {

  /** Number of sample points of the game's surface. */
  const PointCount: nat := 20

  // ---------------------------------------------------------------------
  // Sums of real sequences
  // ---------------------------------------------------------------------

  /** Sum of a sequence, peeling off the last element. */
  function Sum(s: seq<real>): real
  {
    if |s| == 0 then 0.0 else Sum(s[..|s| - 1]) + s[|s| - 1]
  }

  /** Element-wise sum of two sequences of equal length. */
  function AddPointwise(a: seq<real>, b: seq<real>): (r: seq<real>)
    requires |a| == |b|
    ensures |r| == |a|
    ensures forall i :: 0 <= i < |a| ==> r[i] == a[i] + b[i]
  {
    seq(|a|, i requires 0 <= i < |a| => a[i] + b[i])
  }

  /** `s` with `d` added to its element at `i`. */
  function AddAt(s: seq<real>, i: nat, d: real): (r: seq<real>)
    requires i < |s|
    ensures |r| == |s|
  {
    s[i := s[i] + d]
  }

  /** Adding `d` to one element adds `d` to the sum. */
  lemma {:induction false} SumUpdate(s: seq<real>, i: nat, d: real)
    requires i < |s|
    ensures Sum(AddAt(s, i, d)) == Sum(s) + d
  {
    var t := AddAt(s, i, d);
    var n := |s|;
    if i == n - 1 {
      assert t[..n - 1] == s[..n - 1];
    } else {
      assert t[..n - 1] == AddAt(s[..n - 1], i, d);
      SumUpdate(s[..n - 1], i, d);
    }
  }

  /** Summation distributes over element-wise addition. */
  lemma {:induction false} SumAddPointwise(a: seq<real>, b: seq<real>)
    requires |a| == |b|
    ensures Sum(AddPointwise(a, b)) == Sum(a) + Sum(b)
  {
    var n := |a|;
    if n > 0 {
      var r := AddPointwise(a, b);
      assert r[..n - 1] == AddPointwise(a[..n - 1], b[..n - 1]);
      SumAddPointwise(a[..n - 1], b[..n - 1]);
    }
  }

  // ---------------------------------------------------------------------
  // Nearest sample point to an impact position
  // ---------------------------------------------------------------------

  /**
   * Squared Euclidean distance. It orders points exactly as the distance
   * does (SqDistOrdersAsDistance).
   */
  function SqDist(x: real, y: real, px: real, py: real): (d: real)
    ensures d >= 0.0
    ensures x == px && y == py ==> d == 0.0
  {
    var a, b := x - px, y - py;
    SquareNonNegative(a);
    SquareNonNegative(b);
    a * a + b * b
  }

  lemma SquareNonNegative(a: real)
    ensures a * a >= 0.0
  {
    if a < 0.0 {
      assert a * a == (-a) * (-a);
    }
  }

  lemma ProductNonNegative(a: real, b: real)
    requires a >= 0.0 && b >= 0.0
    ensures a * b >= 0.0
  {
    if a == 0.0 || b == 0.0 {
      assert a * b == 0.0;
    }
  }

  lemma ProductPositive(a: real, b: real)
    requires a > 0.0 && b > 0.0
    ensures a * b > 0.0
  {
  }

  /** On the non-negative reals, squaring preserves and reflects order. */
  lemma {:induction false} SquareOrder(r1: real, r2: real)
    requires r1 >= 0.0 && r2 >= 0.0
    ensures r1 < r2 <==> r1 * r1 < r2 * r2
  {
    var g := r2 - r1;
    assert r2 * r2 - r1 * r1 == r1 * g + r2 * g;
    if r1 < r2 {
      ProductNonNegative(r1, g);
      ProductPositive(r2, g);
    } else {
      ProductNonNegative(r1, -g);
      ProductNonNegative(r2, -g);
      assert r1 * g + r2 * g == -(r1 * (-g) + r2 * (-g));
    }
  }

  /**
   * Comparing squared distances is comparing distances: for the Euclidean
   * distances `r1` and `r2` of two points from (`px`, `py`) (the
   * non-negative square roots of their squared distances), `r1 < r2`
   * exactly when the squared distances compare the same way, and so does
   * `r1 <= r2`.
   */
  lemma SqDistOrdersAsDistance(x1: real, y1: real, x2: real, y2: real,
                               px: real, py: real, r1: real, r2: real)
    requires r1 >= 0.0 && r1 * r1 == SqDist(x1, y1, px, py)
    requires r2 >= 0.0 && r2 * r2 == SqDist(x2, y2, px, py)
    ensures r1 < r2 <==> SqDist(x1, y1, px, py) < SqDist(x2, y2, px, py)
    ensures r1 <= r2 <==> SqDist(x1, y1, px, py) <= SqDist(x2, y2, px, py)
  {
    SquareOrder(r1, r2);
    SquareOrder(r2, r1);
  }

  /**
   * `k` is the point a linear scan with a strict `<` comparison settles on:
   * no point is closer, and every point before `k` is strictly farther, so
   * among equally near points the lowest index wins.
   */
  predicate IsNearest(xs: seq<real>, ys: seq<real>, px: real, py: real, k: int)
    requires |xs| == |ys|
  {
    0 <= k < |xs| &&
    (forall j :: 0 <= j < |xs| ==>
       SqDist(xs[k], ys[k], px, py) <= SqDist(xs[j], ys[j], px, py)) &&
    (forall j :: 0 <= j < k ==>
       SqDist(xs[k], ys[k], px, py) < SqDist(xs[j], ys[j], px, py))
  }

  /** The nearest-point rule picks exactly one index. */
  lemma NearestIsUnique(xs: seq<real>, ys: seq<real>, px: real, py: real, k1: int, k2: int)
    requires |xs| == |ys|
    requires IsNearest(xs, ys, px, py, k1) && IsNearest(xs, ys, px, py, k2)
    ensures k1 == k2
  {
    var d1 := SqDist(xs[k1], ys[k1], px, py);
    var d2 := SqDist(xs[k2], ys[k2], px, py);
    if k1 < k2 {
      assert false;
    } else if k2 < k1 {
      assert false;
    }
  }

  /**
   * Any index, boundary points included, is selected when its point is
   * strictly nearer than every other point.
   */
  lemma StrictlyNearestIsSelected(xs: seq<real>, ys: seq<real>, px: real, py: real, k: int)
    requires |xs| == |ys| && 0 <= k < |xs|
    requires forall j :: 0 <= j < |xs| && j != k ==>
               SqDist(xs[k], ys[k], px, py) < SqDist(xs[j], ys[j], px, py)
    ensures IsNearest(xs, ys, px, py, k)
  {
  }

  /**
   * Boundary points are targets like any other: an impact beyond either end
   * of this three-point chain selects point 0 or point 2.
   */
  lemma BoundaryPointsAreTargets()
    ensures IsNearest([0.0, 2.0, 4.0], [0.0, 0.0, 0.0], -1.0, 1.0, 0)
    ensures IsNearest([0.0, 2.0, 4.0], [0.0, 0.0, 0.0], 5.0, 1.0, 2)
  {
    assert SqDist(0.0, 0.0, -1.0, 1.0) == 2.0;
    assert SqDist(2.0, 0.0, -1.0, 1.0) == 10.0;
    assert SqDist(4.0, 0.0, -1.0, 1.0) == 26.0;
    assert SqDist(0.0, 0.0, 5.0, 1.0) == 26.0;
    assert SqDist(2.0, 0.0, 5.0, 1.0) == 10.0;
    assert SqDist(4.0, 0.0, 5.0, 1.0) == 2.0;
  }

  /**
   * Tie-break: of two points equally near the impact, the one with the
   * higher index is never selected.
   */
  lemma TieGoesToLowerIndex(xs: seq<real>, ys: seq<real>, px: real, py: real, j: int, k: int)
    requires |xs| == |ys| && 0 <= j < k < |xs|
    requires SqDist(xs[j], ys[j], px, py) == SqDist(xs[k], ys[k], px, py)
    ensures !IsNearest(xs, ys, px, py, k)
  {
  }

  /**
   * Points 0 and 1 of this chain are equally far from the impact, and the
   * lower index is the one selected.
   */
  lemma TieExample()
    ensures IsNearest([0.0, 2.0, 4.0], [0.0, 0.0, 0.0], 1.0, 3.0, 0)
    ensures !IsNearest([0.0, 2.0, 4.0], [0.0, 0.0, 0.0], 1.0, 3.0, 1)
  {
    assert SqDist(0.0, 0.0, 1.0, 3.0) == 10.0;
    assert SqDist(2.0, 0.0, 1.0, 3.0) == 10.0;
    assert SqDist(4.0, 0.0, 1.0, 3.0) == 18.0;
    TieGoesToLowerIndex([0.0, 2.0, 4.0], [0.0, 0.0, 0.0], 1.0, 3.0, 0, 1);
  }

  // ---------------------------------------------------------------------
  // Geometry on resize
  // ---------------------------------------------------------------------

  /** X coordinate of point `i` of `n` laid out over a width `w` from `ox`. */
  function LayoutX(ox: real, w: real, n: nat, i: nat): real
    requires n >= 2
  {
    ox + w / ((n - 1) as real) * (i as real)
  }

  /** The first point sits on the left edge and the last on the right edge. */
  lemma LayoutSpansWidth(ox: real, w: real, n: nat)
    requires n >= 2
    ensures LayoutX(ox, w, n, 0) == ox
    ensures LayoutX(ox, w, n, n - 1) == ox + w
  {
    var d := (n - 1) as real;
    assert w / d * d == w;
  }

  /** Consecutive points are evenly spaced, `w / (n - 1)` apart. */
  lemma LayoutEvenlySpaced(ox: real, w: real, n: nat, i: nat)
    requires n >= 2 && i + 1 < n
    ensures LayoutX(ox, w, n, i + 1) - LayoutX(ox, w, n, i) == w / ((n - 1) as real)
  {
    var g := w / ((n - 1) as real);
    assert g * ((i + 1) as real) == g * (i as real) + g;
  }

  /** A rectangle given by its centre and its size. */
  datatype Rect = Rect(cx: real, cy: real, width: real, height: real)

  /**
   * The collision region of a surface of size `w` x `h` whose rest line is
   * `rest` below its top edge (coordinates relative to the top-left corner):
   * it runs from the rest line down to the bottom and across the full width.
   */
  function CollisionRect(w: real, h: real, rest: real): (r: Rect)
    ensures r.width == w && r.height == h - rest
    ensures r.cx - r.width / 2.0 == 0.0 && r.cx + r.width / 2.0 == w
    ensures r.cy - r.height / 2.0 == rest && r.cy + r.height / 2.0 == h
  {
    Rect(w / 2.0, rest + (h - rest) / 2.0, w, h - rest)
  }

  // ---------------------------------------------------------------------
  // Continuous pulse
  // ---------------------------------------------------------------------

  /**
   * The timer pulse: `power` is added, one after the other, to the
   * velocities at 1, n/2 and n-2. For n < 5 some of these indices coincide
   * and that index receives the power more than once.
   */
  function Pulse(vs: seq<real>, power: real): (r: seq<real>)
    requires |vs| >= 3
    ensures |r| == |vs|
    ensures r[0] == vs[0] && r[|vs| - 1] == vs[|vs| - 1]
  {
    var n := |vs|;
    AddAt(AddAt(AddAt(vs, 1, power), n / 2, power), n - 2, power)
  }

  /** With at least five points the three pulsed indices are distinct. */
  lemma PulseTouchesThreeIndices(vs: seq<real>, power: real)
    requires |vs| >= 5
    ensures var n := |vs|; var r := Pulse(vs, power);
      1 < n / 2 < n - 2 &&
      r[1] == vs[1] + power && r[n / 2] == vs[n / 2] + power && r[n - 2] == vs[n - 2] + power &&
      forall i :: 0 <= i < n && i != 1 && i != n / 2 && i != n - 2 ==> r[i] == vs[i]
  {
  }

  /** For the twenty-point surface the pulsed indices are 1, 10 and 18. */
  lemma PulseIndicesOfTwentyPoints(vs: seq<real>, power: real)
    requires |vs| == PointCount
    ensures var r := Pulse(vs, power);
      r[1] == vs[1] + power && r[10] == vs[10] + power && r[18] == vs[18] + power &&
      forall i :: 0 <= i < 20 && i != 1 && i != 10 && i != 18 ==> r[i] == vs[i]
  {
    PulseTouchesThreeIndices(vs, power);
  }

  /** Whatever the length, a pulse adds three times its power to the total velocity. */
  lemma PulseAddsThreePowers(vs: seq<real>, power: real)
    requires |vs| >= 3
    ensures Sum(Pulse(vs, power)) == Sum(vs) + 3.0 * power
  {
    var n := |vs|;
    var a := AddAt(vs, 1, power);
    var b := AddAt(a, n / 2, power);
    var c := AddAt(b, n - 2, power);
    assert Pulse(vs, power) == c;
    assert Sum(a) == Sum(vs) + power by { SumUpdate(vs, 1, power); }
    assert Sum(b) == Sum(a) + power by { SumUpdate(a, n / 2, power); }
    assert Sum(c) == Sum(b) + power by { SumUpdate(b, n - 2, power); }
  }

  // ---------------------------------------------------------------------
  // Per-frame spring/damper update of the interior points
  // ---------------------------------------------------------------------

  /** The sample chain: heights and vertical velocities, index-aligned. */
  datatype Chain = Chain(ys: seq<real>, vs: seq<real>)

  /**
   * New velocity of one interior point: the restoring term proportional to
   * its extension from `rest` and the damping loss proportional to its
   * velocity, both added directly to the velocity.
   */
  function SpringVelocity(y: real, v: real, rest: real, stiffness: real, dampening: real): real
  {
    var extension := y - rest;
    var loss := -dampening * v;
    v + (-stiffness * extension + loss)
  }

  /** Velocity of point `i` after the spring/damper phase: only interior points change. */
  function NewVelocity(c: Chain, rest: real, stiffness: real, dampening: real, i: nat): real
    requires |c.ys| == |c.vs| && i < |c.ys|
  {
    if 0 < i < |c.ys| - 1 then SpringVelocity(c.ys[i], c.vs[i], rest, stiffness, dampening) else c.vs[i]
  }

  /** Height of point `i` after the spring/damper phase, moved by its new velocity. */
  function NewHeight(c: Chain, rest: real, stiffness: real, dampening: real, dt: real, i: nat): real
    requires |c.ys| == |c.vs| && i < |c.ys|
  {
    if 0 < i < |c.ys| - 1 then c.ys[i] + NewVelocity(c, rest, stiffness, dampening, i) * dt else c.ys[i]
  }

  /**
   * The spring/damper phase of one frame. Interior points take the new
   * velocity and then move by the NEW velocity times `dt` (semi-implicit
   * Euler); the first and last points are left alone.
   */
  function Integrate(c: Chain, rest: real, stiffness: real, dampening: real, dt: real): (r: Chain)
    requires |c.ys| == |c.vs|
    ensures |r.ys| == |r.vs| == |c.ys|
    ensures |c.ys| > 0 ==> r.ys[0] == c.ys[0] && r.vs[0] == c.vs[0]
    ensures |c.ys| > 0 ==> r.ys[|c.ys| - 1] == c.ys[|c.ys| - 1] && r.vs[|c.ys| - 1] == c.vs[|c.ys| - 1]
  {
    var n := |c.ys|;
    Chain(seq(n, i requires 0 <= i < n => NewHeight(c, rest, stiffness, dampening, dt, i)),
          seq(n, i requires 0 <= i < n => NewVelocity(c, rest, stiffness, dampening, i)))
  }

  /**
   * Each interior point's velocity changes by the restoring term minus the
   * damping loss, and its height then moves by the NEW velocity times `dt`.
   */
  lemma IntegrateInteriorPoint(c: Chain, rest: real, stiffness: real, dampening: real, dt: real, i: nat)
    requires |c.ys| == |c.vs| && 0 < i < |c.ys| - 1
    ensures var r := Integrate(c, rest, stiffness, dampening, dt);
      r.vs[i] - c.vs[i] == -stiffness * (c.ys[i] - rest) - dampening * c.vs[i] &&
      r.ys[i] == c.ys[i] + r.vs[i] * dt
  {
  }

  // ---------------------------------------------------------------------
  // Spread passes
  // ---------------------------------------------------------------------

  /** What point `m` receives from its left neighbour in one sweep (none for m = 0). */
  function FromLeft(ys: seq<real>, f: real, m: nat): real
    requires m < |ys|
  {
    if m > 0 then f * (ys[m - 1] - ys[m]) else 0.0
  }

  /** What point `m` receives from its right neighbour in one sweep (none for the last point). */
  function FromRight(ys: seq<real>, f: real, m: nat): real
    requires m < |ys|
  {
    if m < |ys| - 1 then f * (ys[m + 1] - ys[m]) else 0.0
  }

  /** The velocity change of point `m` in one sweep over fixed heights. */
  function SpreadDelta(ys: seq<real>, f: real, m: nat): real
    requires m < |ys|
  {
    FromLeft(ys, f, m) + FromRight(ys, f, m)
  }

  /** The velocity changes of all points in one sweep. */
  function Deltas(ys: seq<real>, f: real): (d: seq<real>)
    ensures |d| == |ys|
    ensures forall m :: 0 <= m < |ys| ==> d[m] == SpreadDelta(ys, f, m)
  {
    seq(|ys|, m requires 0 <= m < |ys| => SpreadDelta(ys, f, m))
  }

  /** One sweep: heights are not touched, so every point gains its delta. */
  function SpreadPass(ys: seq<real>, vs: seq<real>, f: real): (r: seq<real>)
    requires |ys| == |vs|
    ensures |r| == |vs|
  {
    AddPointwise(vs, Deltas(ys, f))
  }

  /** `p` sweeps, one after the other, over the same heights. */
  function SpreadPasses(ys: seq<real>, vs: seq<real>, f: real, p: nat): (r: seq<real>)
    requires |ys| == |vs|
    ensures |r| == |vs|
  {
    if p == 0 then vs else SpreadPass(ys, SpreadPasses(ys, vs, f, p - 1), f)
  }

  /** Since heights stay fixed, `p` sweeps add `p` times the same delta. */
  lemma {:induction false} SpreadPassesClosedForm(ys: seq<real>, vs: seq<real>, f: real, p: nat, m: nat)
    requires |ys| == |vs| && m < |vs|
    ensures SpreadPasses(ys, vs, f, p)[m] == vs[m] + (p as real) * SpreadDelta(ys, f, m)
  {
    if p > 0 {
      SpreadPassesClosedForm(ys, vs, f, p - 1, m);
    }
  }

  /** The deltas of the first `k` points telescope to the last height step. */
  lemma {:induction false} DeltaPrefixSum(ys: seq<real>, f: real, k: nat)
    requires 1 <= k < |ys|
    ensures Sum(Deltas(ys, f)[..k]) == f * (ys[k] - ys[k - 1])
  {
    var d := Deltas(ys, f);
    assert d[..k][..k - 1] == d[..k - 1];
    if k > 1 {
      DeltaPrefixSum(ys, f, k - 1);
    }
  }

  /** The deltas of one sweep cancel out across the whole chain. */
  lemma DeltasSumToZero(ys: seq<real>, f: real)
    ensures Sum(Deltas(ys, f)) == 0.0
  {
    var n := |ys|;
    var d := Deltas(ys, f);
    if n == 1 {
      assert d[..0] == [];
    } else if n >= 2 {
      DeltaPrefixSum(ys, f, n - 1);
      assert d[..n] == d;
    }
  }

  /** A sweep moves velocity between neighbours and keeps the total. */
  lemma SpreadPassKeepsTotal(ys: seq<real>, vs: seq<real>, f: real)
    requires |ys| == |vs|
    ensures Sum(SpreadPass(ys, vs, f)) == Sum(vs)
  {
    SumAddPointwise(vs, Deltas(ys, f));
    DeltasSumToZero(ys, f);
  }

  /** Any number of sweeps keeps the total velocity. */
  lemma {:induction false} SpreadPassesKeepTotal(ys: seq<real>, vs: seq<real>, f: real, p: nat)
    requires |ys| == |vs|
    ensures Sum(SpreadPasses(ys, vs, f, p)) == Sum(vs)
  {
    if p > 0 {
      SpreadPassesKeepTotal(ys, vs, f, p - 1);
      SpreadPassKeepsTotal(ys, SpreadPasses(ys, vs, f, p - 1), f);
    }
  }

  // ---------------------------------------------------------------------
  // The whole frame
  // ---------------------------------------------------------------------

  /** The number of sweeps a signed pass count yields: none when negative. */
  function PassCount(passes: int): nat
  {
    if passes < 0 then 0 else passes
  }

  /** One frame: the spring/damper phase followed by the spread sweeps. */
  function Step(c: Chain, rest: real, stiffness: real, dampening: real, dt: real,
                spreadFactor: real, passes: int): (r: Chain)
    requires |c.ys| == |c.vs|
    ensures |r.ys| == |r.vs| == |c.ys|
  {
    var m := Integrate(c, rest, stiffness, dampening, dt);
    Chain(m.ys, SpreadPasses(m.ys, m.vs, spreadFactor, PassCount(passes)))
  }

  /**
   * A frame moves neither boundary point, and its spread phase moves no
   * point at all: the heights are those of the spring/damper phase.
   */
  lemma StepMovesOnlyInteriorPoints(c: Chain, rest: real, stiffness: real, dampening: real, dt: real,
                                    spreadFactor: real, passes: int)
    requires |c.ys| == |c.vs| >= 2
    ensures Step(c, rest, stiffness, dampening, dt, spreadFactor, passes).ys
         == Integrate(c, rest, stiffness, dampening, dt).ys
    ensures Step(c, rest, stiffness, dampening, dt, spreadFactor, passes).ys[0] == c.ys[0]
    ensures Step(c, rest, stiffness, dampening, dt, spreadFactor, passes).ys[|c.ys| - 1] == c.ys[|c.ys| - 1]
  {
  }

  /** The spread phase of a frame leaves the spring/damper total velocity as it was. */
  lemma StepSpreadKeepsTotal(c: Chain, rest: real, stiffness: real, dampening: real, dt: real,
                             spreadFactor: real, passes: int)
    requires |c.ys| == |c.vs|
    ensures Sum(Step(c, rest, stiffness, dampening, dt, spreadFactor, passes).vs)
         == Sum(Integrate(c, rest, stiffness, dampening, dt).vs)
  {
    var m := Integrate(c, rest, stiffness, dampening, dt);
    SpreadPassesKeepTotal(m.ys, m.vs, spreadFactor, PassCount(passes));
  }

  /** The spring/damper phase leaves a chain lying flat at `rest` with zero velocity as it is. */
  lemma IntegrateKeepsRest(c: Chain, rest: real, stiffness: real, dampening: real, dt: real)
    requires |c.ys| == |c.vs|
    requires forall i :: 0 <= i < |c.ys| ==> c.ys[i] == rest && c.vs[i] == 0.0
    ensures Integrate(c, rest, stiffness, dampening, dt) == c
  {
    var n := |c.ys|;
    var m := Integrate(c, rest, stiffness, dampening, dt);
    forall i | 0 < i < n - 1
      ensures m.vs[i] == 0.0 && m.ys[i] == rest
    {
      IntegrateInteriorPoint(c, rest, stiffness, dampening, dt, i);
      assert -stiffness * (c.ys[i] - rest) == 0.0;
      assert -dampening * c.vs[i] == 0.0;
      assert m.vs[i] * dt == 0.0;
    }
    assert m.ys == c.ys;
    assert m.vs == c.vs;
  }

  /** Sweeps over a level surface change no velocity. */
  lemma SpreadOverLevelSurface(ys: seq<real>, vs: seq<real>, f: real, p: nat, h: real)
    requires |ys| == |vs|
    requires forall i :: 0 <= i < |ys| ==> ys[i] == h
    ensures SpreadPasses(ys, vs, f, p) == vs
  {
    forall m | 0 <= m < |vs|
      ensures SpreadPasses(ys, vs, f, p)[m] == vs[m]
    {
      SpreadPassesClosedForm(ys, vs, f, p, m);
      assert SpreadDelta(ys, f, m) == 0.0;
    }
  }

  /** A chain lying flat at `rest` with zero velocity stays so through a frame. */
  lemma RestIsFixedPoint(c: Chain, rest: real, stiffness: real, dampening: real, dt: real,
                         spreadFactor: real, passes: int)
    requires |c.ys| == |c.vs|
    requires forall i :: 0 <= i < |c.ys| ==> c.ys[i] == rest && c.vs[i] == 0.0
    ensures Step(c, rest, stiffness, dampening, dt, spreadFactor, passes) == c
  {
    IntegrateKeepsRest(c, rest, stiffness, dampening, dt);
    SpreadOverLevelSurface(c.ys, c.vs, spreadFactor, PassCount(passes), rest);
  }

  /**
   * Boundary velocities are not pinned: spreading gives the first point of
   * this three-point chain a velocity although its height never changes.
   */
  lemma BoundaryVelocityCanChange()
    ensures var c := Chain([0.0, 1.0, 0.0], [0.0, 0.0, 0.0]);
      var r := Step(c, 0.0, 0.0, 0.0, 1.0, 1.0, 1);
      r.ys[0] == 0.0 && r.vs[0] == 1.0
  {
    var c := Chain([0.0, 1.0, 0.0], [0.0, 0.0, 0.0]);
    var m := Integrate(c, 0.0, 0.0, 0.0, 1.0);
    assert m.vs[1] == 0.0;
    assert m.ys == c.ys;
    SpreadPassesClosedForm(m.ys, m.vs, 1.0, 1, 0);
  }
}
