/** The spinning-spheres animation: two spheres whose radius is perturbed by the
    real part of a tetrahedral spherical harmonic, oscillating in opposite phase
    and spinning about the z axis in opposite directions. The harmonic itself is
    an input: each grid sample carries its (phi, theta) and the value of
    `Y_tet_real` there. */
module Spheres {
  import opened Numerics

  const RBase: real := 1.0
  const Amplitude: real := 0.5
  const SpinSpeed: real := 0.5
  const NumFrames: nat := 60

  datatype Point3 = Point3(x: real, y: real, z: real)

  /** One sample of the (phi, theta) mesh grid and the harmonic's value there. */
  datatype GridPoint = GridPoint(phi: real, theta: real, y: real)

  /** The two rotated surfaces of one animation frame, sampled on the grid. */
  datatype SphereFrame = SphereFrame(sphere1: seq<Point3>, sphere2: seq<Point3>)

  function SquaredNorm(p: Point3): real {
    Sq(p.x) + Sq(p.y) + Sq(p.z)
  }

  // ----- rotation about the z axis -----

  /** `rotate_z`: a rotation of (x, y) by `angle`; z is carried over unchanged. */
  function RotateZ(t: Trig, p: Point3, angle: real): (q: Point3)
    ensures q.z == p.z
  {
    Point3(p.x * t.cos(angle) - p.y * t.sin(angle), p.x * t.sin(angle) + p.y * t.cos(angle), p.z)
  }

  /** Rotation keeps the distance from the z axis. */
  lemma RotateZPreservesRadius(t: Trig, p: Point3, angle: real)
    requires Lawful(t)
    ensures Sq(RotateZ(t, p, angle).x) + Sq(RotateZ(t, p, angle).y) == Sq(p.x) + Sq(p.y)
  {
    var c, s := t.cos(angle), t.sin(angle);
    assert c * c + s * s == 1.0;
    RotationAlgebra(p.x, p.y, c, s);
  }

  /** Rotation keeps the distance from the centre. */
  lemma RotateZPreservesNorm(t: Trig, p: Point3, angle: real)
    requires Lawful(t)
    ensures SquaredNorm(RotateZ(t, p, angle)) == SquaredNorm(p)
  {
    RotateZPreservesRadius(t, p, angle);
  }

  lemma RotationAlgebra(x: real, y: real, c: real, s: real)
    requires c * c + s * s == 1.0
    ensures Sq(x * c - y * s) + Sq(x * s + y * c) == Sq(x) + Sq(y)
  {
    calc {
      (x * c - y * s) * (x * c - y * s) + (x * s + y * c) * (x * s + y * c);
      (x * x) * (c * c + s * s) + (y * y) * (c * c + s * s);
      (x * x) * 1.0 + (y * y) * 1.0;
    }
  }

  /** Angle 0 leaves the point where it is. */
  lemma RotateZAtZero(t: Trig, p: Point3)
    requires Lawful(t)
    ensures RotateZ(t, p, 0.0) == p
  {
  }

  // ----- per-frame parameters -----

  /** `t = i * 2 * pi / num_frames`. */
  function FrameTime(t: Trig, i: nat): real {
    i as real * 2.0 * t.pi / NumFrames as real
  }

  /** The radius `r_base + amplitude * Y * cos(phase)` at one grid sample. */
  function Radius(t: Trig, g: GridPoint, phase: real): real {
    RBase + Amplitude * g.y * t.cos(phase)
  }

  /** The spherical-to-Cartesian conversion at radius `r`. */
  function Cartesian(t: Trig, g: GridPoint, r: real): Point3 {
    FromSpherical(r, t.sin(g.phi), t.cos(g.phi), t.sin(g.theta), t.cos(g.theta))
  }

  /** `(r sin(phi) cos(theta), r sin(phi) sin(theta), r cos(phi))` from the four sines and cosines. */
  function FromSpherical(r: real, sp: real, cp: real, st: real, ct: real): Point3 {
    Point3(r * sp * ct, r * sp * st, r * cp)
  }

  /** One sphere's surface for oscillation phase `phase`, rotated by `angle`. */
  function Surface(t: Trig, grid: seq<GridPoint>, phase: real, angle: real): (s: seq<Point3>)
    ensures |s| == |grid|
  {
    seq(|grid|, k requires 0 <= k < |grid| => RotateZ(t, Cartesian(t, grid[k], Radius(t, grid[k], phase)), angle))
  }

  /** Frame `i`: sphere 1 at phase t spun by `spin_speed * t`, sphere 2 at phase
      t + pi spun by `-spin_speed * t`. */
  function FrameAt(t: Trig, grid: seq<GridPoint>, i: nat): SphereFrame {
    var time := FrameTime(t, i);
    SphereFrame(Surface(t, grid, time, SpinSpeed * time), Surface(t, grid, time + t.pi, -SpinSpeed * time))
  }

  /** The figure's initial data: t = 0 and both angles 0. */
  function InitialFrame(t: Trig, grid: seq<GridPoint>): SphereFrame {
    SphereFrame(Surface(t, grid, 0.0, 0.0), Surface(t, grid, 0.0 + t.pi, 0.0))
  }

  /** Every frame time lies in [0, 2pi): the 60 frames cover one period without
      repeating the first. */
  lemma FrameTimeRange(t: Trig, i: nat)
    requires 0.0 < t.pi && i < NumFrames
    ensures 0.0 <= FrameTime(t, i)
    ensures FrameTime(t, i) < 2.0 * t.pi
  {
    FrameTimeOver60(t, i);
    TurnFraction(i as real, t.pi);
  }

  lemma FrameTimeOver60(t: Trig, i: nat)
    ensures FrameTime(t, i) == (i as real * 2.0 * t.pi) / 60.0
  {
    assert NumFrames as real == 60.0;
  }

  lemma TurnFraction(a: real, p: real)
    requires 0.0 <= a < 60.0 && 0.0 < p
    ensures 0.0 <= (a * 2.0 * p) / 60.0
    ensures (a * 2.0 * p) / 60.0 < 2.0 * p
  {
    MulNonneg(a * 2.0, p);
    MulPos((60.0 - a) * 2.0, p);
    assert 0.0 < (60.0 - a) * 2.0 * p;
  }

  /** The two spheres oscillate in opposite phase: their perturbations are
      negatives of each other, so their radii always sum to `2 * r_base`. */
  lemma OppositePerturbations(t: Trig, g: GridPoint, time: real)
    requires Lawful(t)
    ensures Radius(t, g, time + t.pi) - RBase == -(Radius(t, g, time) - RBase)
    ensures Radius(t, g, time) + Radius(t, g, time + t.pi) == 2.0 * RBase
  {
    assert t.cos(time + t.pi) == -t.cos(time);
  }

  /** The radius never leaves `r_base +- amplitude * |Y|`. */
  lemma RadiusBound(t: Trig, g: GridPoint, phase: real)
    requires Lawful(t)
    ensures Abs(Radius(t, g, phase) - RBase) <= Amplitude * Abs(g.y)
  {
    var c := t.cos(phase);
    assert -1.0 <= c <= 1.0;
    ProductBound(g.y, c);
  }

  lemma ProductBound(y: real, c: real)
    requires -1.0 <= c <= 1.0
    ensures Abs(y * c) <= Abs(y)
  {
    var a := Abs(y);
    MulNonneg(a, 1.0 - c);
    MulNonneg(a, 1.0 + c);
    assert Abs(y * c) == Abs(a * c) by {
      if y < 0.0 { assert y * c == -(a * c); }
    }
  }

  /** A point built at radius `r` lies at distance |r| from the centre. */
  lemma CartesianNorm(t: Trig, g: GridPoint, r: real)
    requires Lawful(t)
    ensures SquaredNorm(Cartesian(t, g, r)) == Sq(r)
  {
    SphericalAlgebra(r, t.sin(g.phi), t.cos(g.phi), t.sin(g.theta), t.cos(g.theta));
  }

  lemma SphericalAlgebra(r: real, sp: real, cp: real, st: real, ct: real)
    requires ct * ct + st * st == 1.0 && cp * cp + sp * sp == 1.0
    ensures SquaredNorm(FromSpherical(r, sp, cp, st, ct)) == Sq(r)
  {
    calc {
      (r * sp * ct) * (r * sp * ct) + (r * sp * st) * (r * sp * st) + (r * cp) * (r * cp);
      (r * r) * (sp * sp) * (ct * ct + st * st) + (r * r) * (cp * cp);
      (r * r) * (sp * sp) * 1.0 + (r * r) * (cp * cp);
      (r * r) * (cp * cp + sp * sp);
      (r * r) * 1.0;
    }
  }

  // ----- fixed axis range -----

  /** `np.max(np.abs(Y_tet_real))` over the grid. */
  function MaxAbsY(grid: seq<GridPoint>): (m: real)
    requires |grid| > 0
    ensures forall k :: 0 <= k < |grid| ==> Abs(grid[k].y) <= m
    ensures exists k :: 0 <= k < |grid| && m == Abs(grid[k].y)
  {
    if |grid| == 1 then Abs(grid[0].y)
    else
      var rest := MaxAbsY(grid[1..]);
      assert forall k :: 1 <= k < |grid| ==> grid[k] == grid[1..][k - 1];
      if Abs(grid[0].y) >= rest then Abs(grid[0].y) else rest
  }

  /** `max_radius = r_base + amplitude * max |Y|`, the half-width of the fixed axes. */
  function MaxRadius(grid: seq<GridPoint>): real
    requires |grid| > 0
  {
    RBase + Amplitude * MaxAbsY(grid)
  }

  /** A surface point of either sphere in any frame lies within `max_radius` of
      the centre, so inside the fixed axis cube `[-1.1 max_radius, 1.1 max_radius]`. */
  lemma SurfaceWithinAxes(t: Trig, grid: seq<GridPoint>, phase: real, angle: real, k: nat)
    requires Lawful(t) && k < |grid|
    ensures SquaredNorm(Surface(t, grid, phase, angle)[k]) <= Sq(MaxRadius(grid))
    ensures var p, m := Surface(t, grid, phase, angle)[k], MaxRadius(grid);
            Sq(p.x) <= Sq(m) && Sq(p.y) <= Sq(m) && Sq(p.z) <= Sq(m)
  {
    var g := grid[k];
    var r := Radius(t, g, phase);
    var m := MaxRadius(grid);
    var base := Cartesian(t, g, r);
    var p := Surface(t, grid, phase, angle)[k];
    assert p == RotateZ(t, base, angle);
    RotateZPreservesNorm(t, base, angle);
    CartesianNorm(t, g, r);
    RadiusBound(t, g, phase);
    assert Amplitude * Abs(g.y) <= Amplitude * MaxAbsY(grid);
    assert Abs(r) <= m;
    AbsSquare(r, m);
    assert SquaredNorm(p) <= Sq(m);
  }

  /** The initial figure is frame 0: both spheres unrotated, sphere 1 at
      radius `r_base + amplitude * Y` and sphere 2 at `r_base - amplitude * Y`. */
  lemma InitialFrameIsFrameZero(t: Trig, grid: seq<GridPoint>)
    requires Lawful(t)
    ensures InitialFrame(t, grid) == FrameAt(t, grid, 0)
    ensures forall k :: 0 <= k < |grid| ==>
              InitialFrame(t, grid).sphere1[k] == Cartesian(t, grid[k], RBase + Amplitude * grid[k].y)
    ensures forall k :: 0 <= k < |grid| ==>
              InitialFrame(t, grid).sphere2[k] == Cartesian(t, grid[k], RBase - Amplitude * grid[k].y)
  {
    FrameTimeOver60(t, 0);
    assert FrameTime(t, 0) == 0.0;
    forall k | 0 <= k < |grid|
      ensures InitialFrame(t, grid).sphere1[k] == Cartesian(t, grid[k], RBase + Amplitude * grid[k].y)
      ensures InitialFrame(t, grid).sphere2[k] == Cartesian(t, grid[k], RBase - Amplitude * grid[k].y)
    {
      InitialPoint(t, grid[k]);
    }
  }

  lemma InitialPoint(t: Trig, g: GridPoint)
    requires Lawful(t)
    ensures RotateZ(t, Cartesian(t, g, Radius(t, g, 0.0)), 0.0) == Cartesian(t, g, RBase + Amplitude * g.y)
    ensures RotateZ(t, Cartesian(t, g, Radius(t, g, 0.0 + t.pi)), 0.0) == Cartesian(t, g, RBase - Amplitude * g.y)
  {
    assert t.cos(0.0 + t.pi) == -t.cos(0.0);
    assert Radius(t, g, 0.0) == RBase + Amplitude * g.y;
    assert Radius(t, g, 0.0 + t.pi) == RBase - Amplitude * g.y;
    RotateZAtZero(t, Cartesian(t, g, Radius(t, g, 0.0)));
    RotateZAtZero(t, Cartesian(t, g, Radius(t, g, 0.0 + t.pi)));
  }

  /** The animation loop: one frame per index, appended in order. */
  method BuildFrames(t: Trig, grid: seq<GridPoint>) returns (frames: seq<SphereFrame>)
    ensures |frames| == NumFrames
    ensures forall i :: 0 <= i < NumFrames ==> frames[i] == FrameAt(t, grid, i)
  {
    frames := [];
    for i := 0 to NumFrames
      invariant |frames| == i
      invariant forall j :: 0 <= j < i ==> frames[j] == FrameAt(t, grid, j)
    {
      var time := i as real * 2.0 * t.pi / NumFrames as real;
      var angle1 := SpinSpeed * time;
      var angle2 := -SpinSpeed * time;
      var sphere1 := Surface(t, grid, time, angle1);
      var sphere2 := Surface(t, grid, time + t.pi, angle2);
      assert time == FrameTime(t, i);
      assert sphere1 == FrameAt(t, grid, i).sphere1;
      assert sphere2 == FrameAt(t, grid, i).sphere2;
      frames := frames + [SphereFrame(sphere1, sphere2)];
    }
  }
}
