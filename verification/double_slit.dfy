/** The particle generator of the double-slit animation: each particle leaves the
    source, crosses the barrier at one of two slits, and lands on the screen at a
    height drawn by rejection sampling against the two-slit intensity
    `cos^2(pi * d * (y - y_center) / (lambda * L))`.
    Randomness is an input: `u` is the stream of `np.random.random()` draws, consumed
    in the order the script makes them, and `gauss(i)` is particle i's draw of
    `np.random.normal(0, 0.3)`. */
module DoubleSlit {
  import opened Numerics

  const NParticles: nat := 1500
  const SourceX: real := 0.0
  const SlitX: real := 5.0
  const ScreenX: real := 10.0
  const Slit1Y: real := 2.0
  const Slit2Y: real := -2.0
  const SlitWidth: real := 0.4
  const Wavelength: real := 0.8
  const MaxAttempts: nat := 100
  /** Half-width of the window candidates are drawn from. */
  const Window: real := 4.0

  /** `d`, the distance between the slits. */
  const SlitSeparation: real := Abs(Slit1Y - Slit2Y)
  /** `L`, the distance from the slits to the screen. */
  const ScreenDistance: real := ScreenX - SlitX
  /** The centre of the pattern, half-way between the slits. */
  const YCenter: real := (Slit1Y + Slit2Y) / 2.0

  /** Every draw of `np.random.random()` lies in [0, 1). */
  ghost predicate UnitDraws(u: nat -> real) {
    forall k :: 0.0 <= u(k) < 1.0
  }

  /** `np.random.uniform(lo, hi)` computed from the unit draw `d`. */
  function Uniform(lo: real, hi: real, d: real): real {
    lo + (hi - lo) * d
  }

  /** A uniform draw lies in [lo, hi). */
  lemma UniformInRange(lo: real, hi: real, d: real)
    requires lo < hi && 0.0 <= d < 1.0
    ensures lo <= Uniform(lo, hi, d) < hi
  {
    MulNonneg(hi - lo, d);
    MulPos(hi - lo, 1.0 - d);
    assert 0.0 < (hi - lo) * (1.0 - d);
    assert 0.0 <= (hi - lo) * d;
    assert (hi - lo) * (1.0 - d) == (hi - lo) - (hi - lo) * d;
  }

  /** `choose_slit`: the upper slit exactly when the draw is below one half. */
  function ChooseSlit(d: real): (y: real)
    ensures y == Slit1Y || y == Slit2Y
    ensures y == Slit1Y <==> d < 0.5
  {
    if d < 0.5 then Slit1Y else Slit2Y
  }

  /** The phase `pi * d * (y - y_center) / (lambda * L)` at screen height `y`. */
  function Phase(t: Trig, y: real): real {
    t.pi * SlitSeparation * (y - YCenter) / (Wavelength * ScreenDistance)
  }

  /** The two-slit intensity at screen height `y`. */
  function Intensity(t: Trig, y: real): real {
    Sq(t.cos(Phase(t, y)))
  }

  /** The intensity is an acceptance probability: it lies in [0, 1] and is 1 at the centre. */
  lemma IntensityRange(t: Trig, y: real)
    requires Lawful(t)
    ensures 0.0 <= Intensity(t, y) <= 1.0
  {
    CosSquareBound(t, Phase(t, y));
  }

  lemma CosSquareBound(t: Trig, a: real)
    requires Lawful(t)
    ensures 0.0 <= Sq(t.cos(a)) <= 1.0
  {
    UnitSquare(t.cos(a), Abs(t.cos(a)));
  }

  lemma UnitSquare(c: real, a: real)
    requires -1.0 <= c <= 1.0 && a == Abs(c)
    ensures Sq(c) <= 1.0
  {
    assert Sq(c) == a * a;
    MulNonneg(a, 1.0 - a);
    assert 0.0 <= a * (1.0 - a);
  }

  /** The centre of the pattern is a bright fringe: it is always accepted. */
  lemma IntensityAtCenter(t: Trig)
    requires Lawful(t)
    ensures Intensity(t, YCenter) == 1.0
  {
    assert SlitSeparation == 4.0 && YCenter == 0.0 && Wavelength * ScreenDistance == 4.0;
    assert t.pi * 4.0 * 0.0 == 0.0;
  }

  // ----- the rejection sampler -----

  /** The candidate of attempt `a` of a sampler whose first draw is `u(start)`. */
  function Candidate(u: nat -> real, start: nat, a: nat): real {
    Uniform(YCenter - Window, YCenter + Window, u(start + 2 * a))
  }

  /** Whether attempt `a` accepts its candidate. */
  predicate Accepts(t: Trig, u: nat -> real, start: nat, a: nat) {
    u(start + 2 * a + 1) < Intensity(t, Candidate(u, start, a))
  }

  /** What the sampler leaves behind: `final_y`, the value of `attempts`, and the
      position of the next unused draw. */
  datatype Sample = Sample(y: real, attempts: nat, next: nat)

  /** The sampler from attempt `attempts` on, whose draws start at `pos`. */
  function SampleFrom(t: Trig, u: nat -> real, pos: nat, attempts: nat): Sample
    requires attempts <= MaxAttempts
    decreases MaxAttempts - attempts
  {
    if attempts == MaxAttempts then Sample(YCenter, attempts, pos)
    else
      var candidate := Uniform(YCenter - Window, YCenter + Window, u(pos));
      if u(pos + 1) < Intensity(t, candidate) then Sample(candidate, attempts, pos + 2)
      else SampleFrom(t, u, pos + 2, attempts + 1)
  }

  function ScreenSample(t: Trig, u: nat -> real, start: nat): Sample {
    SampleFrom(t, u, start, 0)
  }

  /** From attempt `a` on, the sampler stops at the first accepting attempt, or
      falls back to the centre after `max_attempts` rejections. */
  lemma {:induction false} SampleFromFirstAccepted(t: Trig, u: nat -> real, start: nat, a: nat)
    requires a <= MaxAttempts
    ensures var s := SampleFrom(t, u, start + 2 * a, a);
            && a <= s.attempts <= MaxAttempts
            && (forall b :: a <= b < s.attempts ==> !Accepts(t, u, start, b))
            && (s.attempts < MaxAttempts ==>
                  Accepts(t, u, start, s.attempts) && s.y == Candidate(u, start, s.attempts)
                  && s.next == start + 2 * (s.attempts + 1))
            && (s.attempts == MaxAttempts ==> s.y == YCenter && s.next == start + 2 * MaxAttempts)
    decreases MaxAttempts - a
  {
    if a < MaxAttempts && !Accepts(t, u, start, a) {
      assert start + 2 * a + 2 == start + 2 * (a + 1);
      SampleFromFirstAccepted(t, u, start, a + 1);
    }
  }

  /** `final_y` is the first accepted candidate; the centre is returned exactly when
      all 100 candidates were rejected; either way it lies in the sampling window. */
  lemma SampleIsFirstAccepted(t: Trig, u: nat -> real, start: nat)
    requires UnitDraws(u)
    ensures var s := ScreenSample(t, u, start);
            && s.attempts <= MaxAttempts
            && (forall b :: 0 <= b < s.attempts ==> !Accepts(t, u, start, b))
            && (s.attempts < MaxAttempts ==>
                  Accepts(t, u, start, s.attempts) && s.y == Candidate(u, start, s.attempts))
            && (s.attempts == MaxAttempts <==> forall b :: 0 <= b < MaxAttempts ==> !Accepts(t, u, start, b))
            && (s.attempts == MaxAttempts ==> s.y == YCenter)
            && YCenter - Window <= s.y <= YCenter + Window
  {
    SampleFromFirstAccepted(t, u, start, 0);
    var s := ScreenSample(t, u, start);
    if s.attempts < MaxAttempts {
      UniformInRange(YCenter - Window, YCenter + Window, u(start + 2 * s.attempts));
    }
  }

  /** The bounded `while attempts < max_attempts` loop with its `else` fallback. */
  method SampleScreenY(t: Trig, u: nat -> real, start: nat) returns (finalY: real, attempts: nat, next: nat)
    requires UnitDraws(u)
    ensures Sample(finalY, attempts, next) == ScreenSample(t, u, start)
    ensures attempts <= MaxAttempts
    ensures forall b :: 0 <= b < attempts ==> !Accepts(t, u, start, b)
    ensures attempts < MaxAttempts ==> Accepts(t, u, start, attempts) && finalY == Candidate(u, start, attempts)
    ensures attempts == MaxAttempts ==> finalY == YCenter
    ensures YCenter - Window <= finalY <= YCenter + Window
  {
    attempts := 0;
    var pos := start;
    while attempts < MaxAttempts
      invariant attempts <= MaxAttempts && pos == start + 2 * attempts
      invariant SampleFrom(t, u, pos, attempts) == ScreenSample(t, u, start)
      invariant forall b :: 0 <= b < attempts ==> !Accepts(t, u, start, b)
      decreases MaxAttempts - attempts
    {
      var yCandidate := Uniform(YCenter - Window, YCenter + Window, u(pos));
      var intensity := Intensity(t, yCandidate);
      if u(pos + 1) < intensity {
        UniformInRange(YCenter - Window, YCenter + Window, u(pos));
        finalY, next := yCandidate, pos + 2;
        return;
      }
      attempts := attempts + 1;
      pos := pos + 2;
    }
    finalY, next := YCenter, pos;
  }

  // ----- trajectories -----

  /** The three checkpoints of one coordinate: at the source, the slit and the screen. */
  datatype Checkpoints = Checkpoints(source: real, slit: real, screen: real)

  /** One particle's path, with the height of the slit it went through. */
  datatype Trajectory = Trajectory(x: Checkpoints, y: Checkpoints, z: Checkpoints, slit: real)

  /** The trajectory of particle `i`, whose draws start at `pos`, and the next unused draw. */
  function ParticleAt(t: Trig, u: nat -> real, gauss: nat -> real, i: nat, pos: nat): (Trajectory, nat) {
    var slitY := ChooseSlit(u(pos));
    var slitZ := Uniform(-SlitWidth, SlitWidth, u(pos + 1));
    var s := ScreenSample(t, u, pos + 2);
    (Trajectory(Checkpoints(SourceX, SlitX, ScreenX), Checkpoints(0.0, slitY, s.y),
                Checkpoints(0.0, slitZ, gauss(i)), slitY),
     s.next)
  }

  /** The first `n` trajectories, and the position of the next unused draw. */
  function GeneratedUpTo(t: Trig, u: nat -> real, gauss: nat -> real, n: nat): (seq<Trajectory>, nat) {
    if n == 0 then ([], 0)
    else
      var (prev, pos) := GeneratedUpTo(t, u, gauss, n - 1);
      var (traj, next) := ParticleAt(t, u, gauss, n - 1, pos);
      (prev + [traj], next)
  }

  function Trajectories(t: Trig, u: nat -> real, gauss: nat -> real): seq<Trajectory> {
    GeneratedUpTo(t, u, gauss, NParticles).0
  }

  /** What every trajectory satisfies: x checkpoints at source, slit and screen;
      start at the origin; `slit` is the y checkpoint at the barrier and one of the
      two slits; the depth at the slit within the slit's half-width; the landing
      height within the sampling window. */
  predicate WellFormed(traj: Trajectory) {
    && traj.x == Checkpoints(SourceX, SlitX, ScreenX)
    && traj.y.source == 0.0 && traj.z.source == 0.0
    && traj.slit == traj.y.slit
    && (traj.slit == Slit1Y || traj.slit == Slit2Y)
    && -SlitWidth <= traj.z.slit <= SlitWidth
    && YCenter - Window <= traj.y.screen <= YCenter + Window
  }

  lemma ParticleWellFormed(t: Trig, u: nat -> real, gauss: nat -> real, i: nat, pos: nat)
    requires UnitDraws(u)
    ensures WellFormed(ParticleAt(t, u, gauss, i, pos).0)
  {
    UniformInRange(-SlitWidth, SlitWidth, u(pos + 1));
    SampleIsFirstAccepted(t, u, pos + 2);
  }

  /** Exactly one well-formed trajectory per particle generated so far. */
  lemma {:induction false} TrajectoriesWellFormed(t: Trig, u: nat -> real, gauss: nat -> real, n: nat)
    requires UnitDraws(u)
    ensures |GeneratedUpTo(t, u, gauss, n).0| == n
    ensures forall k :: 0 <= k < n ==> WellFormed(GeneratedUpTo(t, u, gauss, n).0[k])
  {
    if n > 0 {
      TrajectoriesWellFormed(t, u, gauss, n - 1);
      var (prev, pos) := GeneratedUpTo(t, u, gauss, n - 1);
      ParticleWellFormed(t, u, gauss, n - 1, pos);
    }
  }

  /** The body of the generation loop: the draws of one particle, in the script's order. */
  method GenerateParticle(t: Trig, u: nat -> real, gauss: nat -> real, i: nat, pos: nat)
    returns (trajectory: Trajectory, next: nat)
    requires UnitDraws(u)
    ensures (trajectory, next) == ParticleAt(t, u, gauss, i, pos)
    ensures WellFormed(trajectory)
  {
    var startY, startZ := 0.0, 0.0;
    var slitY := ChooseSlit(u(pos));
    var slitZ := Uniform(-SlitWidth, SlitWidth, u(pos + 1));
    var finalY, attempts;
    finalY, attempts, next := SampleScreenY(t, u, pos + 2);
    var finalZ := gauss(i);
    trajectory := Trajectory(Checkpoints(SourceX, SlitX, ScreenX), Checkpoints(startY, slitY, finalY),
                             Checkpoints(startZ, slitZ, finalZ), slitY);
    UniformInRange(-SlitWidth, SlitWidth, u(pos + 1));
  }

  /** The generation loop: one trajectory per particle, appended in order. */
  method GenerateTrajectories(t: Trig, u: nat -> real, gauss: nat -> real) returns (trajectories: seq<Trajectory>)
    requires UnitDraws(u)
    ensures trajectories == Trajectories(t, u, gauss)
    ensures |trajectories| == NParticles
    ensures forall k :: 0 <= k < |trajectories| ==> WellFormed(trajectories[k])
  {
    trajectories := [];
    var pos := 0;
    for i := 0 to NParticles
      invariant (trajectories, pos) == GeneratedUpTo(t, u, gauss, i)
    {
      var trajectory, next := GenerateParticle(t, u, gauss, i, pos);
      trajectories := trajectories + [trajectory];
      pos := next;
    }
    TrajectoriesWellFormed(t, u, gauss, NParticles);
  }
}
