/** The animation of the double-slit script: frame `f` shows the first
    `n_visible(f)` particles, each placed along its path according to a progress
    fraction; the path runs from the source to the slit over the first third of
    the progress and from the slit to the screen over the second, and the particle
    then rests on the screen. */
module SlitAnimation {
  import opened Numerics
  import opened DoubleSlit

  const NFrames: nat := 60
  /** Progress at which a particle reaches the barrier. */
  const SlitMark: real := 0.33
  /** Progress at which a particle reaches the screen. */
  const ScreenMark: real := 0.66
  const ParticleColor: string := "rgb(255, 69, 0)"

  /** One particle's position in one frame. */
  datatype Marker = Marker(x: real, y: real, z: real)

  /** One animation frame: the marker coordinates, one colour per marker, and the
      frame's name (its index). */
  datatype Frame = Frame(x: seq<real>, y: seq<real>, z: seq<real>, colors: seq<string>, name: nat)

  /** The number of particles shown in frame `f`: the truncation of
      `(f + 1) / n_frames * n_particles`, which is exactly 25 per frame. */
  function NVisible(f: nat): (n: int)
    ensures n == 25 * (f + 1)
    ensures f < NFrames ==> 0 < n <= NParticles
  {
    var q := (f + 1) as real / NFrames as real * NParticles as real;
    assert q == (25 * (f + 1)) as real;
    q.Floor
  }

  /** How far along its path particle `i` is in frame `f`. */
  function Progress(f: nat, i: nat): real {
    Min(1.0, (f + 1) as real / NFrames as real + i as real / NParticles as real)
  }

  /** Progress is a fraction in (0, 1]; it never decreases from one frame to the
      next, and in the last frame every particle has arrived. */
  lemma ProgressRange(f: nat, i: nat)
    ensures 0.0 < Progress(f, i) <= 1.0
    ensures Progress(f, i) <= Progress(f + 1, i)
    ensures f + 1 >= NFrames ==> Progress(f, i) == 1.0
  {
  }

  /** The position of a particle whose progress is `p`: linear between checkpoints. */
  function Place(traj: Trajectory, p: real): Marker {
    if p < SlitMark then
      var s := p / SlitMark;
      Marker(SourceX + s * (SlitX - SourceX),
             traj.y.source + s * (traj.y.slit - traj.y.source),
             traj.z.source + s * (traj.z.slit - traj.z.source))
    else if p < ScreenMark then
      var s := (p - SlitMark) / SlitMark;
      Marker(SlitX + s * (ScreenX - SlitX),
             traj.y.slit + s * (traj.y.screen - traj.y.slit),
             traj.z.slit + s * (traj.z.screen - traj.z.slit))
    else
      Marker(ScreenX, traj.y.screen, traj.z.screen)
  }

  /** `v` lies between the checkpoints `a` and `b`. */
  predicate Between(v: real, a: real, b: real) {
    Min(a, b) <= v <= Max(a, b)
  }

  /** Before the barrier a particle is between its source and slit checkpoints,
      after it between its slit and screen checkpoints, and from `ScreenMark` on it
      is at its screen checkpoint. */
  lemma PlaceOnSegment(traj: Trajectory, p: real)
    requires 0.0 <= p
    ensures var m := Place(traj, p);
            && (p < SlitMark ==>
                  SourceX <= m.x <= SlitX
                  && Between(m.y, traj.y.source, traj.y.slit)
                  && Between(m.z, traj.z.source, traj.z.slit))
            && (SlitMark <= p < ScreenMark ==>
                  SlitX <= m.x <= ScreenX
                  && Between(m.y, traj.y.slit, traj.y.screen)
                  && Between(m.z, traj.z.slit, traj.z.screen))
            && (ScreenMark <= p ==> m == Marker(ScreenX, traj.y.screen, traj.z.screen))
  {
    if p < SlitMark {
      var s := p / SlitMark;
      LerpBetween(traj.y.source, traj.y.slit, s);
      LerpBetween(traj.z.source, traj.z.slit, s);
    } else if p < ScreenMark {
      var s := (p - SlitMark) / SlitMark;
      LerpBetween(traj.y.slit, traj.y.screen, s);
      LerpBetween(traj.z.slit, traj.z.screen, s);
    }
  }

  /** At progress 0, `SlitMark` and `ScreenMark` the particle is exactly at its
      source, slit and screen checkpoints. */
  lemma PlaceAtCheckpoints(traj: Trajectory)
    requires traj.x == Checkpoints(SourceX, SlitX, ScreenX)
    ensures Place(traj, 0.0) == Marker(traj.x.source, traj.y.source, traj.z.source)
    ensures Place(traj, SlitMark) == Marker(traj.x.slit, traj.y.slit, traj.z.slit)
    ensures Place(traj, ScreenMark) == Marker(traj.x.screen, traj.y.screen, traj.z.screen)
  {
  }

  /** The pieces meet: on the first piece the particle's offset from its slit
      checkpoint is the source-to-slit offset scaled by `(SlitMark - p) / SlitMark`,
      which shrinks to 0 as `p` reaches `SlitMark`; on the second piece its offset
      from its screen checkpoint shrinks the same way as `p` reaches `ScreenMark`. */
  lemma PiecesMeet(traj: Trajectory, p: real)
    ensures 0.0 <= p < SlitMark ==>
              && Place(traj, p).x - SlitX == (SlitMark - p) / SlitMark * (SourceX - SlitX)
              && Place(traj, p).y - traj.y.slit == (SlitMark - p) / SlitMark * (traj.y.source - traj.y.slit)
              && Place(traj, p).z - traj.z.slit == (SlitMark - p) / SlitMark * (traj.z.source - traj.z.slit)
    ensures SlitMark <= p < ScreenMark ==>
              && Place(traj, p).x - ScreenX == (ScreenMark - p) / SlitMark * (SlitX - ScreenX)
              && Place(traj, p).y - traj.y.screen == (ScreenMark - p) / SlitMark * (traj.y.slit - traj.y.screen)
              && Place(traj, p).z - traj.z.screen == (ScreenMark - p) / SlitMark * (traj.z.slit - traj.z.screen)
  {
  }

  /** Particles only move forward: more progress never means a smaller x. */
  lemma PlaceAdvances(traj: Trajectory, p: real, q: real)
    requires 0.0 <= p <= q
    ensures Place(traj, p).x <= Place(traj, q).x
  {
    PlaceOnSegment(traj, p);
    PlaceOnSegment(traj, q);
  }

  /** A well-formed particle never leaves the box between source and screen and
      within the sampling window. */
  lemma PlaceWithinScene(traj: Trajectory, p: real)
    requires WellFormed(traj) && 0.0 <= p
    ensures SourceX <= Place(traj, p).x <= ScreenX
    ensures YCenter - Window <= Place(traj, p).y <= YCenter + Window
  {
    PlaceOnSegment(traj, p);
  }

  /** Frame `f`: the first `NVisible(f)` particles at their current places. */
  function FrameOf(trajs: seq<Trajectory>, f: nat): Frame
    requires |trajs| == NParticles && f < NFrames
  {
    var n := NVisible(f);
    Frame(seq(n, k requires 0 <= k < n => Place(trajs[k], Progress(f, k)).x),
          seq(n, k requires 0 <= k < n => Place(trajs[k], Progress(f, k)).y),
          seq(n, k requires 0 <= k < n => Place(trajs[k], Progress(f, k)).z),
          seq(n, k requires 0 <= k < n => ParticleColor),
          f)
  }

  /** Every frame shows 25 more particles than the one before; a particle shown
      in one frame is shown in the next, no further back along the x axis. */
  lemma {:induction false} FramesGrow(trajs: seq<Trajectory>, f: nat)
    requires |trajs| == NParticles && f + 1 < NFrames
    ensures |FrameOf(trajs, f + 1).x| == |FrameOf(trajs, f).x| + 25
    ensures forall k :: 0 <= k < |FrameOf(trajs, f).x| ==> FrameOf(trajs, f).x[k] <= FrameOf(trajs, f + 1).x[k]
  {
    forall k | 0 <= k < |FrameOf(trajs, f).x|
      ensures FrameOf(trajs, f).x[k] <= FrameOf(trajs, f + 1).x[k]
    {
      ProgressRange(f, k);
      PlaceAdvances(trajs[k], Progress(f, k), Progress(f + 1, k));
    }
  }

  /** The last frame shows every particle, each at its landing point on the screen. */
  lemma LastFrameOnScreen(trajs: seq<Trajectory>)
    requires |trajs| == NParticles
    ensures var fr := FrameOf(trajs, NFrames - 1);
            && |fr.x| == |fr.y| == |fr.z| == NParticles
            && forall k :: 0 <= k < NParticles ==>
                 fr.x[k] == ScreenX && fr.y[k] == trajs[k].y.screen && fr.z[k] == trajs[k].z.screen
  {
    forall k | 0 <= k < NParticles
      ensures Place(trajs[k], Progress(NFrames - 1, k)) == Marker(ScreenX, trajs[k].y.screen, trajs[k].z.screen)
    {
      ProgressRange(NFrames - 1, k);
      PlaceOnSegment(trajs[k], Progress(NFrames - 1, k));
    }
  }

  /** With well-formed trajectories every marker of every frame lies within the scene. */
  lemma FrameWithinScene(trajs: seq<Trajectory>, f: nat)
    requires |trajs| == NParticles && f < NFrames
    requires forall k :: 0 <= k < |trajs| ==> WellFormed(trajs[k])
    ensures var fr := FrameOf(trajs, f);
            forall k :: 0 <= k < |fr.x| ==>
              SourceX <= fr.x[k] <= ScreenX && YCenter - Window <= fr.y[k] <= YCenter + Window
  {
    var fr := FrameOf(trajs, f);
    forall k | 0 <= k < |fr.x|
      ensures SourceX <= fr.x[k] <= ScreenX && YCenter - Window <= fr.y[k] <= YCenter + Window
    {
      ProgressRange(f, k);
      PlaceWithinScene(trajs[k], Progress(f, k));
    }
  }

  /** The `if`/`elif`/`else` of the inner loop as the script writes it, proved to
      compute the placement `Place` specifies. */
  method PlaceParticle(traj: Trajectory, progress: real) returns (x: real, y: real, z: real)
    ensures Marker(x, y, z) == Place(traj, progress)
  {
    if progress < SlitMark {
      var s := progress / SlitMark;
      x := SourceX + s * (SlitX - SourceX);
      y := traj.y.source + s * (traj.y.slit - traj.y.source);
      z := traj.z.source + s * (traj.z.slit - traj.z.source);
      assert Marker(x, y, z) == Place(traj, progress);
    } else if progress < ScreenMark {
      var s := (progress - SlitMark) / SlitMark;
      x := SlitX + s * (ScreenX - SlitX);
      y := traj.y.slit + s * (traj.y.screen - traj.y.slit);
      z := traj.z.slit + s * (traj.z.screen - traj.z.slit);
      assert Marker(x, y, z) == Place(traj, progress);
    } else {
      x, y, z := ScreenX, traj.y.screen, traj.z.screen;
    }
  }

  /** The body of the frame loop: the visible particles' coordinates appended in
      particle order. */
  method BuildFrame(trajs: seq<Trajectory>, f: nat) returns (frame: Frame)
    requires |trajs| == NParticles && f < NFrames
    ensures frame == FrameOf(trajs, f)
  {
    var nVisible := ((f + 1) as real / NFrames as real * NParticles as real).Floor;
    assert nVisible == NVisible(f);
    var xs, ys, zs, colors := [], [], [], [];
    for i := 0 to nVisible
      invariant |xs| == i && |ys| == i && |zs| == i && |colors| == i
      invariant forall k :: 0 <= k < i ==>
                  Marker(xs[k], ys[k], zs[k]) == Place(trajs[k], Progress(f, k)) && colors[k] == ParticleColor
    {
      var progress := Min(1.0, (f + 1) as real / NFrames as real + i as real / NParticles as real);
      assert progress == Progress(f, i);
      var x, y, z := PlaceParticle(trajs[i], progress);
      xs, ys, zs, colors := xs + [x], ys + [y], zs + [z], colors + [ParticleColor];
    }
    frame := Frame(xs, ys, zs, colors, f);
    assert frame.x == FrameOf(trajs, f).x;
    assert frame.y == FrameOf(trajs, f).y;
    assert frame.z == FrameOf(trajs, f).z;
    assert frame.colors == FrameOf(trajs, f).colors;
  }

  /** The frame loop: one frame per index, in order. */
  method BuildAnimationFrames(trajs: seq<Trajectory>) returns (frames: seq<Frame>)
    requires |trajs| == NParticles
    ensures |frames| == NFrames
    ensures forall f :: 0 <= f < NFrames ==> frames[f] == FrameOf(trajs, f)
  {
    frames := [];
    for f := 0 to NFrames
      invariant |frames| == f
      invariant forall g :: 0 <= g < f ==> frames[g] == FrameOf(trajs, g)
    {
      var frame := BuildFrame(trajs, f);
      frames := frames + [frame];
    }
  }
}
