# Superposition and double-slit animations: a Dafny model

The repository consists of two animation scripts.

- `superposition.py` draws two spheres. Each sphere's radius is perturbed by a tetrahedral spherical harmonic. The two spheres oscillate in opposite phase and spin about the z axis in opposite directions. Each sphere is coloured with a semi-transparent colour scale.
- `double_slit_experiment.py` fires 1500 particles from a source through one of two slits onto a screen. Each landing height comes from a bounded rejection sampler run against the two-slit intensity `cos^2(pi d (y - y_c) / (lambda L))`. The animation reveals 25 more particles per frame and moves each one along its path.

The model keeps the sequential logic of both scripts and proves what that logic guarantees:

- `colorscale.dfy` (module `Colorscale`) covers palette choice, hex decoding, stop positions and alpha.
- `spheres.dfy` (module `Spheres`) covers `rotate_z`, the per-frame oscillation and spin, and the fixed axis range.
- `double_slit.dfy` (module `DoubleSlit`) covers slit choice, the rejection sampler and trajectory generation.
- `slit_animation.dfy` (module `SlitAnimation`) covers visibility per frame, progress and piecewise-linear placement.
- `numerics.dfy` (module `Numerics`) holds the shared real-number helpers and the trigonometry parameter.

Numbers are exact reals. Trigonometry is a parameter: `Trig(cos, sin, pi)` together with the identities the scripts rely on (`Lawful`). Those are `3 < pi < 4`, `cos 0 = 1`, `sin 0 = 0`, both functions in [-1, 1], `cos^2 + sin^2 = 1` and `cos(a + pi) = -cos a`.

Randomness is an input:

- `u: nat -> real` is the stream of unit draws. The script's `np.random.random()` and `np.random.uniform(lo, hi) = lo + (hi - lo) u` calls consume it in program order, through an explicit cursor.
- `gauss(i)` is particle `i`'s `np.random.normal(0, 0.3)`.

The harmonic `Y_tet_real` is an input: each `GridPoint` carries `(phi, theta)` and the harmonic's value there.

The colour-scale builder works on any list of colours. It returns `Err(DivisionByZero)` where Python's `i / (n_colors - 1)` would raise, which happens for a single colour. It returns `Err(InvalidHex(c))` where `int(c[1:3], 16)` would raise. The palette wrapper proves that neither error can occur for the fixed palettes.

The script checks neither the slit geometry nor the sampling window. Both are constants, so the model has no error cases for them.

## Model

| member | source | states |
|---|---|---|
| Colorscale.PalettesAreHexColors | superposition.py:38-43 | "Viridis" selects a 4-colour palette; "Plasma" and every other name select the same 5-colour palette; every palette colour is a well-formed `#rrggbb` string |
| Colorscale.ParseHex | superposition.py:53-55 | base-16 parsing succeeds exactly when the text is non-empty and all hex digits, and the value is below 16^length |
| Colorscale.ShortHexBelow256 | superposition.py:53-55 | a parsed slice of at most two digits is below 256 |
| Colorscale.DecodeRgb | superposition.py:52-55 | every decoded channel is in 0..255, and every `#rrggbb` colour decodes |
| Colorscale.DecodeRgbRoundTrip | superposition.py:52-55 | decoding the `#rrggbb` text of any colour gives that colour back |
| Colorscale.HexPairRoundTrip | superposition.py:53-55 | a byte printed as two hex digits parses back to itself |
| Colorscale.ParseHexPairInverse | superposition.py:53-55 | two lower-case hex digits parse to a byte that prints back as the same two digits |
| Colorscale.ParsePair | superposition.py:53 | a two-digit slice is worth 16 * first digit + second digit |
| Colorscale.PositionsSpan | superposition.py:48-49 | `i/(n-1)`: the first stop is at 0, the last at 1, all are in [0, 1], and they strictly increase |
| Colorscale.AlphaEndpoints | superposition.py:50 | alpha is `min_alpha` at position 0 and `max_alpha` at position 1 |
| Colorscale.AlphaBetween | superposition.py:50 | when `min_alpha <= max_alpha`, alpha stays in [min_alpha, max_alpha] |
| Colorscale.ErrorPersists | superposition.py:47-57 | once building the scale has failed, processing more colours does not change the error |
| Colorscale.ScaleCountsHashColors | superposition.py:52-57 | a successful scale has one entry per colour that starts with `#`; other colours are skipped |
| Colorscale.ScaleOfHexColors | superposition.py:46-57 | for at least two `#rrggbb` colours, building succeeds with one entry per colour; entry k has position k/(n-1), the decoded channels and the interpolated alpha |
| Colorscale.ColorscaleFromColors | superposition.py:46-59 | the loop returns the specified scale or error, and on success its length is the number of `#` colours |
| Colorscale.CreateTransparentColorscale | superposition.py:35-59 | one stop per palette colour (4 for Viridis, 5 otherwise); each stop is that colour's stop; positions run from 0 to 1 strictly increasing; channels below 256; alpha runs from `min_alpha` to `max_alpha` and stays between them when ordered |
| Spheres.RotateZ | superposition.py:62-67 | `rotate_z` leaves z unchanged |
| Spheres.RotateZPreservesRadius | superposition.py:64-65 | rotation keeps `x^2 + y^2` |
| Spheres.RotateZPreservesNorm | superposition.py:62-67 | rotation keeps the distance from the centre |
| Spheres.RotationAlgebra | superposition.py:64-65 | the algebraic identity behind the rotation invariant, for any unit pair (c, s) |
| Spheres.RotateZAtZero | superposition.py:133-134 | angle 0 is the identity |
| Spheres.FrameTimeRange | superposition.py:75-77 | `t = i 2 pi / num_frames` lies in [0, 2 pi) for every frame index |
| Spheres.OppositePerturbations | superposition.py:84-85 | sphere 2's perturbation is the negation of sphere 1's, so `r1 + r2 = 2 r_base` |
| Spheres.RadiusBound | superposition.py:84-85 | the radius differs from `r_base` by at most `amplitude * abs(Y)` |
| Spheres.CartesianNorm | superposition.py:88-90 | the spherical-to-Cartesian point built at radius r lies at squared distance r^2 |
| Spheres.SphericalAlgebra | superposition.py:88-90 | the algebraic identity behind `CartesianNorm` |
| Spheres.Surface | superposition.py:84-105 | a sphere's surface has one point per grid sample |
| Spheres.MaxAbsY | superposition.py:32 | `max abs(Y)` bounds every sample and is attained at one |
| Spheres.SurfaceWithinAxes | superposition.py:32 | every surface point of either sphere in any frame is within `max_radius` of the centre, coordinate by coordinate, and so inside the fixed axis range |
| Spheres.InitialFrameIsFrameZero | superposition.py:131-150 | the initial figure equals frame 0: unrotated spheres at radii `r_base + amplitude Y` and `r_base - amplitude Y` |
| Spheres.BuildFrames | superposition.py:74-105 | the frame loop yields 60 frames, frame i holding both rotated surfaces at time `t_i` with angles `+-spin_speed t_i` |
| DoubleSlit.UniformInRange | double_slit_experiment.py:29 | `np.random.uniform(lo, hi)` lies in [lo, hi) |
| DoubleSlit.ChooseSlit | double_slit_experiment.py:17-18 | the result is one of the two slits, and it is slit 1 exactly when the draw is below 0.5 |
| DoubleSlit.IntensityRange | double_slit_experiment.py:54 | the intensity lies in [0, 1] |
| DoubleSlit.IntensityAtCenter | double_slit_experiment.py:54 | the intensity is 1 at the centre between the slits |
| DoubleSlit.SampleFromFirstAccepted | double_slit_experiment.py:47-63 | the recursive sampler from attempt a returns the first accepting attempt at or after a, or the centre when there is none |
| DoubleSlit.SampleIsFirstAccepted | double_slit_experiment.py:47-63 | the sampler stops within 100 attempts, every earlier candidate was rejected, the result is the first accepted candidate, it falls back to the centre exactly when all 100 are rejected, and the result lies in [y_c - 4, y_c + 4] |
| DoubleSlit.SampleScreenY | double_slit_experiment.py:47-63 | the `while`/`else` loop computes the specified sample with the same first-acceptance, fallback and window guarantees |
| DoubleSlit.ParticleWellFormed | double_slit_experiment.py:21-74 | each trajectory has x checkpoints (source, slit, screen), starts at the origin, records its slit, has a slit depth within the slit half-width, and lands inside the window |
| DoubleSlit.TrajectoriesWellFormed | double_slit_experiment.py:21-74 | generating n particles gives exactly n trajectories, all well-formed |
| DoubleSlit.GenerateParticle | double_slit_experiment.py:22-74 | the loop body computes the specified trajectory, which is well-formed |
| DoubleSlit.GenerateTrajectories | double_slit_experiment.py:21-74 | the loop yields the specified 1500 trajectories, all well-formed |
| SlitAnimation.NVisible | double_slit_experiment.py:79 | `int((f+1)/n_frames * n_particles)` is exactly 25 (f+1), positive, and at most `n_particles` for every frame |
| SlitAnimation.ProgressRange | double_slit_experiment.py:88 | progress is in (0, 1], never decreases from frame to frame, and is 1 in the last frame |
| SlitAnimation.PlaceOnSegment | double_slit_experiment.py:90-106 | below 0.33 the point is between the source and slit checkpoints; below 0.66 it is between the slit and screen checkpoints; otherwise it is exactly the landing checkpoint |
| SlitAnimation.PlaceAtCheckpoints | double_slit_experiment.py:90-106 | at progress 0, 0.33 and 0.66 the point is the source, slit and screen checkpoint |
| SlitAnimation.PiecesMeet | double_slit_experiment.py:90-101 | the pieces meet: on the first piece the offset from the slit checkpoint is the source-to-slit offset scaled by (0.33 - p)/0.33, vanishing as p reaches 0.33; on the second the offset from the screen checkpoint is the slit-to-screen offset scaled by (0.66 - p)/0.33, vanishing as p reaches 0.66 |
| SlitAnimation.PlaceAdvances | double_slit_experiment.py:90-106 | x never decreases as progress grows |
| SlitAnimation.PlaceWithinScene | double_slit_experiment.py:90-106 | a well-formed particle stays between source and screen and within the sampling window |
| SlitAnimation.FramesGrow | double_slit_experiment.py:78-111 | each frame shows 25 more particles than the previous, and a particle already shown is no further back in x |
| SlitAnimation.LastFrameOnScreen | double_slit_experiment.py:78-111 | the last frame shows all 1500 particles at their landing points |
| SlitAnimation.FrameWithinScene | double_slit_experiment.py:78-111 | with well-formed trajectories every marker of every frame lies within the scene |
| SlitAnimation.PlaceParticle | double_slit_experiment.py:90-106 | the `if`/`elif`/`else` computes the specified placement |
| SlitAnimation.BuildFrame | double_slit_experiment.py:79-111 | the inner loop builds the specified frame, with one marker and one colour per visible particle in particle order |
| SlitAnimation.BuildAnimationFrames | double_slit_experiment.py:78-123 | the outer loop yields 60 frames, frame f being the specified one |

## Left out

- Rendering, axis layout, `fig.show()`, image writing, and the repeated frame export at superposition.py:252-311: plotly calls with no logic to state.
- The figure's frames list: the model builds the `Frame` values and stops there.
- The barrier and screen meshes of double_slit_experiment.py:137-190: static plotting geometry.
- The spherical harmonic (`sph_harm_y`) and the `meshgrid`/`linspace` grid: foreign numeric code. The harmonic's values are an input, and the 150 x 150 grid is a flat sequence of samples.
- cropframes.py and save_mp4.py are not part of this model. They only do image and file I/O.
- Floating-point rounding throughout. One consequence is the progress value `(f+1)/60 + i/1500`, which is exact here. In IEEE doubles it can differ from the exact value in the last bits, which could move a particle across the 0.33 or 0.66 boundary.
- Evaluation of cos, sin and pi: they are parameters constrained only by the identities in `Lawful`.
- The random generator: draws are inputs. The statistical shape of the landing distribution (the fringes) is not stated.
- The interleaving of `np.random.normal` with the uniform draws in numpy's generator state: the normal draws come from a separate input indexed by particle.
- The text of `rgba(r,g,b,alpha)`: an entry holds the four numbers rather than the formatted string.
- Colorscale.ParseHex: follows `int(s, 16)` on hex digits only. Python also accepts a sign, surrounding whitespace, underscores between digits, a `0x` prefix and non-ASCII Unicode decimal digits (such as Arabic-Indic ones). Such slices never occur in the fixed palettes.
- Spheres.BuildFrames: the angles `angle2 = -angle1` hold by construction in `FrameAt`. Nothing is proved about rotating by a negative angle, because the trigonometry parameter carries no identity for `cos(-a)` or `sin(-a)`.
- Frame names: a frame is named by its index rather than by the string `str(frame_idx)`.
