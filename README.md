# Spring-mesh water surface

This project models the water body of a Godot 2D dynamic-water demo. The
surface is a chain of `n` sample points (twenty in the game). Each point has an
X and a Y coordinate and a vertical velocity, all kept in parallel arrays that
are changed in place:

- **Resize** lays the points out evenly across the surface's rectangle at the
  rest height. It also sizes the collision region, which runs from the rest
  line down to the bottom edge.
- **Impact** happens in two halves, one frame apart. First the point nearest
  an overlapping body is picked by a linear scan: ties go to the lowest index,
  because the comparison is a strict `<`. A frame later, the body's vertical
  displacement times the impact power is added to that point's velocity.
- **Continuous pulse** runs on a timer. When its flag is set, it adds a fixed
  power to the velocities at indices 1, n/2 and n-2.
- **Step** runs every frame.
  - First each interior point gets a spring/damper update. Its velocity
    changes first, and its height then moves by the new velocity
    (semi-implicit Euler).
  - Then come `waveSpreadPasses` sweeps. In each sweep, height differences
    between neighbours are pushed into the neighbours' velocities.

`WaterBody.dfy` holds the class `Water.WaterBody`, which has `array<real>`
fields and a method for each operation. Each method is proved against the
pure definitions in `WaveMath.dfy`. There, the chain is a pair of
`seq<real>`, and the following properties are proved as lemmas:

- boundary points are pinned;
- the spread deltas cancel out;
- repeated sweeps give a closed form;
- the flat state at rest is a fixed point;
- the rule for picking the nearest point, including its tie-break.

A resize does **not** reset the velocities: they are zeroed only once, when
the surface is created (Scenes/WaterBody.cs:77-80), and `Resize` leaves `vs`
unchanged.

## Model

| member | source | states |
|---|---|---|
| `Water.WaterBody.constructor` | Scenes/WaterBody.cs:77-82 | every velocity starts at 0, the points are laid out as by a resize, and the tuning fields hold the editor defaults (Scenes/WaterBody.cs:9-16) |
| `Water.WaterBody.Resize` | Scenes/WaterBody.cs:53-65 | point i becomes (`ox + w/(n-1)*i`, `oy + waveTargetHeight`); the collision region is `CollisionRect(w, h, waveTargetHeight)`; velocities are unchanged |
| `WaveMath.CollisionRect` | Scenes/WaterBody.cs:56-57 | the region has centre Y `rest + (h-rest)/2` and height `h - rest`, so it spans vertically from the rest line to `h` and horizontally from 0 to `w` |
| `WaveMath.LayoutSpansWidth` | Scenes/WaterBody.cs:59-65 | the first point is at `ox` and the last at `ox + w` |
| `WaveMath.LayoutEvenlySpaced` | Scenes/WaterBody.cs:59-65 | every gap between consecutive X coordinates is `w/(n-1)` |
| `Water.NearestIndex` | Scenes/WaterBody.cs:31-43 | the scan returns -1 exactly when there are no points; otherwise it returns an index whose squared distance is `<=` every point's and strictly `<` every earlier point's (so ties go to the lowest index) |
| `Water.WaterBody.PickTarget` | Scenes/WaterBody.cs:31-44 | on a surface of at least three points a target always exists (the `>= 0` guard always passes), and it is the nearest point with the lowest-index tie-break |
| `WaveMath.SqDist` | Scenes/WaterBody.cs:38-39 | squared distance is non-negative and zero at the point itself |
| `WaveMath.SquareOrder` | Scenes/WaterBody.cs:38-40 | on the non-negative reals, `r1 < r2` exactly when `r1*r1 < r2*r2` |
| `WaveMath.SqDistOrdersAsDistance` | Scenes/WaterBody.cs:38-40 | for the Euclidean distances `r1`, `r2` of two points (non-negative roots of their squared distances), `r1 < r2` and `r1 <= r2` hold exactly when the squared distances compare the same way, so the scan's `<` on squared distances picks the same point as `DistanceTo` |
| `WaveMath.NearestIsUnique` | Scenes/WaterBody.cs:31-43 | the nearest-point rule determines a single index |
| `WaveMath.TieGoesToLowerIndex` | Scenes/WaterBody.cs:40-41 | for any chain and impact position, of two equally near points the higher index is never selected |
| `WaveMath.TieExample` | Scenes/WaterBody.cs:40-41 | on a three-point chain with points 0 and 1 equally near, point 0 is selected and point 1 is not |
| `WaveMath.StrictlyNearestIsSelected` | Scenes/WaterBody.cs:32-43 | for any chain and impact position, an index whose point is strictly nearer than every other is selected; no index, boundary points included, is excluded |
| `WaveMath.BoundaryPointsAreTargets` | Scenes/WaterBody.cs:32-43 | on a three-point chain, an impact beyond either end selects point 0 or point 2 |
| `Water.WaterBody.ApplyImpact` | Scenes/WaterBody.cs:46-49 | the velocity of point k (boundary points included) gains exactly `dy * waveImpactPower`; no other velocity and no point changes |
| `Water.WaterBody.ContinuousPulse` | Scenes/WaterBody.cs:85-93 | with the flag set, velocities become `Pulse(old, continuousImpactPower)`; with it clear, nothing changes; points never change |
| `WaveMath.Pulse` | Scenes/WaterBody.cs:89-91 | a pulse never changes the first or the last velocity |
| `WaveMath.PulseTouchesThreeIndices` | Scenes/WaterBody.cs:89-91 | for n >= 5 the indices 1, n/2 and n-2 are distinct; each gains the power once and every other velocity is unchanged |
| `WaveMath.PulseIndicesOfTwentyPoints` | Scenes/WaterBody.cs:89-91 | with twenty points (Scenes/WaterBody.cs:8) exactly the velocities 1, 10 and 18 gain the power |
| `WaveMath.PulseAddsThreePowers` | Scenes/WaterBody.cs:89-91 | for any n >= 3 a pulse adds `3 * power` to the total velocity (coinciding indices get the power more than once) |
| `Water.WaterBody.Step` | Scenes/WaterBody.cs:106-133 | the new heights and velocities are `WaveMath.Step` of the old ones, with `waveSpreadPasses` passes; no X coordinate changes |
| `Water.WaterBody.IntegrateInterior` | Scenes/WaterBody.cs:106-118 | heights and velocities become `Integrate` of the old ones, point by point in index order |
| `WaveMath.Integrate` | Scenes/WaterBody.cs:106-118 | the spring/damper phase leaves the first and last points' height and velocity unchanged |
| `WaveMath.IntegrateInteriorPoint` | Scenes/WaterBody.cs:110-116 | an interior velocity changes by `-stiffness*(y - rest) - dampening*v`, and the interior height then moves by the NEW velocity times `dt` (semi-implicit Euler) |
| `Water.WaterBody.Spread` | Scenes/WaterBody.cs:120-133 | velocities become `SpreadPasses(ys, old vs, waveSpreadFactor, PassCount(waveSpreadPasses))`; heights are only read, and a negative pass count gives no sweep |
| `Water.WaterBody.SpreadSweep` | Scenes/WaterBody.cs:122-133 | one sweep in index order over fixed heights: velocities become `SpreadPass(ys, old vs)`, i.e. each point, boundaries included, gains its left and right pulls |
| `WaveMath.SpreadPassesClosedForm` | Scenes/WaterBody.cs:120-133 | heights stay fixed during the spread phase, so after p passes velocity m has gained `p * f * ((y[m-1]-y[m]) + (y[m+1]-y[m]))`, counting only neighbours that exist |
| `WaveMath.DeltaPrefixSum` | Scenes/WaterBody.cs:122-133 | the deltas of the first k points telescope to `f * (y[k] - y[k-1])` |
| `WaveMath.DeltasSumToZero` | Scenes/WaterBody.cs:122-133 | the deltas of one sweep sum to zero over the whole chain |
| `WaveMath.SpreadPassKeepsTotal` | Scenes/WaterBody.cs:122-133 | one sweep leaves the total velocity unchanged |
| `WaveMath.SpreadPassesKeepTotal` | Scenes/WaterBody.cs:120-133 | any number of sweeps leaves the total velocity unchanged |
| `WaveMath.StepSpreadKeepsTotal` | Scenes/WaterBody.cs:106-133 | after a whole frame, the total velocity equals the total after the spring/damper phase |
| `WaveMath.StepMovesOnlyInteriorPoints` | Scenes/WaterBody.cs:106-133 | a frame leaves the heights of points 0 and n-1 unchanged, and its spread phase moves no point |
| `WaveMath.IntegrateKeepsRest` | Scenes/WaterBody.cs:106-118 | the spring/damper phase leaves a chain at rest (every height at rest, every velocity 0) unchanged |
| `WaveMath.SpreadOverLevelSurface` | Scenes/WaterBody.cs:120-133 | sweeps over a level surface change no velocity |
| `WaveMath.RestIsFixedPoint` | Scenes/WaterBody.cs:106-133 | a chain with every height at rest and every velocity 0 is unchanged by a frame |
| `WaveMath.BoundaryVelocityCanChange` | Scenes/WaterBody.cs:122-133 | spreading can change a boundary velocity while the boundary height stays put |

## Left out

- Engine glue is not modelled:
  - the shader upload `uploadPoints` (Scenes/WaterBody.cs:24-27, 67, 135);
  - the node lookups and signal wiring in `_Ready`;
  - the timer itself;
  - the walk over `Area2D.GetOverlappingBodies` (Scenes/WaterBody.cs:98-104).

  The operations are plain method calls made by an outside scheduler.
- The one-frame `await` inside an impact, and the body's lifetime across it,
  are not modelled (Scenes/WaterBody.cs:47). The impact is two calls, `PickTarget` and then
  `ApplyImpact`, and the caller supplies the body's vertical displacement `dy`.
  The frame that runs between the two calls is not constrained.
- `Water.WaterBody.ApplyImpact` takes an index in `[0, n)`. The source's `-1`
  sentinel and its guard are modelled by `NearestIndex`. That guard cannot fail
  on a surface of at least three points.
- There is no floating point. All arithmetic is over `real`, so the model makes
  no claim about IEEE rounding, overflow or divergence. `Vector2.DistanceTo` is
  replaced by the squared distance, which orders points the same way
  (`SqDistOrdersAsDistance`).
- `GlobalPosition` and `Size` are engine properties. The model stores them when
  `Resize` is called, and `Step` reads the stored `originY`. A node that moves
  without a resize is therefore not modelled.
- The source has `PointCount = 20`. The model takes any `n >= 3` (the module
  constant `PointCount` records 20).
- A negative `WaveSpreadPasses` gives no sweeps, because the source compares an
  unsigned counter with it. This is modelled by `PassCount`.
- The tuning values are public fields that the editor can change between calls.
  Any values are allowed.
- Convergence of a perturbed interior point under damping is not proved. Only
  the update order and the fixed point at rest are.
- Scenes/Main.cs is not part of this model. It only spawns test objects on a
  key press.
