# Polygon particle system

This project models the particle system of Collab11's `Projectile.cs`. That system is a pool of 100 polygon particles. Bursts of particles are emitted from a centre point. On each update the pool ages every live particle once and removes the dead ones by swapping the last live particle into their slot. The survivors then move by an explosion behaviour. Each frame, every live particle is drawn as a triangle fan into one shared vertex buffer.

The model has six modules, one per concern:

- `Vectors` (`vectors.dfy`): 2-D vectors over `real`, byte colour channels and the coloured vertex record.
- `ParticleRecord` (`particle.dfy`): the `Particle` struct as a datatype, the side-count constants, `Vertices` and `MaxVertices`. It also holds `FloatOps`, which collects the floating-point operations that stay uninterpreted.
- `Templates` (`templates.dfy`): the static constructor that builds one row of template directions per side count, and its shape invariant `TemplatesOk`.
- `Tessellation` (`tessellation.dfy`):
  - `CopyTo` with its triangle-fan index pattern;
  - `Fan`, the reference function for the vertices one particle writes;
  - `Frame`, the reference function for the vertices a whole draw writes.
- `Lifecycle` (`lifecycle.dfy`): value-level reference definitions of emission (`Emit`, `Burst`), ageing (`Decrement`), swap-remove compaction (`Sweep`) and the behaviour pass (`Explode`, `Integrate`). A whole update is `Step`. It also holds the lemmas about them, and `Survivors` is the order-free reference that the compaction is measured against.
- `ParticleSystem` (`particles.dfy`): the `Particles` class.
  - Its fields are a `particles` array, a `count` of live slots and a `vertexData` buffer, plus the settings.
  - Its methods (constructor, `ResetColor`, `EmitParticles`, `Update`, `Draw`) work in place, and every one of them establishes or keeps the pool invariant `Valid()`. Under `Valid()`, every live particle passes the removal test and has a template row.
  - `EmitParticles`, `Update` and `Draw` are proved against the `Lifecycle` and `Tessellation` functions (`Burst`, `Step`, `Frame`). The constructor and `ResetColor` state the fields they set directly.

Some fields of `Particles` are never assigned after construction: `angle`, `scale`, `direction`, `speed`, `dscale`, `dspeed`, `rotation` and `stroke`. They are class constants holding the values the source starts them with. As a consequence:

- the rim colour `Stroke` is always transparent black;
- the scale increment is zero, so the behaviour pass never makes a live particle's scale non-positive.

`Config()` collects the fields that emission and the behaviour step read.

Random draws are parameters, each with a predicate saying which values `Random.Next` can return. `Drawn(v, lo, hi)` means `lo <= v < hi`, or `v == lo` when the two bounds are equal. The `EmitDraw` and `ColourDraw` records hold one number per `Next` call, in call order. Floating-point arithmetic is modelled on `real`. Operations with no exact real counterpart are fields of `FloatOps`: cosine and sine, the transform matrix, vector length, normalisation, the reciprocal and atan2. Nothing proved depends on what these return.

Facts the model makes visible about the source:

- `rand.Next(100, 100)` always returns 100, so every destination lies exactly 100 units below the centre (`EmitNewborn`).
- `Sides` is drawn from `[MinSides, MaxSides)`, so no emitted particle has 16 sides and the last template row is never read.
- `ToVector2` multiplies a whole number by pi, so, up to rounding, the heading always lies along the x axis rather than at the drawn number of degrees. The model keeps the heading as `FloatOps.heading` of the drawn number.

## Model

| member | source | states |
|---|---|---|
| ParticleRecord.Vertices | Projectile.cs:100 | An S-sided particle writes exactly 3*S vertices, a multiple of 3. For S in [MinSides, MaxSides] this is between 24 and MaxVertices = 48. |
| Templates.TemplateRow | Projectile.cs:109 | For a side count in [MinSides, MaxSides], the lookup index Sides - MinSides is a valid row of the table. |
| Templates.SetVertices | Projectile.cs:136-143 | Entry k of the row, for every k < sides, is the polar direction of vertex k of the regular polygon. |
| Templates.BuildTemplates | Projectile.cs:85-96 | A fresh table of (MaxSides - MinSides) + 1 rows. Row i has MinSides + i entries, each the polar direction for that side count. |
| Tessellation.Next | Projectile.cs:114-128 | The successor rim index is in range and equals (j + 1) mod S. It is j + 1 for inner triangles and 0 for the closing one. |
| Tessellation.Slot | Projectile.cs:114-130 | A buffer offset k holds the centre exactly when k mod 3 == 2. Every other offset holds a rim vertex whose index is in range. |
| Tessellation.SlotTriangle | Projectile.cs:114-130 | Triangle j puts rim j at offset 3j, rim (j + 1) mod S at 3j + 1, and the centre at 3j + 2. |
| Tessellation.Prev | Projectile.cs:114-128 | Every rim index r has exactly the predecessor (r + S - 1) mod S, whose triangle ends at r. |
| Tessellation.RimOnlyAt | Projectile.cs:114-130 | Rim vertex r appears at offset 3r and at offset 3*Prev(r) + 1, and at no other offset. |
| Tessellation.RimSharedByNeighbours | Projectile.cs:114-130 | Each rim vertex is written by exactly two triangles: its own triangle and its predecessor's. |
| Tessellation.Fan | Projectile.cs:107-134 | The fan of an S-sided particle has Vertices(S) entries. |
| Tessellation.FanTriangle | Projectile.cs:114-130 | Fan triangle j is (transformed rim j, Stroke), (transformed rim (j + 1) mod S, Stroke), (Position, Fill). |
| Tessellation.FanColours | Projectile.cs:117-130 | Every offset with k mod 3 == 2 holds (Position, Fill). Every other offset holds a vertex coloured Stroke. |
| Tessellation.PutTriangle | Projectile.cs:116-122 | Writing one triangle extends the already written correct prefix of the fan by three slots. No slot outside the triangle changes. |
| Tessellation.WriteFan | Projectile.cs:114-131 | After the loop and the closing triangle, buffer[stride + k] equals Fan[k] for every k < Vertices. Nothing before stride or after the fan changes. |
| Tessellation.CopyTo | Projectile.cs:107-134 | The cursor advances by exactly Vertices. buffer[stride..next] is the particle's fan and the prefix before stride is unchanged. Every slot outside [stride, next) keeps its old value. |
| Tessellation.Frame | Projectile.cs:259-263 | A draw writes exactly SumVertices(ps) vertices: the concatenated fans of the live particles. |
| Tessellation.SumVertices | Projectile.cs:259-263 | The final value of verticesCount: the sum of Vertices over the live particles, in loop order. Its bound and divisibility are SumVerticesBound; its running values are FrameStep. |
| Tessellation.SumVerticesBound | Projectile.cs:259-265 | For particles whose sides are at most MaxSides (line 82 sizes MaxVertices, line 189 the buffer), the total vertex count is between 0 and the number of particles times MaxVertices and is a multiple of 3. |
| Tessellation.FrameStep | Projectile.cs:259-263 | One more loop turn adds that particle's vertices to the count and appends its fan to the frame. The running count stays within the total. |
| Tessellation.FramePrefix | Projectile.cs:259-263 | The frame of the first j particles is the prefix of the whole frame up to their vertex count. |
| Tessellation.FrameLayout | Projectile.cs:259-263 | Particle j's fan occupies exactly [SumVertices(ps[..j]), SumVertices(ps[..j+1])) of the frame. |
| Lifecycle.EmitNewborn | Projectile.cs:290-315 | A particle from legal draws has these properties: active; the burst's lifespan; sides in [MinSides, MaxSides); position at the centre; the pool's stroke and fill; a positive square scale. Its destination is 100 below the centre, and its speed is the offset divided by 100 plus the speed variance. |
| Lifecycle.Emit | Projectile.cs:290-315 | ExplosionEmit from one set of draws: destination Center + offset, heading from the turn draw, rotation its angle, scale size plus scale variance, speed offset / 100 plus speed variance. What this guarantees is EmitNewborn. |
| Lifecycle.Burst | Projectile.cs:214-222 | A burst holds one particle per draw. |
| Lifecycle.BurstNewborn | Projectile.cs:214-222 | Every particle of a burst from legal draws is newborn with the one shared lifespan. |
| Lifecycle.BurstPooled | Projectile.cs:214-222 | A burst from legal draws satisfies the pool invariant: it passes the removal test and has template rows. |
| Lifecycle.Decrement | Projectile.cs:232-233 | The lifespan drops by exactly dt, and IsActive holds exactly when the new lifespan is positive. |
| Lifecycle.Survives | Projectile.cs:235-237 | The removal test, negated: an aged particle stays when it is active and both scale components are positive. What the compaction keeps is characterised by SweepLive, SweptFrom and SurvivorsMembers. |
| Lifecycle.SurvivorsConcat | Projectile.cs:229-241 | The survivors of a concatenation are the survivors of each part, concatenated. |
| Lifecycle.SurvivorsRotate | Projectile.cs:239 | Moving one particle from the front to the back does not change the multiset of survivors. |
| Lifecycle.SurvivorsMembers | Projectile.cs:229-241 | q is a survivor exactly when q is some old particle aged once and q passes the removal test. |
| Lifecycle.SurvivorsUniform | Projectile.cs:229-241 | When all particles share one lifespan and have positive scales, either all survive or none do, depending on lifespan - dt > 0. |
| Lifecycle.Sweep | Projectile.cs:229-241 | The compaction loop from index i with count c keeps the array length and returns a count between i and c. |
| Lifecycle.SweepFrame | Projectile.cs:229-241 | The compaction does not touch slots before i or from c on. |
| Lifecycle.SweepLive | Projectile.cs:235-239 | Every slot in [i, new count) passes the removal test. |
| Lifecycle.SweepPermutes | Projectile.cs:229-241 | The new live slots [i, new count) are a permutation of the aged survivors of a[i..c]. |
| Lifecycle.SweepKeepStep | Projectile.cs:231-241 | A kept slot is aged in place and the loop moves on to i + 1. |
| Lifecycle.SweepDropStep | Projectile.cs:231-239 | A removed slot is overwritten with the last live particle, the count shrinks and the same index is examined again. |
| Lifecycle.SweepCompacts | Projectile.cs:229-241 | The slots from the old count on are untouched. The new count is the number of survivors, at most the old count. The live prefix is a permutation of the aged survivors, and every live slot passes the removal test. |
| Lifecycle.SweptFrom | Projectile.cs:229-241 | Every live slot after compaction is some old live particle aged exactly once, with LifeSpan > 0 and both scale components positive. |
| Lifecycle.SweepPooled | Projectile.cs:229-241 | Compaction keeps the pool invariant. |
| Lifecycle.SweepUniform | Projectile.cs:227-241 | After a uniform burst the compaction keeps every particle or none. |
| Lifecycle.ExplodeKeeps | Projectile.cs:272-288 | The behaviour step leaves Sides, LifeSpan, IsActive, Stroke, Fill and Destination.X unchanged. Destination.Y also stays put when it is within 2 units of Position.Y. A surviving particle still survives when the scale increment is non-negative. |
| Lifecycle.Explode | Projectile.cs:272-288 | ExplosionBehaviour: retarget Destination.Y when more than 2 off, steer Direction towards the destination, add the direction increment and normalise, then add the speed, spin and scale increments and move Position by Direction * Speed * dt / 5. What it leaves unchanged is ExplodeKeeps. |
| Lifecycle.Integrate | Projectile.cs:243-246 | The integration pass over the first n slots keeps the array length. |
| Lifecycle.IntegrateKeeps | Projectile.cs:243-246 | Slots from n on are unchanged. Each of the first n slots is moved by one behaviour step, and the live prefix still satisfies the pool invariant. |
| Lifecycle.IntegrateStep | Projectile.cs:243-246 | The pass over zero slots changes nothing. The pass over j + 1 slots is the pass over j slots with slot j moved once more. |
| Lifecycle.PooledSides | Projectile.cs:259-263 | Every prefix of a live pool has side counts with template rows. |
| Lifecycle.Step | Projectile.cs:225-247 | An update keeps the array length and returns a count within the array. |
| Lifecycle.StepKeepsPool | Projectile.cs:225-247 | An update from a valid pool leaves a valid pool. The new count is the number of survivors of the refilled or old prefix, the tail is unchanged, and every live particle is an old one aged once and then moved once. |
| ParticleSystem.Particles.constructor | Projectile.cs:185-197 | 100 fresh particle slots, a buffer of 100 * MaxVertices vertices, no live particle, centre (400, 300), and the colour and direction set by ResetColor. |
| ParticleSystem.Particles.ResetColor | Projectile.cs:201-212 | Fill takes the four drawn channels and the variance takes three drawn channels, keeping its old alpha. The direction is (0, -1), and the initial destination is the centre plus that direction. No other field changes, and the pool invariant is kept. |
| ParticleSystem.Particles.EmitParticles | Projectile.cs:214-222 | Every slot is refilled in order from its draw with one shared lifespan, count becomes the capacity, and the pool stays valid. |
| ParticleSystem.Particles.Update | Projectile.cs:225-247 | The new slots and count are exactly Step of the old ones: refill when empty, compact, then integrate. The pool stays valid. |
| ParticleSystem.Particles.Compact | Projectile.cs:229-241 | The in-place loop, whose index steps back after a removal, leaves the slots and count given by Sweep from index 0. |
| ParticleSystem.Particles.Age | Projectile.cs:231-233 | Slot i becomes Decrement of its old value and no other slot changes. |
| ParticleSystem.Particles.Advance | Projectile.cs:243-246 | The slots become Integrate of the old slots over the live prefix. Count is unchanged, and the pool stays valid. |
| ParticleSystem.Particles.WriteFrame | Projectile.cs:259-263 | The cursor ends at SumVertices of the live prefix, within the buffer. The written prefix is the frame of the live particles, and the rest of the buffer is unchanged. |
| ParticleSystem.Particles.Draw | Projectile.cs:249-267 | The pool invariant is kept. Drawing happens exactly when count > 0. The primitive count times 3 is the exact vertex count, which fits the buffer. The buffer prefix holds the frame and the rest is unchanged. |

## Left out

- Floating-point arithmetic is modelled on `real`, so rounding, overflow to infinity and NaN are not modelled, including a division by a zero speed length in `ExplosionBehaviour`.
- The trigonometry of `SetVertices`, `ToVector2` and `ToVector2Clamped` is not modelled. Neither are the matrix product of `Transform`, `Vector2.Length`, `Vector2.Normalize` and `Math.Atan2`. Each is an uninterpreted field of `FloatOps`, because floating-point results cannot usefully be specified.
- `Random` is not modelled; every `Next` call is a parameter constrained by `Drawn`. `Ext.ToColor` is unused by the core and not modelled.
- The graphics calls in `Draw` are not modelled: blend state, the effect set-up, the projection and `DrawUserPrimitives`. They are foreign library calls, so `Draw` returns whether it would draw and the primitive count it would pass.
- `PositionColor.VertexDeclaration`, the `Effect` property and the `~Particles` finalizer are foreign library objects and are not modelled.
- The `DEBUG` console output in the constructor is I/O and is not modelled.
- The static `Stack<PositionColor> pool` is never used and is not modelled. Neither is `strokeVariance`, which is never read or written.
- Program.cs (the game loop, mouse input and re-centring) is not part of this model.
- The template table is built by `Templates.BuildTemplates` and handed to the `Particles` constructor, instead of being a static field. A static constructor runs once before first use, so the table the class sees is the same.
- Tessellation.CopyTo: "every slot in the range is written exactly once" is stated as the final contents of the range, with every slot outside it unchanged. The number of writes per slot is not stated.
- ParticleSystem.Particles.Update: the requirement that the draws are legal, applied when count is zero, stands for the range guarantee of `Random.Next`; the source itself demands nothing of its caller.
- Lifecycle.EmitNewborn: requires `dscale < 20` so that the scale variance cannot cancel the size draw. The pool's `dscale` is always 0.
