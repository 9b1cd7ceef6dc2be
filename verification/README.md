# circles: a Dafny model of the orbit-breaker core

`main.py` is a small pygame toy. A ball falls inside nine concentric, rotating
arcs. Each arc has a gap, and an arc breaks into a burst of particles when the
ball leaves it. This project models the parts of `main.py` that decide what
the program does, leaving out drawing and physics:

- **`Reals`**: Python's `min` and `max` on two reals.
- **`Angles`**: the full turn 2π as an abstract positive constant, Python's
  floored `x % (2 * pi)` on exact reals (`Mod2Pi`), and `uniform(0, t)` as `t * random()`.
- **`AngleCut`**: `random_angle_with_cut`. It samples an angle from the circle
  with one interval cut out, and it rejects the lengths it cannot handle.
- **`Groups`**: the `Group` container (`add`, `remove`, `update`, `clear`).
  Sprites are objects in Python, so a group is modelled as a sequence of
  references into a store `map<Ref, S>`. `update` snapshots the list, steps
  every sprite that is alive and removes every one that is dead.
- **`Sprites`**: the `Sprite`, `Ball`, `Arc` and `Particle` constructors,
  including the square-image check and the "falsy argument means use the
  random default" rule. Also `kill`, `Ball.reset` and the particle tick with
  its alpha fade.
- **`Speed`**: the global `Sprite.speed_mult` and the mouse-wheel clamp.
- **`Simulation`**: the state `main` keeps. It covers the initial layout,
  `set_mode` and the mode switch on keys 1/2/3, the toggles on keys 4/9, the
  middle click, the wheel, the particle group's update pass and `break_arc`.

Randomness is never executed. Every value drawn from `random`, `randint` or
`choice` is an argument of the function that uses it (`u` for `random()`,
`ArcDraws`, `ModeDraws`, `ParticleDraw`), and a predicate states its range.
`Vector2.rotate_rad` is a function parameter, and the lemma about it assumes
only that it preserves length.

Some behaviour of the code worth stating plainly:

- A particle's alpha is `255 * lifetime / PARTICLE_LIFETIME`. The code
  divides by the constant 40, whatever lifetime the particle started with.
- A mode switch keeps the "destroy on collide" and "particles on cursor"
  toggles as they were.
- Arguments are tested for truthiness, not for `None`. An explicit angle or
  speed of `0.0`, or a zero velocity vector, is replaced by the drawn value.
- A gravity of `None` gets the default, but a zero gravity vector is kept.

## Model

| member | source | states |
|---|---|---|
| Angles.Mod2Pi | main.py:248 | `start % (2 * pi)` on reals always lands in [0, 2π) |
| Angles.ModUnique | main.py:248 | any `x = r + k·2π` with `r` in [0, 2π) reduces to exactly `r`, so the floored remainder is the unique representative |
| Angles.ModOfDifference | main.py:248 | reducing a difference gives the same result as reducing the difference of the reduced operands |
| Angles.Uniform | main.py:256 | `uniform(0, t)` with a `random()` value in [0, 1) lies in [0, t) |
| AngleCut.RandomAngleWithCut | main.py:242-269 | the sampler fails exactly when `length <= 0` or `length >= 2π`, with the matching error; otherwise the angle is in [0, 2π), outside `[s, s + length)` for `s = start mod 2π`, outside the wrapped part `[0, s + length − 2π)` when the cut wraps, and so never in the cut |
| AngleCut.AllowedLength | main.py:252-262 | `total_length`, computed in either branch, always equals 2π − length |
| AngleCut.PlaceDraw | main.py:251-269 | both branches place a draw from `[0, total_length)` at an angle in [0, 2π) that is not in the cut |
| AngleCut.InCutIntervals | main.py:249-262 | for an angle in [0, 2π), lying in the cut is equivalent to lying in one of the two intervals the branches exclude |
| AngleCut.PlaceDrawOutsideCut | main.py:252-269 | every draw from [0, total_length), in both branches, lands in [0, 2π) outside the cut |
| AngleCut.EveryAllowedAngleIsReachable | main.py:242-269 | every angle in [0, 2π) outside the cut is returned for some `random()` value, so the sampler covers the whole allowed range |
| AngleCut.DistinctDrawsGiveDistinctAngles | main.py:242-269 | distinct `random()` values give distinct angles, so the sampler is one-to-one from [0, 1) onto the allowed range |
| AngleCut.PlaceDrawInTurn | main.py:252-269 | before the final `% (2 * pi)` the angle is already in range, so the reduction leaves it unchanged |
| Groups.Add | main.py:82-83 | `add` keeps the group's sprites first and appends the new ones in their order |
| Groups.Clear | main.py:99-100 | `clear` leaves the group empty |
| Groups.RemoveFirst | main.py:86 | `list.remove` guarded by `in`: a group without the sprite is returned unchanged, and otherwise it loses exactly one element |
| Groups.RemoveFirstMultiset | main.py:86 | removing takes exactly one copy of the sprite out of the group's multiset of members, if there is one |
| Groups.RemoveFirstDropsFirstOccurrence | main.py:86 | the occurrence dropped is the first one, and every other sprite keeps its position |
| Groups.Remove | main.py:85-86 | `remove` never makes a group longer |
| Groups.RemoveMultiset | main.py:85-86 | on multisets, `remove` is exactly the difference between the group and the listed sprites; sprites not present are skipped |
| Groups.RemoveUndoesAdd | main.py:82-86 | adding sprites that are not in the group and then removing them restores the original group, order included |
| Groups.RemoveKeepsOthersInOrder | main.py:85-86 | on a group without repeats, `remove` keeps exactly the sprites not listed, in their order |
| Groups.KeepAlive | main.py:88-93 | the reference filter: the members of the group that are alive in the store |
| Groups.Update | main.py:88-93 | `update` never adds a sprite to the group (its result is a sub-multiset of the group, so also no longer) and never adds or drops stored sprites; `Groups.UpdateKeepsInitiallyAlive` states exactly which sprites stay |
| Groups.Pass | main.py:88-93 | the update loop over the snapshot never adds or drops stored sprites |
| Groups.UpdateKeepsInitiallyAlive | main.py:88-93 | on a group without repeats, `update` keeps exactly the sprites alive at the start, in order, and steps each of them once; no other stored sprite changes |
| Groups.KeepAliveDistinct | main.py:88-93 | the group after `update` still has no repeats |
| Groups.KilledSpriteLeavesOnNextPass | main.py:88-93 | a sprite killed by its own step stays in the group for that pass and is removed by the next |
| Sprites.NewSprite | main.py:30-36 | construction fails exactly for a non-square image; otherwise the sprite is alive, centred where asked, with radius half the width |
| Sprites.Kill | main.py:58-59 | `kill` clears the liveness flag and changes nothing else |
| Sprites.NewBall | main.py:104-111 | a ball is always square, so it is constructed alive, at rest, with the given radius |
| Sprites.ResetBall | main.py:116-118 | `reset` puts the ball at the centre at rest and keeps its size and liveness |
| Sprites.DrawnSpeed | main.py:154 | a drawn arc speed `±π/randint(150, 300)` is never zero, and its sign is the drawn sign |
| Sprites.DrawnAngle | main.py:156 | a drawn arc angle is in [0, 2π) |
| Sprites.OrIfFalsy | main.py:151-156 | `x if x else fallback` is truthy whenever the fallback is, which is what keeps an arc's speed non-zero |
| Sprites.NewArc | main.py:137-168 | a given colour is kept and a missing one drawn; angle and speed fall back to drawn values when falsy; the resulting speed is never zero |
| Sprites.NewParticle | main.py:200-223 | a particle starts alive and fully opaque; lifetime 40 unless a truthy one is given; default gravity only when none is given; the alpha is consistent with the lifetime (`Faded`) |
| Sprites.Trunc | main.py:229-231 | Python's `int()` truncates toward zero: the integer part lies within 1 of the value, on the value's side of 0 |
| Sprites.AlphaFor | main.py:229-231 | the computed alpha is in [0, 255], 0 once the lifetime is used up, 255 while it is at least 40, and in between `255·lifetime/40` rounded down |
| Sprites.AlphaMonotone | main.py:229-231 | a shorter remaining lifetime never gives a larger alpha |
| Sprites.ParticleTick | main.py:225-239 | a tick lowers the lifetime by the multiplier, recomputes the alpha from it (always in [0, 255]), kills the particle exactly when the lifetime reaches 0 or below, and keeps colour and radius |
| Sprites.AlphaNeverIncreases | main.py:225-231 | for a positive multiplier, a tick never raises a particle's alpha |
| Sprites.TicksFade | main.py:225-239 | over any run of positive multipliers the alpha never rises, and the lifetime drops by their sum |
| Sprites.TicksExpire | main.py:225-239 | once the multipliers add up to the lifetime the particle is dead with alpha 0 |
| Sprites.DeadStaysDead | main.py:225-239 | ticking never revives a dead particle |
| Sprites.ParticleExpiresWithinLifetime | main.py:215-239 | at multiplier 1 a particle whose alpha matches its lifetime, a new one for instance, is dead with alpha 0 after at most `lifetime` ticks (at least one), and its alpha has not risen |
| Speed.Scroll | main.py:389 | the wheel result is always in [0.1, 3]; it is the plain sum when that is in range and the nearer bound otherwise |
| Speed.ScrollsStayInRange | main.py:389 | after any non-empty run of wheel events the multiplier is in [0.1, 3] |
| Speed.ScrollUpsClimb | main.py:389 | after `n` upward notches the multiplier is at least the start plus `0.1·n`, capped at 3, and at least `0.1·n`, capped at 3, from any start |
| Speed.ScrollUpsSaturate | main.py:389 | thirty or more upward notches end exactly at 3 from any start |
| Simulation.MaxRadius | main.py:282 | `max_r` is the smaller of the centre's coordinates less 50 |
| Simulation.LayoutArc | main.py:288-304 | the `i`-th arc of a mode layout is alive, centred, with radius `max_r − 40·i` |
| Simulation.SetMode | main.py:281-307 | keys 1, 2 and 3 build nine alive, centred arcs with radius `max_r − 40·i`, strictly decreasing outward-in; any other key builds none |
| Simulation.SetModeIndependent | main.py:288-289 | in mode 1 every arc uses its own drawn colour, angle and speed |
| Simulation.SetModeShared | main.py:290-294 | in mode 2 all arcs share colour and angle, and the speed grows by 1/2000 per arc (falsy values excepted) |
| Simulation.SetModeMirrored | main.py:295-305 | in mode 3 all arcs share the colour; even arcs turn at −speed, and odd arcs turn at +speed with the angle offset by π |
| Simulation.FreshRefs | main.py:82-83 | new sprites are distinct objects: the references handed out are consecutive and pairwise distinct |
| Simulation.Allocate | main.py:82-83 | new sprites are stored under fresh references in order, and every sprite already stored keeps its state |
| Simulation.AppendFresh | main.py:82-83 | appending new sprites to a group keeps the old members in front, keeps the group free of repeats and fully stored, and puts each new sprite, under a reference not used before, in its order |
| Simulation.InitialArcs | main.py:327 | start-up builds nine arcs |
| Simulation.Initial | main.py:316-328 | start-up: the ball first, then the nine start-up arcs in order; multiplier 1, toggles off, no particles; the state is consistent |
| Simulation.InitialIsModeOne | main.py:327 | the start-up arcs are exactly the arcs mode 1 builds from the same draws |
| Simulation.ModeSwitch | main.py:339-346 | multiplier back to 1; the ball reset and first in the group; then nine arcs under fresh references, equal in order to the `set_mode` layout; no particles; toggles kept; the state stays consistent |
| Simulation.ModeSwitchLayout | main.py:339-346 | after a mode switch the ball is at the centre at rest, and the arcs behind it have strictly decreasing radii |
| Simulation.HandleKey | main.py:337-352 | 4 and 9 flip their toggles, 1/2/3 switch mode, any other key changes nothing; consistency is preserved |
| Simulation.ToggleTwiceRestores | main.py:348-352 | pressing 4 (or 9) twice restores the state |
| Simulation.Handle | main.py:337-389 | a middle click restores multiplier 1, a wheel event applies the clamp, and every event keeps the state consistent |
| Simulation.RunKeepsSpeedInRange | main.py:334-389 | after any sequence of events the state is consistent and the multiplier is in [0.1, 3] |
| Simulation.UpdateParticles | main.py:392 | the particle pass keeps exactly the particles alive at its start, in their order, ticks each of them once at the current multiplier, and changes no other sprite |
| Simulation.ExpiringParticleLeaves | main.py:225-239 | a particle whose lifetime is at most the multiplier dies with alpha 0 in the pass that ticks it, and is gone after the next pass |
| Simulation.CutStart | main.py:276 | the arc's angle lies exactly `ARC_DELTA` past the start of the cut a fracture avoids, modulo a turn, so the cut ends at that angle and does not contain it |
| Simulation.FractureAngle | main.py:276 | the cut `[angle − π/6, angle)` is always a legal length, so the sampler succeeds; the angle is in [0, 2π) outside the cut |
| Simulation.BurstParticle | main.py:277-278 | a burst particle is alive, in the arc's colour, fully opaque, with lifetime 40, default gravity and the drawn radius |
| Simulation.Burst | main.py:275-278 | a burst has one particle per draw |
| Simulation.KillStored | main.py:273 | killing a stored sprite other than the ball changes only its liveness flag and keeps the state consistent |
| Simulation.AddParticles | main.py:278 | new particles are stored under fresh references and appended after the existing ones; no other sprite changes and the state stays consistent |
| Simulation.BreakArc | main.py:272-278 | `break_arc` keeps the state consistent, leaves the sprite group, ball and multiplier alone, and adds exactly 200 particles |
| Simulation.BreakArcKillsOnlyArc | main.py:272-273 | the arc is killed, and every other stored sprite keeps its state |
| Simulation.BreakArcAppendsBurst | main.py:274-278 | the existing particles stay in front, and the burst follows them in order under references not used before |
| Simulation.BurstOnArcCircle | main.py:276-278 | if `rotate` preserves length, every burst particle lies at the arc's radius from the centre, at an angle outside the arc's cut |

## Left out

- `Arc.collide_ball`, `Ball.reflect` and the collision branch of the frame loop: they use square roots, pixel masks and floating-point normalisation.
- `Ball.update` (gravity), `Arc.update` (rotation) and `Sprite.update`: plain arithmetic steps with no property of interest. `Groups.Update` takes the per-sprite step as a parameter.
- Rendering (`render`, `image`, `rect`, `mask`, the `pygame.draw` calls), the clock, the window and `pygame.quit`.
- The event loop itself, `QUIT`, and the particle bursts spawned at the cursor on left click or mouse motion: these are I/O and random generation. `Simulation.Handle` covers the events that change the modelled state.
- Floating-point rounding: all arithmetic is exact on reals, and 2π is an abstract positive constant. The `pygame.Surface` size truncation to integers and negative or zero radii are not modelled.
- `Vector2.rotate_rad`, and the particle velocity `Vector2(PARTICLE_SPEED).rotate(random() * 360)`: the first is a function parameter and the second arrives as a drawn value.
- Groups.UpdateKeepsInitiallyAlive: proved only for groups without repeated sprites. With a repeat, a sprite killed on its first visit is removed on its second within the same pass.
- Groups.RemoveKeepsOthersInOrder: proved only for groups without repeats. In general `remove` drops the first occurrence only, as `Groups.RemoveFirstDropsFirstOccurrence` states.
- Simulation.UpdateParticles: `all_sprites.update()` is not modelled alongside it, because it steps the ball and arcs, whose updates are left out.
