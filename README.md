# Flappy-bird game logic in Dafny

This project models the per-frame game logic of a three-dimensional Flappy-Bird
clone written in JavaScript (`index.js`). The model covers the following:

- the three-phase state machine (MENU, PLAY, SCORE) and its transitions: the
  play button, `die()` and the play-again button;
- the bird's vertical physics: gravity, the ground check and the jump impulse;
- the pipe manager: the loop over the `pipes` array that moves each pipe left,
  splices out pipes past the left edge, awards points and detects collisions;
- the pipe spawner, which creates a linked bottom/top pair every
  `PIPE_SPAWN_TIME` PLAY frames;
- the smoke burst left by a death and the drifting clouds, whose loops also run
  in every frame.

Layout, one module per file:

| file | module | contents |
|---|---|---|
| `config.dfy` | `Config` | the constants of `index.js` and the `Phase` type |
| `pipes.dfy` | `Pipes` | the pipe record, the spawner's pair, the overlap test, the invariant of the pipe state, and the pipe loop as a function (`SweepStep`/`SweepFrom`) with its lemmas |
| `particles.dfy` | `Particles` | smoke particles and clouds |
| `bird.dfy` | `Bird` | the physics step and its closed form |
| `animate.dfy` | `Animate` | the whole game state as a value (`World`), one call of `animate` as a function (`Frame`), and what a frame preserves |
| `session.dfy` | `Session` | class `Game`: the globals of `index.js` as fields, one method per entry point (`Tick` = `animate`, `Die`, `Jump`, `KeyDown`, `PressPlay`, `PressPlayAgain`) |

The class is the imperative model. Its methods update the fields in place, and
the pipe loop is a `while` loop over the `pipes` sequence that uses the
source's own index arithmetic. `Game.Snap()` reads the fields as one `World`
value. `Tick` is proved to perform exactly `Animate.Frame` on that value.
The lemmas of `Animate`, `Pipes`, `Bird` and `Particles` state what a frame
does and what it preserves.

Pipes live in an arena, a sequence indexed by pipe id. A pair spawned when the
arena has length `n` gets ids `n` (bottom) and `n + 1` (top). Each record
stores its partner's id, which stands for the `otherPipe` reference. The link
stays valid after the partner has left the active list. The active list
`pipes` is a sequence of ids. The bird's x is never written in the source, so
it is the constant `BIRD_X = 0`.

Behaviours of the code that the model keeps as written:

- The pipe loop increments `i` after a `splice`, so the pipe that shifts into
  slot `i` is neither moved nor checked in that frame (`Pipes.RemovalSkipsNext`).
- `die()` has no guard inside the pipe loop, and the loop goes on after it. A
  frame therefore calls `die()` once per overlapping pipe that the loop
  visits, and each call adds a smoke burst (`Animate.FrameDeaths`). When no
  pipe retires in the frame, the loop visits every pipe, and the number of
  calls is exactly the number of pipes that overlap the bird after their move
  (`Pipes.HitsCountOverlaps`). On a list whose pipes lie farther apart than
  the spawner places them, a retirement can hide an overlapping pipe for one
  frame (`Pipes.SkippedCollision`). In play this loses no collision: the
  spawner places pairs 10 apart, and a pipe within 11 of the retiring one is
  out of the bird's reach before and after its move (`Pipes.ShiftedOutOfReach`).
- The ground branch (index.js:455-457) zeroes the velocity but does not clamp
  the height: a bird below the ground line stays at its height
  (`Bird.GroundedStaysPut`).
- `jump()` (index.js:524-537) never reads `currentState`, so it also works on
  the score screen.
- Only the play button handler (index.js:222-232) leaves MENU; no key or jump
  does.
- The overlap test (index.js:404-407) is strict on every side. A pipe 4 high
  centred at (0, 2) spans heights 0 to 4, and a bird at height 5 spans 4.5 to
  5.5, so they do not touch (`Pipes.CollisionExamples`).
- `frames` is not reset by play-again.

Random draws and the sine wave are parameters. `r` is the spawner's
`Math.random()`, with `0 <= r < 1`. `wave` is the value of `Math.sin` in the
menu float animation. `burst` is the list of particles one `die()` call adds:
`SMOKE_PARTICLE_COUNT` of them, with scale in [0, 1) and height offset in
[-0.5, 0.5).

## Model

| member | source | states |
|---|---|---|
| Pipes.SpawnPair | index.js:416-447 | the two heights plus the gap fill the playfield exactly; neither half is shorter than the minimum size; the bottom pipe spans [0, h1] and the top one [TOTAL - h2, TOTAL]; the opening is exactly the gap fraction; both start at x = PIPE_SPAWN_POS_X, unscored, linked to each other |
| Pipes.SpawnAtHalf | index.js:419-432 | a draw of 0.5 gives two halves 4.9 high |
| Pipes.Collides | index.js:404-407 | the strict box-overlap test of bird and pipe; only a pipe whose centre is within BIRD_SIZE/2 + PIPE_RADIUS of the bird's x can be touched |
| Pipes.CollidesIffCentresClose | index.js:404-407 | the strict box-overlap test holds exactly when, on each axis, the centres are closer than the sum of the half-extents |
| Pipes.CollisionExamples | index.js:404-407 | a 4-high pipe centred at (0, 2) misses a bird at height 5 and hits one at height 3; at x = 10 it misses at every height |
| Pipes.Remove | index.js:385 | `splice(i, 1)`: one element shorter; the elements before i stay and those after it shift one slot left |
| Pipes.SweepStep | index.js:376-411 | one loop iteration: keeps the arena's size and links; adds at most one hit; either keeps the list or shortens it by one |
| Pipes.StepFacts | index.js:379-388 | one iteration moves the visited pipe left by the scroll speed, changes no other record, and splices it out exactly when it is then past the left line |
| Pipes.SweepFrom | index.js:374-413 | the loop from index i on: keeps the arena's size and links; the hit count never drops and grows by at most the number of slots from i to the end |
| Pipes.PipeFrame | index.js:374-413 | the whole loop of a PLAY frame, starting from zero hits: at most one hit per active pipe |
| Pipes.CountOverlaps | index.js:404-407 | the number of listed pipes that overlap the bird after the frame's move is at most the length of the list |
| Pipes.HitsCountOverlaps | index.js:374-411 | when no active pipe crosses the left line in the frame, the loop keeps the list and counts exactly one hit per pipe that overlaps the bird after its move |
| Pipes.SkippedCollision | index.js:382-386 | on a list with pipes 24.95 apart, farther than the spawner places them: with the first pipe retiring, a bottom pipe at (0, 2), 4 high, overlaps a bird at height 3, yet the loop records no hit: it shifted into the retired slot and was skipped |
| Pipes.ShiftedOutOfReach | index.js:379-407 | a pipe within 11 to the right of a pipe that retires this frame overlaps the bird at no height, before or after its move, so the skip after a splice loses no collision for pipes spaced as the spawner spaces them |
| Pipes.ScoreStep | index.js:390-396 | one loop step raises the score by exactly one iff the moved pipe stays on screen, is left of the bird, and neither it nor its partner has its flag; otherwise the score is unchanged; a scoring pipe gets its flag; no other record changes |
| Pipes.CollectedAtMostOnePerPair | index.js:391-396 | with at most one flag per pair, the number of collected points is at most the number of pairs |
| Pipes.ScoreAtMostPairs | index.js:391-396 | under the pipe invariant the score never exceeds the number of pairs spawned since the last reset |
| Pipes.SpawnKeepsValid | index.js:416-447 | appending a fresh pair to the arena and its ids to the end of the list keeps the pipe invariant (linked pairs, no repeated id, on-screen pipes, one point per pair, score = collected points) |
| Pipes.StepKeepsValid | index.js:376-411 | one loop iteration keeps the pipe invariant and does not lower the score |
| Pipes.SweepKeepsValid | index.js:374-413 | the whole pipe loop keeps the pipe invariant and does not lower the score |
| Pipes.SweepRetiresOffscreen | index.js:374-388 | after the loop the active list is the old list with exactly the pipes now past the left line removed, the others in their old order |
| Pipes.RemovalSkipsNext | index.js:382-386 | when the pipe at i is spliced out, the pipe that shifts into slot i keeps its record for the rest of the frame and stays in the list |
| Particles.SmokeStep | index.js:288-296 | a particle with positive scale strictly shrinks and strictly rises; a valid particle stays valid |
| Particles.SmokeFrame | index.js:288-296 | every particle takes one step, the count is unchanged, and validity is kept |
| Particles.Repeat | index.js:513-520 | the smoke that n die() calls add, one burst per call; when the burst is valid, so is the result |
| Particles.RepeatLength | index.js:513-520 | n die() calls add n times the burst size in particles |
| Particles.CloudStep | index.js:329-351 | a cloud keeps its speed and stays between the wrap edges; it either moves strictly left, by its speed times the scroll speed (a tenth of that on the score screen), or wraps to the right edge |
| Particles.CloudFrame | index.js:329-351 | every cloud takes one step and the band invariant is kept |
| Bird.BirdStep | index.js:455-469 | one physics step: below the ground line the height is kept and the velocity zeroed; otherwise the velocity drops and the height moves by the new velocity |
| Bird.Flight | index.js:455-469 | n physics steps with no jump; a bird that starts below the ground line keeps its height throughout |
| Bird.FreeFall | index.js:465-469 | while the bird stays above the ground line, after n frames the velocity is v + n·GRAVITY and the height is y + n·v + n(n+1)/2·GRAVITY |
| Bird.FallingSpeedsUp | index.js:465-469 | while airborne the velocity strictly decreases from frame to frame |
| Bird.GroundedStaysPut | index.js:455-457 | below the ground line the bird keeps its height and has zero velocity in every later frame; there is no clamp |
| Animate.Died | index.js:498-520 | die() always marks the bird dead, moves to SCORE and adds exactly one burst of smoke |
| Animate.Passed | index.js:374-413 | the state partway through the pipe loop: pipe fields from the sweep state; one burst of smoke per hit so far; dead iff the bird was already dead or there was a hit; on the score screen if there was a hit, otherwise in the phase it had |
| Animate.PipesPass | index.js:374-413 | the pipe loop leaves the bird, the counter and the clouds alone and keeps the arena's size and links |
| Animate.AddPair | index.js:416-447 | the spawner grows the arena by one pair and appends its two ids, bottom then top, to the end of the list |
| Animate.Grounded | index.js:454-481 | the ground check and physics step move the bird by one physics step and leave the pipes, the score and the counter alone |
| Animate.PlayAgain | index.js:241-269 | play-again gives MENU, not dead, the bird at its spawn height with zero velocity, score 0, no pipes and no smoke; the counter, the smoke origin and the clouds are unchanged; a state with valid clouds becomes a valid state |
| Animate.GroundDeath | index.js:459-463 | the ground check's die() call; when it fires, the physics step of the frame stops the bird at its height with zero velocity |
| Animate.Frame | index.js:282-496 | the arena grows by one pair exactly on PLAY frames whose counter is a multiple of PIPE_SPAWN_TIME; the clouds take one step |
| Animate.FrameKeepsValid | index.js:282-496 | every frame keeps the invariant of the whole game state |
| Animate.FrameKeepsConsistent | index.js:282-496 | a frame keeps "dead iff on the score screen" |
| Animate.FrameCounter | index.js:372-450 | the frame counter goes up by exactly one on PLAY frames and is unchanged in MENU and SCORE |
| Animate.FrameScoreMonotone | index.js:391-396 | a frame never lowers the score |
| Animate.MenuFrame | index.js:353-359 | a MENU frame only sets the bird's height to the float value and steps smoke and clouds; phase, velocity, pipes, score and counter are unchanged |
| Animate.ScoreScreenFrame | index.js:370-452 | a SCORE frame keeps the phase, the pipes, the score and the counter |
| Animate.FramePhysics | index.js:454-481 | outside the menu the bird takes exactly one physics step per frame |
| Animate.PlayFrame | index.js:372-450 | a PLAY frame runs the pipe loop, then appends the spawned pair, bottom first, on every PIPE_SPAWN_TIME-th frame and on no other |
| Animate.FrameDeaths | index.js:404-463 | a frame calls die() once per overlapping pipe the loop visits, plus once for the ground if nothing killed the bird first; each call adds one burst; the frame ends dead and on the score screen iff some call happened |
| Session.Game.constructor | index.js:91-100 | the game starts in MENU, not dead, with zero velocity, score and counter, no pipes and no smoke, the smoke origin at height 0, in a valid and consistent state |
| Session.Game.Die | index.js:498-522 | the fields after die() are Died of the fields before |
| Session.Game.Jump | index.js:524-537 | the velocity becomes JUMP_STRENGTH iff the bird is below the top of the playfield, whatever the phase; otherwise nothing changes |
| Session.Game.KeyDown | index.js:731-739 | only the space bar (key code 32) jumps |
| Session.Game.PressPlay | index.js:222-232 | the play button enters PLAY, then jumps; from a consistent menu state the result is consistent |
| Session.Game.PressPlayAgain | index.js:241-269 | the fields after the play-again button are PlayAgain of the fields before |
| Session.Game.UpdateSmoke | index.js:288-296 | the smoke loop performs SmokeFrame |
| Session.Game.UpdateClouds | index.js:329-351 | the cloud loop performs CloudFrame |
| Session.Game.VisitPipe | index.js:376-411 | one iteration of the pipe loop performs one SweepStep on the fields and calls die() on a hit |
| Session.Game.SweepPipes | index.js:374-413 | the pipe loop, with the index quirk, performs PipesPass on the fields |
| Session.Game.SpawnPipes | index.js:416-447 | the spawner performs AddPair on the fields |
| Session.Game.GroundAndPhysics | index.js:454-481 | the ground check and physics step perform Grounded on the fields |
| Session.Game.PlayStep | index.js:372-481 | the PLAY part of a frame: the pipe loop, the spawner on every PIPE_SPAWN_TIME-th frame, the counter, then the ground check and physics |
| Session.Game.Tick | index.js:282-496 | one call of animate performs Frame on the fields and keeps the invariant of the game state |

## Left out

- Three.js scene building, models, renderer, camera and window resizing: rendering only, no game logic.
- DOM and UI updates (`style.display`, `innerHTML`, `window.open`, the context menu): output only.
- Audio playback: fire-and-forget output.
- `requestAnimationFrame` scheduling and listener registration: host plumbing. One call of `animate` is one `Tick`; the handlers are methods that run between ticks.
- Rain particles: cosmetic, and their motion follows a rotated local axis.
- Wing rotations, bird tilt and the ground texture offset: cosmetic.
- The `floatAnimation` counter and `Math.sin`: the sine value is the `wave` parameter of `Tick`, so the counter's reset on play-again is not modelled.
- Session.Game.Tick: every die() call in one frame adds the same `burst`, whereas the source draws fresh random particles for each call. Counts and validity are still exact.
- Smoke particles keep only their scale and height offset. Their x and z offsets and the smoke group's x and z position are left out; the group's height is `smokeOriginY`.
- Clouds keep only x and speed; their height, depth and scale never change after creation. Their random creation is the constructor's precondition `InitialCloud`.
- Session.Game.PressPlayAgain: it also empties the arena of pipe records. In the source the removed pipe objects simply become unreachable. Emptying the arena keeps "score = collected points" an invariant.
- IEEE floating-point rounding: coordinates are exact reals.
- Pipes.ShiftedOutOfReach: the spacing of pairs in play (10 apart, less the lag of a skip) is not carried as an invariant of the pipe state; the lemma is stated for a given distance between the retiring pipe and the one that shifts in.
