/**
 * One call of `animate` as a function on the whole game state, and what it
 * preserves. The `Session` module's `Tick` method is proved to perform exactly
 * this step on the fields of the game object.
 *
 * Random draws and the sine of the menu float animation are parameters:
 * `r` is the spawner's Math.random(), `wave` the sine value, and `burst` the
 * smoke particles a die() call adds.
 */
module Animate {
  import opened Config
  import opened Pipes
  import opened Particles
  import opened Bird

  /** Every global of index.js that the frame loop and the input handlers read
      or write (the Three.js objects reduced to the numbers that matter). */
  datatype World = World(
    state: Phase,
    birdY: real,
    velY: real,
    score: nat,
    dead: bool,
    frames: nat,
    arena: seq<Pipe>,
    pipes: seq<nat>,
    smoke: seq<Smoke>,
    smokeOriginY: real,
    clouds: seq<Cloud>)

  /** The invariant of the game state. */
  predicate WorldValid(w: World)
  {
    PipesValid(w.arena, w.pipes, w.score) && SmokeValid(w.smoke) && CloudsValid(w.clouds)
  }

  /** The death flag is set exactly on the score screen. */
  predicate Consistent(w: World)
  {
    w.dead <==> w.state == Score
  }

  /** die(): mark the bird dead, go to the score screen, put the smoke origin at
      the bird and add one burst. */
  function Died(w: World, burst: seq<Smoke>): (d: World)
    ensures d.dead && d.state == Score && Consistent(d)
    ensures |d.smoke| == |w.smoke| + |burst|
  {
    w.(dead := true, state := Score, smokeOriginY := w.birdY, smoke := w.smoke + burst)
  }

  /** The game state once the pipe loop, started in `w`, has reached the
      sweep state `s`: the pipe fields come from `s`, and each of its hits has
      called die(). */
  function Passed(w: World, s: Sweep, burst: seq<Smoke>): (p: World)
    ensures p.arena == s.arena && p.pipes == s.active && p.score == s.score
    ensures p.birdY == w.birdY && p.velY == w.velY && p.frames == w.frames && p.clouds == w.clouds
    ensures p.smoke == w.smoke + Repeat(burst, s.hits)
    ensures p.dead == (w.dead || s.hits > 0) && p.state == (if s.hits > 0 then Score else w.state)
  {
    var swept := w.(arena := s.arena, pipes := s.active, score := s.score,
                    smoke := w.smoke + Repeat(burst, s.hits));
    if s.hits > 0 then swept.(dead := true, state := Score, smokeOriginY := w.birdY) else swept
  }

  /** The pipe loop of a PLAY frame with the die() calls it makes. */
  function PipesPass(w: World, burst: seq<Smoke>): (p: World)
    requires Paired(w.arena) && InRange(w.arena, w.pipes)
    ensures |p.arena| == |w.arena| && Paired(p.arena) && InRange(p.arena, p.pipes)
    ensures p.birdY == w.birdY && p.velY == w.velY && p.frames == w.frames && p.clouds == w.clouds
  {
    Passed(w, PipeFrame(w.arena, w.pipes, w.score, w.birdY), burst)
  }

  /** The spawner's pair, appended to the arena and to the end of the active list. */
  function AddPair(w: World, r: real): (a: World)
    requires 0.0 <= r < 1.0
    ensures |a.arena| == |w.arena| + 2 && |a.pipes| == |w.pipes| + 2 && a.pipes[..|w.pipes|] == w.pipes
    ensures a.pipes[|w.pipes|..] == [|w.arena|, |w.arena| + 1]
  {
    var pair := SpawnPair(r, |w.arena|);
    w.(arena := w.arena + [pair.bottom, pair.top], pipes := w.pipes + [|w.arena|, |w.arena| + 1])
  }

  /** The ground check and the physics step of a frame outside the menu. */
  function Grounded(w: World, burst: seq<Smoke>): (g: World)
    ensures Body(g.birdY, g.velY) == BirdStep(Body(w.birdY, w.velY))
    ensures g.arena == w.arena && g.pipes == w.pipes && g.score == w.score && g.frames == w.frames
  {
    var b := BirdStep(Body(w.birdY, w.velY));
    var moved := w.(birdY := b.y, velY := b.v);
    if w.birdY < GROUND_LINE && !w.dead then Died(moved, burst) else moved
  }

  /** The play-again button: back to the menu with the bird at its spawn
      height, no velocity, no score, no pipes and no smoke; the frame counter,
      the smoke origin and the clouds are left as they are. */
  function PlayAgain(w: World): (a: World)
    ensures a.state == Menu && !a.dead && Consistent(a)
    ensures a.birdY == BIRD_SPAWN_POS_Y && a.velY == 0.0
    ensures a.score == 0 && a.arena == [] && a.pipes == [] && a.smoke == []
    ensures a.frames == w.frames && a.smokeOriginY == w.smokeOriginY && a.clouds == w.clouds
    ensures CloudsValid(w.clouds) ==> WorldValid(a)
  {
    w.(state := Menu, birdY := BIRD_SPAWN_POS_Y, velY := 0.0, score := 0, dead := false,
       smoke := [], pipes := [], arena := [])
  }

  /** One call of animate. */
  function Frame(w: World, r: real, wave: real, burst: seq<Smoke>): (f: World)
    requires Paired(w.arena) && InRange(w.arena, w.pipes) && 0.0 <= r < 1.0
    // the arena only grows, by one pair on a spawn frame
    ensures |f.arena| == |w.arena| + (if w.state == Play && w.frames % PIPE_SPAWN_TIME == 0 then 2 else 0)
    ensures f.clouds == CloudFrame(w.clouds, w.state)
  {
    var w1 := w.(smoke := SmokeFrame(w.smoke), clouds := CloudFrame(w.clouds, w.state));
    if w.state == Menu then
      w1.(birdY := BIRD_SPAWN_POS_Y + wave * BIRD_FLOAT_STRENGTH)
    else if w.state == Play then
      var swept := PipesPass(w1, burst);
      var spawned := if w.frames % PIPE_SPAWN_TIME == 0 then AddPair(swept, r) else swept;
      Grounded(spawned.(frames := w.frames + 1), burst)
    else
      Grounded(w1, burst)
  }

  /** Number of die() calls the pipe pass makes in a frame that starts in `w`. */
  function SweepDeaths(w: World): nat
    requires Paired(w.arena) && InRange(w.arena, w.pipes)
  {
    if w.state == Play then PipeFrame(w.arena, w.pipes, w.score, w.birdY).hits else 0
  }

  /** Whether the ground check calls die() in a frame that starts in `w`: only
      outside the menu, only below the ground line, and only if no earlier die()
      (before the frame, or in its pipe pass) set the flag. When it fires, the
      physics step of the same frame stops the bird where it is. */
  function GroundDeath(w: World, sweepDeaths: nat): (g: bool)
    ensures g ==> BirdStep(Body(w.birdY, w.velY)) == Body(w.birdY, 0.0)
  {
    w.state != Menu && w.birdY < GROUND_LINE && !w.dead && sweepDeaths == 0
  }

  // ---------------------------------------------------------------------------
  // What a frame preserves and changes
  // ---------------------------------------------------------------------------

  /** A frame keeps the invariant of the game state. */
  lemma FrameKeepsValid(w: World, r: real, wave: real, burst: seq<Smoke>)
    requires WorldValid(w) && 0.0 <= r < 1.0 && ValidBurst(burst)
    ensures WorldValid(Frame(w, r, wave, burst))
  {
    var w1 := w.(smoke := SmokeFrame(w.smoke), clouds := CloudFrame(w.clouds, w.state));
    assert WorldValid(w1);
    if w.state == Play {
      PlayStepKeepsValid(w1, r, burst);
    } else if w.state == Score {
      GroundedKeepsValid(w1, burst);
    }
  }

  lemma PlayStepKeepsValid(w: World, r: real, burst: seq<Smoke>)
    requires WorldValid(w) && 0.0 <= r < 1.0 && ValidBurst(burst)
    ensures var swept := PipesPass(w, burst);
            var spawned := if w.frames % PIPE_SPAWN_TIME == 0 then AddPair(swept, r) else swept;
            WorldValid(Grounded(spawned.(frames := w.frames + 1), burst))
  {
    var swept := PipesPass(w, burst);
    PipesPassKeepsValid(w, burst);
    if w.frames % PIPE_SPAWN_TIME == 0 {
      SpawnKeepsValid(swept.arena, swept.pipes, swept.score, r);
      GroundedKeepsValid(AddPair(swept, r).(frames := w.frames + 1), burst);
    } else {
      GroundedKeepsValid(swept.(frames := w.frames + 1), burst);
    }
  }

  lemma PipesPassKeepsValid(w: World, burst: seq<Smoke>)
    requires WorldValid(w) && ValidBurst(burst)
    ensures WorldValid(PipesPass(w, burst)) && PipesPass(w, burst).score >= w.score
  {
    SweepKeepsValid(Sweep(w.arena, w.pipes, w.score, 0), 0, w.birdY);
    SmokeValidConcat(w.smoke, Repeat(burst, PipeFrame(w.arena, w.pipes, w.score, w.birdY).hits));
  }

  lemma GroundedKeepsValid(w: World, burst: seq<Smoke>)
    requires WorldValid(w) && ValidBurst(burst)
    ensures WorldValid(Grounded(w, burst))
  {
    SmokeValidConcat(w.smoke, burst);
  }

  /** A frame keeps the death flag in step with the score screen. */
  lemma FrameKeepsConsistent(w: World, r: real, wave: real, burst: seq<Smoke>)
    requires Paired(w.arena) && InRange(w.arena, w.pipes) && 0.0 <= r < 1.0
    requires Consistent(w)
    ensures Consistent(Frame(w, r, wave, burst))
  {
  }

  /** The frame counter advances exactly on PLAY frames. */
  lemma FrameCounter(w: World, r: real, wave: real, burst: seq<Smoke>)
    requires Paired(w.arena) && InRange(w.arena, w.pipes) && 0.0 <= r < 1.0
    ensures Frame(w, r, wave, burst).frames == w.frames + (if w.state == Play then 1 else 0)
  {
  }

  /** The score never goes down during a frame. */
  lemma FrameScoreMonotone(w: World, r: real, wave: real, burst: seq<Smoke>)
    requires WorldValid(w) && 0.0 <= r < 1.0
    ensures Frame(w, r, wave, burst).score >= w.score
  {
    if w.state == Play {
      SweepKeepsValid(Sweep(w.arena, w.pipes, w.score, 0), 0, w.birdY);
    }
  }

  /** In the menu a frame only floats the bird (and moves smoke and clouds). */
  lemma MenuFrame(w: World, r: real, wave: real, burst: seq<Smoke>)
    requires Paired(w.arena) && InRange(w.arena, w.pipes) && 0.0 <= r < 1.0
    requires w.state == Menu
    ensures var f := Frame(w, r, wave, burst);
            && f.state == Menu && f.birdY == BIRD_SPAWN_POS_Y + wave * BIRD_FLOAT_STRENGTH
            && f.velY == w.velY && f.dead == w.dead && f.frames == w.frames
            && f.arena == w.arena && f.pipes == w.pipes && f.score == w.score
            && f.smoke == SmokeFrame(w.smoke) && f.smokeOriginY == w.smokeOriginY
  {
  }

  /** On the score screen the pipes, the score and the counter are frozen and
      the game stays on the score screen. */
  lemma ScoreScreenFrame(w: World, r: real, wave: real, burst: seq<Smoke>)
    requires Paired(w.arena) && InRange(w.arena, w.pipes) && 0.0 <= r < 1.0
    requires w.state == Score
    ensures var f := Frame(w, r, wave, burst);
            && f.state == Score && f.frames == w.frames
            && f.arena == w.arena && f.pipes == w.pipes && f.score == w.score
  {
  }

  /** Outside the menu the bird follows the physics step. */
  lemma FramePhysics(w: World, r: real, wave: real, burst: seq<Smoke>)
    requires Paired(w.arena) && InRange(w.arena, w.pipes) && 0.0 <= r < 1.0
    requires w.state != Menu
    ensures var f := Frame(w, r, wave, burst);
            Body(f.birdY, f.velY) == BirdStep(Body(w.birdY, w.velY))
  {
  }

  /** A PLAY frame: the pipe pass, then a pair appended on every
      PIPE_SPAWN_TIME-th frame. */
  lemma PlayFrame(w: World, r: real, wave: real, burst: seq<Smoke>)
    requires Paired(w.arena) && InRange(w.arena, w.pipes) && 0.0 <= r < 1.0
    requires w.state == Play
    ensures var f := Frame(w, r, wave, burst);
            var sw := PipeFrame(w.arena, w.pipes, w.score, w.birdY);
            var pair := SpawnPair(r, |sw.arena|);
            && f.score == sw.score
            && (w.frames % PIPE_SPAWN_TIME == 0 ==>
                  f.arena == sw.arena + [pair.bottom, pair.top]
                  && f.pipes == sw.active + [|sw.arena|, |sw.arena| + 1])
            && (w.frames % PIPE_SPAWN_TIME != 0 ==> f.arena == sw.arena && f.pipes == sw.active)
  {
  }

  /** Every die() call of a frame adds one burst of smoke; a frame with at least
      one of them ends on the score screen with the bird dead and the smoke at
      the bird's height, and a frame without one leaves both flags alone. */
  lemma FrameDeaths(w: World, r: real, wave: real, burst: seq<Smoke>)
    requires Paired(w.arena) && InRange(w.arena, w.pipes) && 0.0 <= r < 1.0
    ensures var f := Frame(w, r, wave, burst);
            var hits := SweepDeaths(w);
            var deaths := hits + (if GroundDeath(w, hits) then 1 else 0);
            && f.smoke == SmokeFrame(w.smoke) + Repeat(burst, deaths)
            && |f.smoke| == |w.smoke| + deaths * |burst|
            && f.dead == (w.dead || deaths > 0)
            && f.state == (if deaths > 0 then Score else w.state)
            && (deaths > 0 ==> f.smokeOriginY == w.birdY)
  {
    var hits := SweepDeaths(w);
    var deaths := hits + (if GroundDeath(w, hits) then 1 else 0);
    var s := SmokeFrame(w.smoke);
    RepeatLength(burst, deaths);
    if GroundDeath(w, hits) {
      assert Repeat(burst, deaths) == Repeat(burst, hits) + burst;
      assert s + Repeat(burst, deaths) == (s + Repeat(burst, hits)) + burst;
    }
  }
}
