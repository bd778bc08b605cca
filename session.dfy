/**
 * The game session: the global mutable state of index.js gathered in one
 * object, with one method per entry point that changes it. `Tick` is one call
 * of `animate`, proved to perform the step `Animate.Frame` on the object's
 * fields; `Jump`, `KeyDown`, `PressPlay` and `PressPlayAgain` are the input
 * handlers, which run between frames.
 *
 * Random draws and the sine of the menu float animation are parameters:
 * `r` is the spawner's Math.random(), `wave` the sine value, and `burst` the
 * smoke particles a die() call adds.
 */
module Session {
  import opened Config
  import opened Pipes
  import opened Particles
  import opened Bird
  import opened Animate

  class Game {
    var state: Phase
    var birdY: real
    var velY: real
    var score: nat
    var dead: bool
    var frames: nat
    /** Every pipe spawned since the last reset, indexed by id. */
    var arena: seq<Pipe>
    /** The `pipes` array: ids of the active pipes, in list order. */
    var pipes: seq<nat>
    var smoke: seq<Smoke>
    /** Height of the smoke group's origin, set to the bird's height by die(). */
    var smokeOriginY: real
    var clouds: seq<Cloud>

    /** The fields as one value. */
    function Snap(): World
      reads this
    {
      World(state, birdY, velY, score, dead, frames, arena, pipes, smoke, smokeOriginY, clouds)
    }

    ghost predicate Valid()
      reads this
    {
      WorldValid(Snap())
    }

    /** init(): the bird object starts at the origin, the game in the menu. */
    constructor (initialClouds: seq<Cloud>)
      requires |initialClouds| == CLOUD_COUNT
      requires forall i :: 0 <= i < |initialClouds| ==> InitialCloud(initialClouds[i])
      ensures Valid() && Consistent(Snap())
      ensures state == Menu && birdY == 0.0 && velY == 0.0 && score == 0 && !dead && frames == 0
      ensures pipes == [] && arena == [] && smoke == [] && smokeOriginY == 0.0 && clouds == initialClouds
    {
      state := Menu;
      birdY := 0.0;
      velY := 0.0;
      score := 0;
      dead := false;
      frames := 0;
      arena := [];
      pipes := [];
      smoke := [];
      smokeOriginY := 0.0;
      clouds := initialClouds;
    }

    /** die(): no guard of its own; every call marks the bird dead, moves to
        the score screen, puts the smoke origin at the bird and adds a burst. */
    method Die(burst: seq<Smoke>)
      modifies this`dead, this`state, this`smokeOriginY, this`smoke
      ensures Snap() == Died(old(Snap()), burst)
    {
      dead := true;
      state := Score;
      smokeOriginY := birdY;
      smoke := smoke + burst;
    }

    /** jump(): whatever the phase, the bird gets the jump velocity when it is
        below the top of the playfield; otherwise nothing changes. */
    method Jump()
      modifies this`velY
      ensures velY == if birdY < PIPE_TOTAL_HEIGHT then JUMP_STRENGTH else old(velY)
    {
      if birdY < PIPE_TOTAL_HEIGHT {
        velY := JUMP_STRENGTH;
      }
    }

    /** onKeyDown: only the space bar jumps. */
    method KeyDown(keyCode: int)
      modifies this`velY
      ensures velY == if keyCode == SPACE_KEY && birdY < PIPE_TOTAL_HEIGHT then JUMP_STRENGTH else old(velY)
    {
      if keyCode == SPACE_KEY {
        Jump();
      }
    }

    /** The play button: enter PLAY, then jump. */
    method PressPlay()
      modifies this`state, this`velY
      ensures state == Play
      ensures velY == if birdY < PIPE_TOTAL_HEIGHT then JUMP_STRENGTH else old(velY)
      ensures old(state) == Menu && old(Consistent(Snap())) ==> Consistent(Snap())
    {
      state := Play;
      Jump();
    }

    /** The play-again button. */
    method PressPlayAgain()
      modifies this`state, this`birdY, this`velY, this`score, this`dead, this`arena, this`pipes, this`smoke
      ensures Snap() == PlayAgain(old(Snap()))
    {
      state := Menu;
      birdY := BIRD_SPAWN_POS_Y;
      velY := 0.0;
      score := 0;
      dead := false;
      smoke := [];
      pipes := [];
      arena := [];
    }

    /** The smoke loop of animate. */
    method UpdateSmoke()
      modifies this`smoke
      ensures smoke == SmokeFrame(old(smoke))
    {
      var i := 0;
      while i < |smoke|
        invariant 0 <= i <= |smoke| == |old(smoke)|
        invariant forall j :: 0 <= j < i ==> smoke[j] == SmokeStep(old(smoke)[j])
        invariant forall j :: i <= j < |smoke| ==> smoke[j] == old(smoke)[j]
      {
        smoke := smoke[i := SmokeStep(smoke[i])];
        i := i + 1;
      }
    }

    /** The cloud loop of animate. */
    method UpdateClouds()
      modifies this`clouds
      ensures clouds == CloudFrame(old(clouds), state)
    {
      var i := 0;
      while i < |clouds|
        invariant 0 <= i <= |clouds| == |old(clouds)|
        invariant forall j :: 0 <= j < i ==> clouds[j] == CloudStep(old(clouds)[j], state)
        invariant forall j :: i <= j < |clouds| ==> clouds[j] == old(clouds)[j]
      {
        clouds := clouds[i := CloudStep(clouds[i], state)];
        i := i + 1;
      }
    }

    /** The body of the pipe loop for the pipe at index i: move it left and
        splice it out past the edge; otherwise award its point if it has passed
        the bird and neither half of its pair has scored, and call die() if it
        overlaps the bird. `w0` is the state when the loop started and `cur`
        the sweep state the loop has reached. */
    method VisitPipe(i: nat, burst: seq<Smoke>, ghost w0: World, ghost cur: Sweep)
      requires Shape(cur) && i < |cur.active| && Snap() == Passed(w0, cur, burst)
      modifies this`arena, this`pipes, this`score, this`dead, this`state, this`smokeOriginY, this`smoke
      ensures Snap() == Passed(w0, SweepStep(cur, i, w0.birdY), burst)
    {
      ghost var t := SweepStep(cur, i, w0.birdY);
      var id := pipes[i];
      var moved := arena[id].(x := arena[id].x - OBJECT_MOVE_SPEED);
      arena := arena[id := moved];
      if moved.x < -PIPE_SPAWN_POS_X {
        pipes := Remove(pipes, i);
        assert t == Sweep(arena, pipes, score, cur.hits);
      } else {
        if moved.x < BIRD_X && !moved.pointCollected && !arena[moved.other].pointCollected {
          score := score + 1;
          arena := arena[id := moved.(pointCollected := true)];
        }
        if Collides(birdY, arena[id]) {
          assert t == Sweep(arena, pipes, score, cur.hits + 1);
          Die(burst);
          assert w0.smoke + Repeat(burst, cur.hits + 1) == (w0.smoke + Repeat(burst, cur.hits)) + burst;
        } else {
          assert t == Sweep(arena, pipes, score, cur.hits);
        }
      }
    }

    /** The pipe loop of animate, with its quirks: `i` advances after a splice,
        and die() is called for every overlapping pipe. */
    method SweepPipes(burst: seq<Smoke>)
      requires Paired(arena) && InRange(arena, pipes)
      modifies this`arena, this`pipes, this`score, this`dead, this`state, this`smokeOriginY, this`smoke
      ensures Snap() == PipesPass(old(Snap()), burst)
    {
      ghost var w0 := Snap();
      ghost var cur := Sweep(arena, pipes, score, 0);
      var i := 0;
      while i < |pipes|
        invariant i <= |pipes| + 1
        invariant Shape(cur) && Snap() == Passed(w0, cur, burst)
        invariant SweepFrom(cur, i, w0.birdY) == PipeFrame(w0.arena, w0.pipes, w0.score, w0.birdY)
        decreases |pipes| + 1 - i
      {
        VisitPipe(i, burst, w0, cur);
        cur := SweepStep(cur, i, w0.birdY);
        i := i + 1;
      }
    }

    /** The spawner: a new bottom/top pair at the end of the list. */
    method SpawnPipes(r: real)
      requires 0.0 <= r < 1.0
      modifies this`arena, this`pipes
      ensures Snap() == AddPair(old(Snap()), r)
    {
      var pair := SpawnPair(r, |arena|);
      var n := |arena|;
      arena := arena + [pair.bottom, pair.top];
      pipes := pipes + [n, n + 1];
    }

    /** The ground check and physics step of animate (outside the menu). */
    method GroundAndPhysics(burst: seq<Smoke>)
      modifies this`birdY, this`velY, this`dead, this`state, this`smokeOriginY, this`smoke
      ensures Snap() == Grounded(old(Snap()), burst)
    {
      if birdY < BIRD_SIZE / 2.0 {
        velY := 0.0;
        if !dead {
          Die(burst);
        }
      } else {
        velY := velY + GRAVITY;
        birdY := birdY + velY;
      }
    }

    /** The PLAY part of a frame: the pipe loop, the spawner on every
        PIPE_SPAWN_TIME-th frame, the counter, then the ground check and the
        physics step. */
    method PlayStep(r: real, burst: seq<Smoke>)
      requires Paired(arena) && InRange(arena, pipes) && 0.0 <= r < 1.0
      modifies this`arena, this`pipes, this`score, this`dead, this`state, this`smokeOriginY, this`smoke,
               this`frames, this`birdY, this`velY
      ensures var swept := PipesPass(old(Snap()), burst);
              var spawned := if old(frames) % PIPE_SPAWN_TIME == 0 then AddPair(swept, r) else swept;
              Snap() == Grounded(spawned.(frames := old(frames) + 1), burst)
    {
      SweepPipes(burst);
      ghost var swept := Snap();
      if frames % PIPE_SPAWN_TIME == 0 {
        SpawnPipes(r);
      }
      ghost var spawned := Snap();
      frames := frames + 1;
      assert Snap() == spawned.(frames := old(frames) + 1);
      GroundAndPhysics(burst);
    }

    /** One frame (animate): the step Frame on the fields, which keeps the
        invariant. */
    method Tick(r: real, wave: real, burst: seq<Smoke>)
      requires Valid() && 0.0 <= r < 1.0 && ValidBurst(burst)
      modifies this
      ensures Snap() == Frame(old(Snap()), r, wave, burst)
      ensures Valid()
    {
      ghost var w := Snap();
      UpdateSmoke();
      UpdateClouds();
      ghost var w1 := w.(smoke := SmokeFrame(w.smoke), clouds := CloudFrame(w.clouds, w.state));
      assert Snap() == w1;
      if state == Menu {
        birdY := BIRD_SPAWN_POS_Y + wave * BIRD_FLOAT_STRENGTH;
        assert Snap() == w1.(birdY := BIRD_SPAWN_POS_Y + wave * BIRD_FLOAT_STRENGTH);
        assert Snap() == Frame(w, r, wave, burst);
      } else if state == Play {
        PlayStep(r, burst);
        assert Snap() == Frame(w, r, wave, burst);
      } else {
        GroundAndPhysics(burst);
        assert Snap() == Grounded(w1, burst);
        assert Snap() == Frame(w, r, wave, burst);
      }
      FrameKeepsValid(w, r, wave, burst);
    }
  }
}
