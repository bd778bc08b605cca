/**
 * Pipes: spawning a linked bottom/top pair, the bird-versus-pipe overlap test,
 * and the per-frame pass over the active pipe list (move left, retire off-screen
 * pipes with the index quirk of the source, award points, detect collisions).
 *
 * Pipe objects live in an arena indexed by id; the active list `pipes` holds ids.
 * A pair spawned when the arena has length n gets ids n (bottom) and n + 1 (top),
 * and each record stores its partner's id, standing for the `otherPipe` link,
 * which stays valid after the partner has left the active list.
 */
module Pipes {
  import opened Config

  /** One pipe: centre (x, y), height, whether it is the flipped top half, the
      point flag, and the arena id of its partner. `flipped` stands for the top
      pipe's half-turn rotation; it is only used for drawing and nothing reads it. */
  datatype Pipe = Pipe(x: real, y: real, height: real, flipped: bool, pointCollected: bool, other: nat)

  datatype PipePair = PipePair(bottom: Pipe, top: Pipe)

  // ---------------------------------------------------------------------------
  // Spawning
  // ---------------------------------------------------------------------------

  /** The pair created by the spawner from one uniform draw `r`; `id` is the
      arena id the bottom pipe will get. */
  function SpawnPair(r: real, id: nat): (pair: PipePair)
    requires 0.0 <= r < 1.0
    // the two heights and the gap fill the playfield exactly
    ensures pair.bottom.height + pair.top.height + PIPE_GAP_SIZE * PIPE_TOTAL_HEIGHT == PIPE_TOTAL_HEIGHT
    // neither half is shorter than the minimum size
    ensures pair.bottom.height >= PIPE_MIN_SIZE * PIPE_TOTAL_HEIGHT
    ensures pair.top.height > PIPE_MIN_SIZE * PIPE_TOTAL_HEIGHT
    // the bottom pipe spans [0, h1], the top one [TOTAL - h2, TOTAL]
    ensures pair.bottom.y - pair.bottom.height / 2.0 == 0.0
    ensures pair.top.y + pair.top.height / 2.0 == PIPE_TOTAL_HEIGHT
    // so the opening between them is exactly the gap fraction of the playfield
    ensures (pair.top.y - pair.top.height / 2.0) - (pair.bottom.y + pair.bottom.height / 2.0)
            == PIPE_GAP_SIZE * PIPE_TOTAL_HEIGHT
    ensures pair.bottom.x == PIPE_SPAWN_POS_X && pair.top.x == PIPE_SPAWN_POS_X
    // fresh, unscored, and linked to each other
    ensures !pair.bottom.pointCollected && !pair.top.pointCollected
    ensures pair.bottom.other == id + 1 && pair.top.other == id
  {
    var h1 := PIPE_TOTAL_HEIGHT * (r * (1.0 - PIPE_MIN_SIZE * 2.0 - PIPE_GAP_SIZE) + PIPE_MIN_SIZE);
    var h2 := PIPE_TOTAL_HEIGHT - (PIPE_GAP_SIZE * PIPE_TOTAL_HEIGHT + h1);
    PipePair(Pipe(PIPE_SPAWN_POS_X, h1 / 2.0, h1, false, false, id + 1),
             Pipe(PIPE_SPAWN_POS_X, PIPE_TOTAL_HEIGHT - h2 / 2.0, h2, true, false, id))
  }

  /** A draw of one half gives the symmetric pair: both halves 4.9 high. */
  lemma SpawnAtHalf(id: nat)
    ensures SpawnPair(0.5, id).bottom.height == 4.9
    ensures SpawnPair(0.5, id).top.height == 4.9
  {
  }

  // ---------------------------------------------------------------------------
  // Collision
  // ---------------------------------------------------------------------------

  /** Strict axis-aligned box overlap between the bird (a square of side
      BIRD_SIZE centred at (BIRD_X, birdY)) and the pipe (half-width
      PIPE_RADIUS, half-height height / 2). Only a pipe whose centre is
      horizontally within reach of the bird can touch it. */
  function Collides(birdY: real, p: Pipe): (c: bool)
    ensures c ==> Abs(p.x - BIRD_X) < BIRD_SIZE / 2.0 + PIPE_RADIUS
  {
    && BIRD_X + BIRD_SIZE / 2.0 > p.x - PIPE_RADIUS
    && BIRD_X - BIRD_SIZE / 2.0 < p.x + PIPE_RADIUS
    && birdY + BIRD_SIZE / 2.0 > p.y - p.height / 2.0
    && birdY - BIRD_SIZE / 2.0 < p.y + p.height / 2.0
  }

  function Abs(v: real): (a: real)
    ensures a >= 0.0 && (a == v || a == -v)
  {
    if v < 0.0 then -v else v
  }

  /** The overlap test is the centre-distance test: on each axis the centres are
      closer than the sum of the half-extents. */
  lemma CollidesIffCentresClose(birdY: real, p: Pipe)
    ensures Collides(birdY, p) <==>
              && Abs(p.x - BIRD_X) < BIRD_SIZE / 2.0 + PIPE_RADIUS
              && Abs(p.y - birdY) < (BIRD_SIZE + p.height) / 2.0
  {
  }

  /** Concrete cases: a 4-high pipe centred at (0, 2) spans heights 0 to 4, so a
      bird centred at height 5 (spanning 4.5 to 5.5) clears it, one at height 3
      hits it, and the same pipe moved to x = 10 is out of reach at any height. */
  lemma CollisionExamples()
    ensures !Collides(5.0, Pipe(0.0, 2.0, 4.0, false, false, 1))
    ensures Collides(3.0, Pipe(0.0, 2.0, 4.0, false, false, 1))
    ensures forall y: real :: !Collides(y, Pipe(10.0, 2.0, 4.0, false, false, 1))
  {
  }

  // ---------------------------------------------------------------------------
  // The arena and the active list
  // ---------------------------------------------------------------------------

  /** The id of the other half of the pair that `id` belongs to. */
  function Partner(id: nat): nat
  {
    if id % 2 == 0 then id + 1 else id - 1
  }

  /** The arena holds whole pairs, and every record links to its partner. */
  predicate Paired(arena: seq<Pipe>)
  {
    && |arena| % 2 == 0
    && forall k :: 0 <= k < |arena| ==> arena[k].other == Partner(k)
  }

  predicate InRange(arena: seq<Pipe>, ids: seq<nat>)
  {
    forall j :: 0 <= j < |ids| ==> ids[j] < |arena|
  }

  /** The active-list entries at positions j and k name different pipes. */
  predicate Apart(ids: seq<nat>, j: nat, k: nat)
    requires j < |ids| && k < |ids|
  {
    ids[j] != ids[k]
  }

  /** No pipe occurs twice in the active list. */
  predicate Distinct(ids: seq<nat>)
  {
    forall j: nat, k: nat :: j < k < |ids| ==> Apart(ids, j, k)
  }

  /** No active pipe lies past the left retirement line. */
  predicate OnScreen(arena: seq<Pipe>, ids: seq<nat>)
    requires InRange(arena, ids)
  {
    forall j :: 0 <= j < |ids| ==> arena[ids[j]].x >= -PIPE_SPAWN_POS_X
  }

  /** The pipes at k and k + 1 have not both collected their point. */
  predicate PairOk(arena: seq<Pipe>, k: nat)
    requires k + 1 < |arena|
  {
    !(arena[k].pointCollected && arena[k + 1].pointCollected)
  }

  /** At most one half of each pair has collected its point. */
  predicate OnePointPerPair(arena: seq<Pipe>)
  {
    forall k: nat :: k + 1 < |arena| && k % 2 == 0 ==> PairOk(arena, k)
  }

  function Flag(p: Pipe): nat
  {
    if p.pointCollected then 1 else 0
  }

  /** Number of pipes in the arena whose point has been collected. */
  function CountCollected(arena: seq<Pipe>): nat
  {
    if arena == [] then 0 else CountCollected(arena[..|arena| - 1]) + Flag(arena[|arena| - 1])
  }

  /** The invariant of the pipe state: well-linked pairs, a duplicate-free active
      list of on-screen pipes, one point per pair, and a score that is exactly
      the number of collected points. */
  predicate PipesValid(arena: seq<Pipe>, ids: seq<nat>, score: nat)
  {
    && Paired(arena)
    && InRange(arena, ids)
    && Distinct(ids)
    && OnScreen(arena, ids)
    && OnePointPerPair(arena)
    && score == CountCollected(arena)
  }

  lemma {:induction false} CountCollectedUpdate(arena: seq<Pipe>, k: nat, p: Pipe)
    requires k < |arena|
    ensures CountCollected(arena[k := p]) == CountCollected(arena) - Flag(arena[k]) + Flag(p)
  {
    var n := |arena| - 1;
    if k == n {
      assert arena[k := p][..n] == arena[..n];
    } else {
      assert arena[k := p][..n] == arena[..n][k := p];
      CountCollectedUpdate(arena[..n], k, p);
    }
  }

  /** Each pair adds at most one point, so the score never exceeds the number
      of pairs spawned since the last reset. */
  lemma {:induction false} CollectedAtMostOnePerPair(arena: seq<Pipe>)
    requires |arena| % 2 == 0 && OnePointPerPair(arena)
    ensures CountCollected(arena) <= |arena| / 2
  {
    if arena != [] {
      var n := |arena|;
      var front := arena[..n - 2];
      assert arena[..n - 1][..n - 2] == front;
      assert PairOk(arena, n - 2);
      assert OnePointPerPair(front) by {
        forall k: nat | k + 1 < |front| && k % 2 == 0
          ensures PairOk(front, k)
        {
          assert PairOk(arena, k);
          assert front[k] == arena[k] && front[k + 1] == arena[k + 1];
        }
      }
      CollectedAtMostOnePerPair(front);
    }
  }

  lemma ScoreAtMostPairs(arena: seq<Pipe>, ids: seq<nat>, score: nat)
    requires PipesValid(arena, ids, score)
    ensures score <= |arena| / 2
  {
    CollectedAtMostOnePerPair(arena);
  }

  /** Appending a fresh pair keeps the invariant, and the new ids sit at the end
      of the active list. */
  lemma {:induction false} SpawnKeepsValid(arena: seq<Pipe>, ids: seq<nat>, score: nat, r: real)
    requires PipesValid(arena, ids, score) && 0.0 <= r < 1.0
    ensures var pair := SpawnPair(r, |arena|);
            PipesValid(arena + [pair.bottom, pair.top], ids + [|arena|, |arena| + 1], score)
  {
    var pair := SpawnPair(r, |arena|);
    var n := |arena|;
    var arena' := arena + [pair.bottom, pair.top];
    var ids' := ids + [n, n + 1];
    assert arena'[..n + 1] == arena + [pair.bottom];
    assert arena'[..n + 1][..n] == arena;
    assert CountCollected(arena') == CountCollected(arena);
    assert Paired(arena') by {
      forall k | 0 <= k < |arena'| ensures arena'[k].other == Partner(k) {
        if k < n { assert arena'[k] == arena[k]; }
      }
    }
    assert OnePointPerPair(arena') by {
      forall k: nat | k + 1 < |arena'| && k % 2 == 0
        ensures PairOk(arena', k)
      {
        if k < n {
          assert PairOk(arena, k);
          assert arena'[k] == arena[k] && arena'[k + 1] == arena[k + 1];
        }
      }
    }
    assert Distinct(ids') by {
      forall j: nat, k: nat | j < k < |ids'| ensures Apart(ids', j, k) {
        if k < |ids| {
          assert Apart(ids, j, k);
        } else if j < |ids| {
          assert ids'[j] == ids[j] < n;
        }
      }
    }
    assert OnScreen(arena', ids') by {
      forall j | 0 <= j < |ids'| ensures arena'[ids'[j]].x >= -PIPE_SPAWN_POS_X {
        if j < |ids| { assert ids'[j] == ids[j] && arena'[ids[j]] == arena[ids[j]]; }
      }
    }
  }

  // ---------------------------------------------------------------------------
  // The per-frame pass over the active list
  // ---------------------------------------------------------------------------

  /** State carried by the pass: the arena, the active list, the score, and the
      number of collisions met so far (each one is a call of die()). */
  datatype Sweep = Sweep(arena: seq<Pipe>, active: seq<nat>, score: nat, hits: nat)

  predicate Shape(s: Sweep)
  {
    Paired(s.arena) && InRange(s.arena, s.active)
  }

  /** `splice(i, 1)`: drop the element at i; everything after it moves one
      slot to the left, in order. */
  function Remove(ids: seq<nat>, i: nat): (r: seq<nat>)
    requires i < |ids|
    ensures |r| == |ids| - 1
    ensures forall k :: 0 <= k < i ==> r[k] == ids[k]
    ensures forall k :: i <= k < |r| ==> r[k] == ids[k + 1]
  {
    ids[..i] + ids[i + 1..]
  }

  /** One iteration of the loop body for index i: move the pipe left, retire it
      if it is past the edge, otherwise award a point if it is passed and
      neither half of its pair has scored, and count a hit if it overlaps the
      bird. */
  function SweepStep(s: Sweep, i: nat, birdY: real): (t: Sweep)
    requires Shape(s) && i < |s.active|
    ensures Shape(t) && |t.arena| == |s.arena|
    ensures t.hits == s.hits || t.hits == s.hits + 1
    ensures t.active == s.active || |t.active| + 1 == |s.active|
  {
    var id := s.active[i];
    var moved := s.arena[id].(x := s.arena[id].x - OBJECT_MOVE_SPEED);
    var arena := s.arena[id := moved];
    if moved.x < -PIPE_SPAWN_POS_X then
      Sweep(arena, Remove(s.active, i), s.score, s.hits)
    else
      var scores := moved.x < BIRD_X && !moved.pointCollected && !arena[moved.other].pointCollected;
      var p := if scores then moved.(pointCollected := true) else moved;
      Sweep(arena[id := p], s.active,
            if scores then s.score + 1 else s.score,
            if Collides(birdY, p) then s.hits + 1 else s.hits)
  }

  /** The loop from index i on. The index advances after every iteration, also
      after a removal, so after a removal the loop may already be one past the
      end of the list. */
  function SweepFrom(s: Sweep, i: nat, birdY: real): (r: Sweep)
    requires Shape(s) && i <= |s.active| + 1
    ensures Shape(r) && |r.arena| == |s.arena|
    ensures s.hits <= r.hits && (i <= |s.active| ==> r.hits <= s.hits + (|s.active| - i))
    decreases |s.active| + 1 - i
  {
    if i >= |s.active| then s else SweepFrom(SweepStep(s, i, birdY), i + 1, birdY)
  }

  /** The whole pass of one PLAY frame, starting with no hits: at most one
      hit per active pipe. */
  function PipeFrame(arena: seq<Pipe>, ids: seq<nat>, score: nat, birdY: real): (r: Sweep)
    requires Paired(arena) && InRange(arena, ids)
    ensures Shape(r) && |r.arena| == |arena|
    ensures r.hits <= |ids|
  {
    SweepFrom(Sweep(arena, ids, score, 0), 0, birdY)
  }

  /** Scoring in one step: the score goes up by exactly one precisely when the
      moved pipe stays on screen, has passed the bird, and neither it nor its
      partner has its flag; only that pipe's record changes. */
  lemma ScoreStep(s: Sweep, i: nat, birdY: real)
    requires Shape(s) && i < |s.active|
    ensures var id := s.active[i];
            var t := SweepStep(s, i, birdY);
            var x := s.arena[id].x - OBJECT_MOVE_SPEED;
            && (t.score == s.score + 1 <==>
                  (-PIPE_SPAWN_POS_X <= x < BIRD_X
                   && !s.arena[id].pointCollected && !s.arena[Partner(id)].pointCollected))
            && (t.score == s.score || t.score == s.score + 1)
            && (t.score == s.score + 1 ==> t.arena[id].pointCollected)
            && (forall k :: 0 <= k < |s.arena| && k != id ==> t.arena[k] == s.arena[k])
  {
  }

  /** Moving a pipe past the left line and splicing it out keeps the invariant. */
  lemma RetireKeepsValid(arena: seq<Pipe>, ids: seq<nat>, score: nat, i: nat, moved: Pipe)
    requires PipesValid(arena, ids, score) && i < |ids|
    requires moved.other == arena[ids[i]].other && moved.pointCollected == arena[ids[i]].pointCollected
    ensures PipesValid(arena[ids[i] := moved], Remove(ids, i), score)
  {
    var id := ids[i];
    var arena' := arena[id := moved];
    var ids' := Remove(ids, i);
    CountCollectedUpdate(arena, id, moved);
    assert OnePointPerPair(arena') by {
      forall k: nat | k + 1 < |arena'| && k % 2 == 0
        ensures PairOk(arena', k)
      {
        assert PairOk(arena, k);
        assert arena'[k].pointCollected == arena[k].pointCollected;
        assert arena'[k + 1].pointCollected == arena[k + 1].pointCollected;
      }
    }
    assert Distinct(ids') by {
      forall j: nat, k: nat | j < k < |ids'| ensures Apart(ids', j, k) {
        var j' := if j < i then j else j + 1;
        var k' := if k < i then k else k + 1;
        assert ids'[j] == ids[j'] && ids'[k] == ids[k'];
        assert Apart(ids, j', k');
      }
    }
    assert OnScreen(arena', ids') by {
      forall j | 0 <= j < |ids'| ensures arena'[ids'[j]].x >= -PIPE_SPAWN_POS_X {
        var j' := if j < i then j else j + 1;
        assert ids'[j] == ids[j'] && j' != i;
        if j' < i { assert Apart(ids, j', i); } else { assert Apart(ids, i, j'); }
      }
    }
  }

  /** Rewriting one pipe in place keeps the invariant when it stays on screen,
      keeps its link, only gains a point if its partner has none, and the score
      follows the change of its flag. */
  lemma VisitKeepsValid(arena: seq<Pipe>, ids: seq<nat>, score: nat, id: nat, p: Pipe, score': nat)
    requires PipesValid(arena, ids, score) && id < |arena|
    requires p.other == arena[id].other && p.x >= -PIPE_SPAWN_POS_X
    requires p.pointCollected != arena[id].pointCollected ==>
               p.pointCollected && !arena[Partner(id)].pointCollected
    requires score' == score - Flag(arena[id]) + Flag(p)
    ensures PipesValid(arena[id := p], ids, score')
  {
    var arena' := arena[id := p];
    CountCollectedUpdate(arena, id, p);
    assert OnePointPerPair(arena') by {
      forall k: nat | k + 1 < |arena'| && k % 2 == 0
        ensures PairOk(arena', k)
      {
        assert PairOk(arena, k);
        if k == id {
          assert Partner(id) == k + 1;
        } else if k + 1 == id {
          assert Partner(id) == k;
        } else {
          assert arena'[k] == arena[k] && arena'[k + 1] == arena[k + 1];
        }
      }
    }
    assert OnScreen(arena', ids) by {
      forall j | 0 <= j < |ids| ensures arena'[ids[j]].x >= -PIPE_SPAWN_POS_X {
        if ids[j] != id { assert arena'[ids[j]] == arena[ids[j]]; }
      }
    }
  }

  /** One step keeps the invariant and never lowers the score. */
  lemma StepKeepsValid(s: Sweep, i: nat, birdY: real)
    requires PipesValid(s.arena, s.active, s.score) && i < |s.active|
    ensures var t := SweepStep(s, i, birdY);
            PipesValid(t.arena, t.active, t.score) && t.score >= s.score
  {
    var id := s.active[i];
    var moved := s.arena[id].(x := s.arena[id].x - OBJECT_MOVE_SPEED);
    if moved.x < -PIPE_SPAWN_POS_X {
      RetireKeepsValid(s.arena, s.active, s.score, i, moved);
    } else {
      StayKeepsValid(s, i, birdY);
    }
  }

  /** The step for a pipe that stays on screen keeps the invariant. */
  lemma StayKeepsValid(s: Sweep, i: nat, birdY: real)
    requires PipesValid(s.arena, s.active, s.score) && i < |s.active|
    requires s.arena[s.active[i]].x - OBJECT_MOVE_SPEED >= -PIPE_SPAWN_POS_X
    ensures var t := SweepStep(s, i, birdY);
            PipesValid(t.arena, t.active, t.score) && t.score >= s.score
  {
    var t := SweepStep(s, i, birdY);
    var id := s.active[i];
    var moved := s.arena[id].(x := s.arena[id].x - OBJECT_MOVE_SPEED);
    var arena := s.arena[id := moved];
    var scores := moved.x < BIRD_X && !moved.pointCollected && !arena[moved.other].pointCollected;
    var p := if scores then moved.(pointCollected := true) else moved;
    assert arena[id := p] == s.arena[id := p];
    assert scores ==> arena[moved.other] == s.arena[Partner(id)];
    VisitKeepsValid(s.arena, s.active, s.score, id, p, t.score);
  }

  /** The pass keeps the invariant and never lowers the score. */
  lemma {:induction false} SweepKeepsValid(s: Sweep, i: nat, birdY: real)
    requires PipesValid(s.arena, s.active, s.score) && i <= |s.active| + 1
    ensures var r := SweepFrom(s, i, birdY);
            PipesValid(r.arena, r.active, r.score) && r.score >= s.score
    decreases |s.active| + 1 - i
  {
    if i < |s.active| {
      StepKeepsValid(s, i, birdY);
      SweepKeepsValid(SweepStep(s, i, birdY), i + 1, birdY);
    }
  }

  /** The pass only ever touches pipes it visits: a pipe id that does not occur
      at index i or later keeps its record. */
  lemma {:induction false} SweepFrame(s: Sweep, i: nat, birdY: real, id: nat)
    requires Shape(s) && i <= |s.active| + 1 && id < |s.arena|
    requires forall k :: i <= k < |s.active| ==> s.active[k] != id
    ensures SweepFrom(s, i, birdY).arena[id] == s.arena[id]
    decreases |s.active| + 1 - i
  {
    if i < |s.active| {
      var t := SweepStep(s, i, birdY);
      assert t.arena[id] == s.arena[id];
      assert forall k :: i + 1 <= k < |t.active| ==> t.active[k] != id by {
        forall k | i + 1 <= k < |t.active| ensures t.active[k] != id {
          if |t.active| < |s.active| {
            assert t.active[k] == s.active[k + 1];
          } else {
            assert t.active[k] == s.active[k];
          }
        }
      }
      SweepFrame(t, i + 1, birdY, id);
    }
  }

  /** The pass keeps the prefix of the list it has already walked past. */
  lemma {:induction false} SweepKeepsPrefix(s: Sweep, i: nat, birdY: real)
    requires Shape(s) && i <= |s.active|
    ensures var r := SweepFrom(s, i, birdY);
            |r.active| >= i && r.active[..i] == s.active[..i]
    decreases |s.active| + 1 - i
  {
    if i < |s.active| {
      var t := SweepStep(s, i, birdY);
      var r := SweepFrom(t, i + 1, birdY);
      assert SweepFrom(s, i, birdY) == r;
      StepKeepsPrefix(s, i, birdY);
      if i + 1 <= |t.active| {
        SweepKeepsPrefix(t, i + 1, birdY);
        assert r.active[..i] == r.active[..i + 1][..i];
        assert t.active[..i] == t.active[..i + 1][..i];
      } else {
        assert r == t;
      }
    }
  }

  /** One step keeps the part of the list before i. */
  lemma StepKeepsPrefix(s: Sweep, i: nat, birdY: real)
    requires Shape(s) && i < |s.active|
    ensures var t := SweepStep(s, i, birdY);
            |t.active| >= i && t.active[..i] == s.active[..i]
  {
    StepFacts(s, i, birdY);
  }

  /** The ids of `ids` whose pipe is not past the left retirement line, in order. */
  function OnScreenIds(arena: seq<Pipe>, ids: seq<nat>): seq<nat>
    requires InRange(arena, ids)
  {
    if ids == [] then []
    else (if arena[ids[0]].x >= -PIPE_SPAWN_POS_X then [ids[0]] else []) + OnScreenIds(arena, ids[1..])
  }

  /** What one step does to the list and the arena, without the scoring detail. */
  lemma StepFacts(s: Sweep, i: nat, birdY: real)
    requires Shape(s) && i < |s.active|
    ensures var t := SweepStep(s, i, birdY);
            var id := s.active[i];
            && t.arena[id].x == s.arena[id].x - OBJECT_MOVE_SPEED
            && (forall k :: 0 <= k < |s.arena| && k != id ==> t.arena[k] == s.arena[k])
            && t.active == (if s.arena[id].x - OBJECT_MOVE_SPEED < -PIPE_SPAWN_POS_X
                            then Remove(s.active, i) else s.active)
  {
  }

  /** OnScreenIds unfolded once at index i of a list. */
  lemma OnScreenAt(arena: seq<Pipe>, ids: seq<nat>, i: nat)
    requires InRange(arena, ids) && i < |ids|
    ensures OnScreenIds(arena, ids[i..]) ==
            (if arena[ids[i]].x >= -PIPE_SPAWN_POS_X then [ids[i]] else []) + OnScreenIds(arena, ids[i + 1..])
  {
    assert ids[i..][0] == ids[i] && ids[i..][1..] == ids[i + 1..];
  }

  /** After the splice at i, slot i holds the next id, and the rest of the
      list is the old rest. */
  lemma RemoveSlices(ids: seq<nat>, i: nat)
    requires i + 1 < |ids|
    ensures Remove(ids, i)[i] == ids[i + 1]
    ensures Remove(ids, i)[..i + 1] == ids[..i] + [ids[i + 1]]
    ensures Remove(ids, i)[i + 1..] == ids[i + 2..]
  {
    assert Remove(ids, i)[..i + 1] == ids[..i] + [ids[i + 1]];
  }

  /** Splicing out the last element leaves the list before it. */
  lemma RemoveLast(ids: seq<nat>, i: nat)
    requires i + 1 == |ids|
    ensures Remove(ids, i) == ids[..i] && ids[i + 1..] == []
  {
    assert Remove(ids, i) == ids[..i];
  }

  /** In a list without repeats, the id at i does not occur after i. */
  lemma LaterDiffer(ids: seq<nat>, i: nat)
    requires Distinct(ids) && i < |ids|
    ensures forall k :: i + 1 <= k < |ids| ==> ids[k] != ids[i]
  {
    forall k | i + 1 <= k < |ids| ensures ids[k] != ids[i] {
      assert Apart(ids, i, k);
    }
  }

  /** After the splice at i, neither the removed id nor the one that shifted
      into slot i occurs after slot i. */
  lemma RemovedLaterDiffer(ids: seq<nat>, i: nat, j: nat)
    requires Distinct(ids) && i <= j <= i + 1 && j < |ids|
    ensures forall k :: i + 1 <= k < |Remove(ids, i)| ==> Remove(ids, i)[k] != ids[j]
  {
    forall k | i + 1 <= k < |Remove(ids, i)| ensures Remove(ids, i)[k] != ids[j] {
      assert Remove(ids, i)[k] == ids[k + 1] && Apart(ids, j, k + 1);
    }
  }

  /** The inductive step of SweepFiltersFrom when the pipe at i is retired. */
  lemma FilterAfterRemoval(s: Sweep, i: nat, birdY: real, t: Sweep, r: Sweep)
    requires InRange(s.arena, s.active) && Distinct(s.active)
    requires i < |s.active| && Shape(t) && |t.arena| == |s.arena|
    requires t.active == Remove(s.active, i)
    requires t.arena[s.active[i]].x < -PIPE_SPAWN_POS_X
    requires i + 1 < |s.active| ==> t.arena[s.active[i + 1]].x >= -PIPE_SPAWN_POS_X
    requires r == SweepFrom(t, i + 1, birdY)
    requires i + 1 <= |t.active| ==> r.active == t.active[..i + 1] + OnScreenIds(r.arena, t.active[i + 1..])
    ensures r.active == s.active[..i] + OnScreenIds(r.arena, s.active[i..])
  {
    var A := s.active;
    var id := A[i];
    RemovedLaterDiffer(A, i, i);
    SweepFrame(t, i + 1, birdY, id);
    OnScreenAt(r.arena, A, i);
    if i + 1 > |t.active| {
      RemoveLast(A, i);
      assert r == t;
    } else {
      FilterNextAfterRemoval(s, i, birdY, t, r);
    }
  }

  /** FilterAfterRemoval when a next pipe exists: it shifted into slot i, was
      not visited, and is still on screen. */
  lemma FilterNextAfterRemoval(s: Sweep, i: nat, birdY: real, t: Sweep, r: Sweep)
    requires InRange(s.arena, s.active) && Distinct(s.active)
    requires i + 1 < |s.active| && Shape(t) && |t.arena| == |s.arena|
    requires t.active == Remove(s.active, i)
    requires t.arena[s.active[i + 1]].x >= -PIPE_SPAWN_POS_X
    requires r == SweepFrom(t, i + 1, birdY)
    requires r.active == t.active[..i + 1] + OnScreenIds(r.arena, t.active[i + 1..])
    ensures r.active == s.active[..i] + OnScreenIds(r.arena, s.active[i + 1..])
  {
    var A := s.active;
    var next := A[i + 1];
    RemoveSlices(A, i);
    RemovedLaterDiffer(A, i, i + 1);
    SweepFrame(t, i + 1, birdY, next);
    OnScreenAt(r.arena, A, i + 1);
  }

  /** The inductive step of SweepFiltersFrom when the pipe at i stays. */
  lemma FilterAfterVisit(s: Sweep, i: nat, birdY: real, t: Sweep, r: Sweep)
    requires InRange(s.arena, s.active) && Distinct(s.active) && i < |s.active|
    requires Shape(t) && OnScreen(t.arena, t.active) && |t.arena| == |s.arena|
    requires t.active == s.active
    requires r == SweepFrom(t, i + 1, birdY)
    requires r.active == t.active[..i + 1] + OnScreenIds(r.arena, t.active[i + 1..])
    ensures r.active == s.active[..i] + OnScreenIds(r.arena, s.active[i..])
  {
    var A := s.active;
    var id := A[i];
    LaterDiffer(A, i);
    SweepFrame(t, i + 1, birdY, id);
    OnScreenAt(r.arena, A, i);
    assert A[..i + 1] == A[..i] + [id];
  }

  /** From index i on, the pass removes exactly the pipes that end up past the
      left line and keeps every other one in its original order. */
  lemma {:induction false} SweepFiltersFrom(s: Sweep, i: nat, birdY: real)
    requires PipesValid(s.arena, s.active, s.score) && i <= |s.active|
    ensures var r := SweepFrom(s, i, birdY);
            r.active == s.active[..i] + OnScreenIds(r.arena, s.active[i..])
    decreases |s.active| + 1 - i
  {
    if i < |s.active| {
      var t := SweepStep(s, i, birdY);
      var r := SweepFrom(t, i + 1, birdY);
      StepFacts(s, i, birdY);
      StepKeepsValid(s, i, birdY);
      if i + 1 <= |t.active| {
        SweepFiltersFrom(t, i + 1, birdY);
      }
      if |t.active| < |s.active| {
        if i + 1 < |s.active| {
          assert Apart(s.active, i, i + 1);
          assert t.arena[s.active[i + 1]] == s.arena[s.active[i + 1]];
        }
        FilterAfterRemoval(s, i, birdY, t, r);
      } else {
        FilterAfterVisit(s, i, birdY, t, r);
      }
    }
  }

  /** A whole frame's pass: the new active list is the old one with exactly the
      pipes now past the left line filtered out, the rest in their order. */
  lemma SweepRetiresOffscreen(arena: seq<Pipe>, ids: seq<nat>, score: nat, birdY: real)
    requires PipesValid(arena, ids, score)
    ensures var r := PipeFrame(arena, ids, score, birdY);
            r.active == OnScreenIds(r.arena, ids)
  {
    SweepFiltersFrom(Sweep(arena, ids, score, 0), 0, birdY);
  }

  /** The index quirk: when the pipe at i is retired, the pipe that shifts into
      slot i is not visited by this pass. It keeps its record unchanged (not
      moved, no point) and stays in the list, even if it too is due to go. */
  lemma RemovalSkipsNext(s: Sweep, i: nat, birdY: real)
    requires Shape(s) && Distinct(s.active) && i + 1 < |s.active|
    requires s.arena[s.active[i]].x - OBJECT_MOVE_SPEED < -PIPE_SPAWN_POS_X
    ensures var r := SweepFrom(s, i, birdY);
            r.arena[s.active[i + 1]] == s.arena[s.active[i + 1]] && s.active[i + 1] in r.active
  {
    var A := s.active;
    var t := SweepStep(s, i, birdY);
    var next := A[i + 1];
    assert t.active[i] == next && Apart(A, i, i + 1);
    RemovedLaterDiffer(A, i, i + 1);
    SweepFrame(t, i + 1, birdY, next);
    SweepKeepsPrefix(t, i + 1, birdY);
    var r := SweepFrom(t, i + 1, birdY);
    assert r.active[..i + 1][i] == next;
  }

  // ---------------------------------------------------------------------------
  // Counting the die() calls of a pass
  // ---------------------------------------------------------------------------

  /** The record of pipe `id` after this frame's move to the left. */
  function Moved(arena: seq<Pipe>, id: nat): Pipe
    requires id < |arena|
  {
    arena[id].(x := arena[id].x - OBJECT_MOVE_SPEED)
  }

  /** How many of the listed pipes from slot `from` on overlap a bird at height
      birdY once moved. */
  function CountOverlaps(arena: seq<Pipe>, ids: seq<nat>, from: nat, birdY: real): (n: nat)
    requires InRange(arena, ids)
    ensures from <= |ids| ==> n <= |ids| - from
    decreases |ids| - from
  {
    if from >= |ids| then 0
    else (if Collides(birdY, Moved(arena, ids[from])) then 1 else 0) + CountOverlaps(arena, ids, from + 1, birdY)
  }

  /** The count only reads the records of the pipes it counts. */
  lemma {:induction false} CountOverlapsFrame(a: seq<Pipe>, b: seq<Pipe>, ids: seq<nat>, from: nat, birdY: real)
    requires InRange(a, ids) && InRange(b, ids)
    requires forall k :: from <= k < |ids| ==> a[ids[k]] == b[ids[k]]
    ensures CountOverlaps(a, ids, from, birdY) == CountOverlaps(b, ids, from, birdY)
    decreases |ids| - from
  {
    if from < |ids| {
      CountOverlapsFrame(a, b, ids, from + 1, birdY);
    }
  }

  /** CountOverlaps unfolded once at slot i. */
  lemma CountOverlapsAt(arena: seq<Pipe>, ids: seq<nat>, i: nat, birdY: real)
    requires InRange(arena, ids) && i < |ids|
    ensures CountOverlaps(arena, ids, i, birdY) ==
            (if Collides(birdY, Moved(arena, ids[i])) then 1 else 0) + CountOverlaps(arena, ids, i + 1, birdY)
  {
  }

  /** No active pipe from index i on crosses the retirement line with this move. */
  predicate StaysFrom(s: Sweep, i: nat)
    requires InRange(s.arena, s.active)
  {
    forall k :: i <= k < |s.active| ==> s.arena[s.active[k]].x - OBJECT_MOVE_SPEED >= -PIPE_SPAWN_POS_X
  }

  /** A step whose pipe stays on screen keeps the list, counts a hit exactly
      when the moved pipe overlaps the bird, and changes no other record. */
  lemma HitStep(s: Sweep, i: nat, birdY: real)
    requires Shape(s) && i < |s.active|
    requires s.arena[s.active[i]].x - OBJECT_MOVE_SPEED >= -PIPE_SPAWN_POS_X
    ensures var t := SweepStep(s, i, birdY);
            && t.active == s.active
            && t.hits == s.hits + (if Collides(birdY, Moved(s.arena, s.active[i])) then 1 else 0)
            && (forall k :: 0 <= k < |s.arena| && k != s.active[i] ==> t.arena[k] == s.arena[k])
  {
  }

  /** The inductive step of HitsFrom: after a step at i that keeps the list,
      the hits so far plus the overlaps still ahead are unchanged. */
  lemma HitsNext(s: Sweep, i: nat, birdY: real)
    requires Shape(s) && Distinct(s.active) && i < |s.active| && StaysFrom(s, i)
    ensures var t := SweepStep(s, i, birdY);
            && t.active == s.active && StaysFrom(t, i + 1)
            && t.hits + CountOverlaps(t.arena, t.active, i + 1, birdY)
               == s.hits + CountOverlaps(s.arena, s.active, i, birdY)
  {
    var t := SweepStep(s, i, birdY);
    HitStep(s, i, birdY);
    LaterDiffer(s.active, i);
    CountOverlapsFrame(t.arena, s.arena, s.active, i + 1, birdY);
    CountOverlapsAt(s.arena, s.active, i, birdY);
  }

  /** HitsCountOverlaps from index i on. */
  lemma {:induction false} HitsFrom(s: Sweep, i: nat, birdY: real)
    requires Shape(s) && Distinct(s.active) && i <= |s.active| && StaysFrom(s, i)
    ensures var r := SweepFrom(s, i, birdY);
            r.active == s.active && r.hits == s.hits + CountOverlaps(s.arena, s.active, i, birdY)
    decreases |s.active| - i
  {
    if i < |s.active| {
      HitsNext(s, i, birdY);
      HitsFrom(SweepStep(s, i, birdY), i + 1, birdY);
    }
  }

  /** When no active pipe retires in a frame, the loop visits every pipe, so it
      calls die() exactly once per pipe that overlaps the bird after its move. */
  lemma HitsCountOverlaps(arena: seq<Pipe>, ids: seq<nat>, score: nat, birdY: real)
    requires Paired(arena) && InRange(arena, ids) && Distinct(ids)
    requires forall k :: 0 <= k < |ids| ==> arena[ids[k]].x - OBJECT_MOVE_SPEED >= -PIPE_SPAWN_POS_X
    ensures var r := PipeFrame(arena, ids, score, birdY);
            r.active == ids && r.hits == CountOverlaps(arena, ids, 0, birdY)
  {
    HitsFrom(Sweep(arena, ids, score, 0), 0, birdY);
  }

  /** With a retirement the count can fall short on a list whose pipes lie
      farther apart than the spawner places them: the first pipe retires, the
      bottom pipe behind it shifts into its slot and is skipped this frame,
      although it overlaps the bird both before and after the move. */
  lemma SkippedCollision()
    ensures var arena := [Pipe(-24.95, 2.0, 4.0, false, false, 1), Pipe(-24.95, 12.0, 4.0, true, false, 0),
                          Pipe(0.0, 2.0, 4.0, false, false, 3), Pipe(0.0, 12.0, 4.0, true, false, 2)];
            && Collides(3.0, arena[2]) && CountOverlaps(arena, [0, 2], 0, 3.0) == 1
            && PipeFrame(arena, [0, 2], 0, 3.0).hits == 0
  {
  }

  /** A pipe within 11 to the right of a retiring pipe is out of the bird's
      reach both before and after its move, so skipping it loses no collision.
      The spawner places consecutive pairs 10 apart (less the lag of a skip). */
  lemma ShiftedOutOfReach(retiring: Pipe, shifted: Pipe, birdY: real)
    requires retiring.x - OBJECT_MOVE_SPEED < -PIPE_SPAWN_POS_X
    requires shifted.x - retiring.x < 11.0
    ensures !Collides(birdY, shifted)
    ensures !Collides(birdY, shifted.(x := shifted.x - OBJECT_MOVE_SPEED))
  {
  }
}
