/**
 * The two particle systems whose updates the frame loop runs: the smoke burst
 * left by a death (shrinks and rises, never recycled) and the drifting clouds
 * (wrap around from the left edge to the right one).
 */
module Particles {
  import opened Config

  // ---------------------------------------------------------------------------
  // Smoke
  // ---------------------------------------------------------------------------

  /** A smoke particle: its uniform scale and its height relative to the smoke
      group, whose origin die() puts at the bird. */
  datatype Smoke = Smoke(scale: real, y: real)

  predicate SmokeOk(p: Smoke)
  {
    0.0 <= p.scale < 1.0 && p.y >= -0.5
  }

  predicate SmokeValid(s: seq<Smoke>)
  {
    forall i :: 0 <= i < |s| ==> SmokeOk(s[i])
  }

  /** The particles one die() call adds: SMOKE_PARTICLE_COUNT of them, each with a
      scale drawn from [0, 1) and a height offset drawn from [-0.5, 0.5). */
  predicate ValidBurst(b: seq<Smoke>)
  {
    && |b| == SMOKE_PARTICLE_COUNT
    && forall i :: 0 <= i < |b| ==> 0.0 <= b[i].scale < 1.0 && -0.5 <= b[i].y < 0.5
  }

  /** One frame of a smoke particle: it shrinks by 5% and rises by a fifth of
      its new scale. */
  function SmokeStep(p: Smoke): (q: Smoke)
    ensures 0.0 <= p.scale ==> 0.0 <= q.scale <= p.scale && q.y >= p.y
    ensures 0.0 < p.scale ==> q.scale < p.scale && q.y > p.y
    ensures SmokeOk(p) ==> SmokeOk(q)
  {
    var scale := p.scale * 0.95;
    Smoke(scale, p.y + scale * 0.2)
  }

  /** One frame of the whole smoke group. */
  function SmokeFrame(s: seq<Smoke>): (r: seq<Smoke>)
    ensures |r| == |s|
    ensures forall i :: 0 <= i < |s| ==> r[i] == SmokeStep(s[i])
    ensures SmokeValid(s) ==> SmokeValid(r)
  {
    seq(|s|, i requires 0 <= i < |s| => SmokeStep(s[i]))
  }

  /** `n` bursts in a row: the particles added by n calls of die(). */
  function Repeat(burst: seq<Smoke>, n: nat): (r: seq<Smoke>)
    ensures ValidBurst(burst) ==> SmokeValid(r)
  {
    if n == 0 then [] else Repeat(burst, n - 1) + burst
  }

  /** n die() calls add n bursts' worth of particles. */
  lemma {:induction false} RepeatLength(burst: seq<Smoke>, n: nat)
    ensures |Repeat(burst, n)| == n * |burst|
  {
    if n > 0 {
      RepeatLength(burst, n - 1);
    }
  }

  lemma SmokeValidConcat(a: seq<Smoke>, b: seq<Smoke>)
    requires SmokeValid(a) && SmokeValid(b)
    ensures SmokeValid(a + b)
  {
  }

  // ---------------------------------------------------------------------------
  // Clouds
  // ---------------------------------------------------------------------------

  /** A cloud: its x position and its own drift speed. */
  datatype Cloud = Cloud(x: real, speed: real)

  /** Clouds wrap when they pass 1.5 spawn distances to the left. */
  const CLOUD_EDGE: real := PIPE_SPAWN_POS_X * 1.5

  /** A cloud as created at start-up: x drawn from [-25, 25), speed from [0.2, 0.4). */
  predicate InitialCloud(c: Cloud)
  {
    -PIPE_SPAWN_POS_X <= c.x < PIPE_SPAWN_POS_X && 0.2 <= c.speed < 0.4
  }

  /** A cloud keeps its creation speed and never leaves the band between the
      two wrap edges. */
  predicate CloudOk(c: Cloud)
  {
    0.2 <= c.speed < 0.4 && -CLOUD_EDGE <= c.x <= CLOUD_EDGE
  }

  predicate CloudsValid(cs: seq<Cloud>)
  {
    forall i :: 0 <= i < |cs| ==> CloudOk(cs[i])
  }

  /** One frame of a cloud: drift left by its speed times the scroll speed (a
      tenth of that on the score screen); past the left edge it reappears at
      the right edge. */
  function CloudStep(c: Cloud, phase: Phase): (d: Cloud)
    ensures d.speed == c.speed
    ensures CloudOk(c) ==> CloudOk(d)
    // a valid cloud either moves strictly left or wraps to the right edge
    ensures CloudOk(c) ==> d.x < c.x || d.x == CLOUD_EDGE
    // on the score screen it drifts ten times slower
    ensures CloudOk(c) && d.x != CLOUD_EDGE ==>
              c.x - d.x == (if phase == Score then 0.1 else 1.0) * c.speed * OBJECT_MOVE_SPEED
  {
    var v := -c.speed * OBJECT_MOVE_SPEED;
    var v' := if phase == Score then v * 0.1 else v;
    var x := c.x + v';
    Cloud(if x < -CLOUD_EDGE then CLOUD_EDGE else x, c.speed)
  }

  /** One frame of every cloud. */
  function CloudFrame(cs: seq<Cloud>, phase: Phase): (r: seq<Cloud>)
    ensures |r| == |cs|
    ensures forall i :: 0 <= i < |cs| ==> r[i] == CloudStep(cs[i], phase)
    ensures CloudsValid(cs) ==> CloudsValid(r)
  {
    seq(|cs|, i requires 0 <= i < |cs| => CloudStep(cs[i], phase))
  }
}
