/**
 * The bird's vertical motion outside the menu: constant gravity while it is
 * at or above the ground line, and a stop (velocity zeroed, height kept) below
 * it. There is no clamp: a bird that has sunk below the line stays where it is.
 */
module Bird {
  import opened Config

  /** Vertical state of the bird: height of its centre and vertical velocity. */
  datatype Body = Body(y: real, v: real)

  /** Below this height the bird counts as on the ground. */
  const GROUND_LINE: real := BIRD_SIZE / 2.0

  /** One frame of physics in the PLAY and SCORE phases: below the line the bird
      stops where it is; otherwise the velocity drops and the height moves by the
      new (not the old) velocity. */
  function BirdStep(b: Body): (n: Body)
    ensures b.y < GROUND_LINE ==> n == Body(b.y, 0.0)
    ensures b.y >= GROUND_LINE ==> n.v < b.v && n.y == b.y + n.v
  {
    if b.y < GROUND_LINE then Body(b.y, 0.0)
    else
      var v := b.v + GRAVITY;
      Body(b.y + v, v)
  }

  /** `n` frames of physics with no jump in between; a bird that starts below
      the ground line keeps its height throughout. */
  function Flight(b: Body, n: nat): (f: Body)
    ensures b.y < GROUND_LINE ==> f.y == b.y
  {
    if n == 0 then b else BirdStep(Flight(b, n - 1))
  }

  /** The bird stays at or above the ground line during the first n frames. */
  ghost predicate Airborne(b: Body, n: nat)
  {
    forall k: nat :: k < n ==> Flight(b, k).y >= GROUND_LINE
  }

  /** Free fall: while airborne, every frame lowers the velocity by exactly
      the gravity constant, and the height follows the discrete parabola. */
  lemma {:induction false} FreeFall(b: Body, n: nat)
    requires Airborne(b, n)
    ensures Flight(b, n).v == b.v + (n as real) * GRAVITY
    ensures Flight(b, n).y == b.y + (n as real) * b.v + ((n * (n + 1)) as real) / 2.0 * GRAVITY
  {
    if n > 0 {
      var m := n - 1;
      assert Airborne(b, m);
      FreeFall(b, m);
      var prev := Flight(b, m);
      assert prev.y >= GROUND_LINE;
      assert Flight(b, n) == Body(prev.y + prev.v + GRAVITY, prev.v + GRAVITY);
      ParabolaStep(b, m, n, prev);
    }
  }

  /** One more frame of the parabola: from the closed form after m frames and
      one airborne step, the closed form after n = m + 1 frames. */
  lemma ParabolaStep(b: Body, m: nat, n: nat, prev: Body)
    requires n == m + 1
    requires prev.v == b.v + (m as real) * GRAVITY
    requires prev.y == b.y + (m as real) * b.v + ((m * (m + 1)) as real) / 2.0 * GRAVITY
    ensures prev.v + GRAVITY == b.v + (n as real) * GRAVITY
    ensures prev.y + prev.v + GRAVITY == b.y + (n as real) * b.v + ((n * (n + 1)) as real) / 2.0 * GRAVITY
  {
    NextTerms(m, n, b.v);
    LinearStep(b.y, b.v, (m as real) * b.v, (n as real) * b.v, (m as real) * GRAVITY, (n as real) * GRAVITY,
               ((m * (m + 1)) as real) / 2.0 * GRAVITY, ((n * (n + 1)) as real) / 2.0 * GRAVITY);
  }

  /** One frame of the parabola with every product named: the step is linear. */
  lemma LinearStep(y: real, v: real, mv: real, nv: real, mg: real, ng: real, tm: real, tn: real)
    requires nv == mv + v && ng == mg + GRAVITY && tn == tm + ng
    ensures (y + mv + tm) + (v + mg) + GRAVITY == y + nv + tn
    ensures (v + mg) + GRAVITY == v + ng
  {
  }

  /** The arithmetic of one more frame of the parabola: with n = m + 1 the
      triangular number grows by n and each linear term by one step. */
  lemma NextTerms(m: nat, n: nat, v: real)
    requires n == m + 1
    ensures (n as real) * v == (m as real) * v + v
    ensures (n as real) * GRAVITY == (m as real) * GRAVITY + GRAVITY
    ensures ((n * (n + 1)) as real) / 2.0 * GRAVITY ==
            ((m * (m + 1)) as real) / 2.0 * GRAVITY + (n as real) * GRAVITY
  {
    assert n * (n + 1) == m * (m + 1) + 2 * n;
    assert ((n * (n + 1)) as real) / 2.0 == ((m * (m + 1)) as real) / 2.0 + (n as real);
  }

  /** Velocity strictly decreases frame after frame while the bird is airborne. */
  lemma FallingSpeedsUp(b: Body, n: nat)
    requires Airborne(b, n + 1)
    ensures Flight(b, n + 1).v < Flight(b, n).v
  {
    assert Airborne(b, n);
    FreeFall(b, n);
    FreeFall(b, n + 1);
  }

  /** Once below the ground line the bird never moves again and its velocity
      stays zero: the height is not clamped back to the line. */
  lemma {:induction false} GroundedStaysPut(b: Body, n: nat)
    requires b.y < GROUND_LINE && n >= 1
    ensures Flight(b, n) == Body(b.y, 0.0)
  {
    if n > 1 {
      GroundedStaysPut(b, n - 1);
    }
  }
}
