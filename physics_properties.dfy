/**
 * What the three passes of a step guarantee: the density self term keeps
 * every density positive, the force pass skips a particle's own pair and
 * adds gravity once, and the integration pass keeps every particle within
 * the walls, damping a velocity component at most once per axis.
 */
module PhysicsProperties {
  import opened Params
  import opened Particles
  import opened Physics

  /** Density a particle contributes to itself: the kernel at distance zero. */
  const SELF_DENSITY: real := Poly6Weight(0.0)

  lemma CubePositive(r: real)
    requires r > 0.0
    ensures Cube(r) > 0.0
  {
    assert r * r > 0.0;
  }

  /** Every density contribution is non-negative, and a particle's own is SELF_DENSITY > 0. */
  lemma DensityTermSign(pi: Particle, pj: Particle)
    ensures DensityTerm(pi, pj) >= 0.0
    ensures DensityTerm(pi, pi) == SELF_DENSITY > 0.0
  {
    KernelSigns();
    var d2 := SquaredLength(pj.x - pi.x, pj.y - pi.y);
    if d2 < HSQ {
      CubePositive(HSQ - d2);
    }
    assert SquaredLength(pi.x - pi.x, pi.y - pi.y) == 0.0;
    CubePositive(HSQ);
  }

  lemma {:induction false} DensityNonNegative(s: seq<Particle>, i: int, start: int, end: int)
    requires 0 <= i < |s| && 0 <= start && end <= |s|
    ensures Density(s, i, start, end) >= 0.0
    decreases end - start
  {
    if end > start {
      DensityNonNegative(s, i, start, end - 1);
      DensityTermSign(s[i], s[end - 1]);
    }
  }

  /**
   * The density sum of a particle of the range includes its own term, so
   * it is at least SELF_DENSITY and in particular positive.
   */
  lemma {:induction false} DensityAtLeastSelf(s: seq<Particle>, i: int, start: int, end: int)
    requires 0 <= start <= i < end <= |s|
    ensures Density(s, i, start, end) >= SELF_DENSITY > 0.0
    decreases end - start
  {
    DensityTermSign(s[i], s[end - 1]);
    if end - 1 == i {
      DensityNonNegative(s, i, start, end - 1);
      DensityTermSign(s[i], s[i]);
    } else {
      DensityAtLeastSelf(s, i, start, end - 1);
    }
  }

  /**
   * After the density pass every particle of the range has a positive
   * density and the pressure of its equation of state; positions,
   * velocities and forces are those it had, and particles outside the
   * range are untouched.
   */
  lemma DensityPassPositive(s: seq<Particle>, start: int, end: int)
    requires 0 <= start && end <= |s|
    ensures |DensityPass(s, start, end)| == |s|
    ensures forall k :: start <= k < end ==>
      DensityPass(s, start, end)[k].rho >= SELF_DENSITY > 0.0 &&
      DensityPass(s, start, end)[k].p == Pressure(DensityPass(s, start, end)[k].rho)
    ensures forall k :: 0 <= k < |s| ==> SameMotion(DensityPass(s, start, end)[k], s[k])
    ensures forall k :: 0 <= k < |s| && !(start <= k < end) ==> DensityPass(s, start, end)[k] == s[k]
  {
    forall k | start <= k < end
      ensures DensityPass(s, start, end)[k].rho >= SELF_DENSITY > 0.0
    {
      DensityAtLeastSelf(s, k, start, end);
    }
  }

  /** q and r agree on position, velocity and force. */
  predicate SameMotion(q: Particle, r: Particle)
  {
    q.x == r.x && q.y == r.y && q.vx == r.vx && q.vy == r.vy && q.fx == r.fx && q.fy == r.fy
  }

  /**
   * A particle with no other particle of the range within H has only its
   * own density term, which lies below the rest density, so its pressure
   * is negative (attractive).
   */
  lemma {:induction false} IsolatedDensity(s: seq<Particle>, i: int, start: int, end: int)
    requires 0 <= start <= i < end <= |s|
    requires forall j :: start <= j < end && j != i ==> SquaredLength(s[j].x - s[i].x, s[j].y - s[i].y) >= HSQ
    ensures Density(s, i, start, end) == SELF_DENSITY
    ensures Pressure(Density(s, i, start, end)) < 0.0
    decreases end - start
  {
    if end - 1 == i {
      IsolatedPrefix(s, i, start, end - 1);
      DensityTermSign(s[i], s[i]);
    } else {
      IsolatedDensity(s, i, start, end - 1);
    }
    assert SELF_DENSITY < REST_DENS;
  }

  /** With no particle within H in [start, end), the density sum is zero. */
  lemma {:induction false} IsolatedPrefix(s: seq<Particle>, i: int, start: int, end: int)
    requires 0 <= i < |s| && 0 <= start && end <= |s|
    requires forall j :: start <= j < end ==> SquaredLength(s[j].x - s[i].x, s[j].y - s[i].y) >= HSQ
    ensures Density(s, i, start, end) == 0.0
    decreases end - start
  {
    if end > start {
      IsolatedPrefix(s, i, start, end - 1);
    }
  }

  // ------------------------------------------------------------------ forces

  /**
   * A particle's pair with itself would contribute nothing: the direction
   * and the velocity difference are both zero. Skipping j == i therefore
   * leaves the exact sums unchanged.
   */
  lemma SelfPairVanishes(q: Particle, hypot: (real, real) -> real)
    requires NonNegative(hypot) && q.rho != 0.0
    ensures PairForce(q, q, hypot) == NO_FORCE
  {
  }

  /**
   * Gravity is added once per particle: when no other particle of the
   * range is closer than H, the pressure and viscosity accumulators stay
   * zero and the force written is the gravity term alone.
   */
  lemma {:induction false} IsolatedForce(s: seq<Particle>, i: int, start: int, end: int,
                                         hypot: (real, real) -> real)
    requires 0 <= start <= i < end <= |s|
    requires NonNegative(hypot) && DensityNonZero(s, start, end)
    requires forall j :: start <= j < end && j != i ==> Distance(s[i], s[j], hypot) >= H
    ensures ForcePass(s, start, end, hypot)[i].fx == GravityX(s[i].rho)
    ensures ForcePass(s, start, end, hypot)[i].fy == GravityY(s[i].rho)
  {
    NoNeighbours(s, i, start, end, hypot);
  }

  lemma {:induction false} NoNeighbours(s: seq<Particle>, i: int, start: int, end: int,
                                        hypot: (real, real) -> real)
    requires 0 <= i < |s| && 0 <= start && end <= |s|
    requires NonNegative(hypot) && DensityNonZero(s, start, end)
    requires forall j :: start <= j < end && j != i ==> Distance(s[i], s[j], hypot) >= H
    ensures Neighbours(s, i, start, end, hypot) == NO_FORCE
    decreases end - start
  {
    if end > start {
      NoNeighbours(s, i, start, end - 1, hypot);
    }
  }

  /**
   * The force pass writes only fx and fy of the particles of the range;
   * it reads the densities it divides by and keeps them.
   */
  lemma ForcePassFrame(s: seq<Particle>, start: int, end: int, hypot: (real, real) -> real)
    requires 0 <= start && end <= |s|
    requires NonNegative(hypot) && DensityNonZero(s, start, end)
    ensures |ForcePass(s, start, end, hypot)| == |s|
    ensures forall k :: 0 <= k < |s| ==> SameButForce(ForcePass(s, start, end, hypot)[k], s[k])
    ensures forall k :: 0 <= k < |s| && !(start <= k < end) ==> ForcePass(s, start, end, hypot)[k] == s[k]
    ensures DensityNonZero(ForcePass(s, start, end, hypot), start, end)
  {
  }

  // ------------------------------------------------------------ integration

  /** After integration a particle is within the walls, whatever its position and velocity before. */
  lemma IntegratedWithinWalls(q: Particle)
    requires q.rho != 0.0
    ensures WithinWalls(Integrated(q).x, Integrated(q).y)
  {
  }

  /**
   * A velocity component is multiplied by BOUND_DAMPING exactly when the
   * wall test of its axis fires, and the position is then put on that
   * wall; density, pressure and force are kept.
   */
  lemma IntegratedDamping(q: Particle)
    requires q.rho != 0.0
    ensures Integrated(q).vx ==
      if HitsWall(Advance(q).x, VIEW_WIDTH) then Advance(q).vx * BOUND_DAMPING else Advance(q).vx
    ensures Integrated(q).vy ==
      if HitsWall(Advance(q).y, VIEW_HEIGHT) then Advance(q).vy * BOUND_DAMPING else Advance(q).vy
    ensures HitsWall(Advance(q).x, VIEW_WIDTH) ==>
      Integrated(q).x == (if Advance(q).x < EPS then EPS else VIEW_WIDTH - EPS)
    ensures HitsWall(Advance(q).y, VIEW_HEIGHT) ==>
      Integrated(q).y == (if Advance(q).y < EPS then EPS else VIEW_HEIGHT - EPS)
    ensures !HitsWall(Advance(q).x, VIEW_WIDTH) ==> Integrated(q).x == Advance(q).x
    ensures !HitsWall(Advance(q).y, VIEW_HEIGHT) ==> Integrated(q).y == Advance(q).y
    ensures Integrated(q).rho == q.rho && Integrated(q).p == q.p
    ensures Integrated(q).fx == q.fx && Integrated(q).fy == q.fy
  {
  }

  /**
   * Semi-implicit Euler: before the wall test the position advances with
   * the velocity already updated by this step's force, and on an axis whose
   * wall test does not fire that is the integrated result.
   */
  lemma SemiImplicitOrder(q: Particle)
    requires q.rho != 0.0
    ensures Advance(q).vx == q.vx + DT * q.fx / q.rho && Advance(q).x == q.x + DT * Advance(q).vx
    ensures Advance(q).vy == q.vy + DT * q.fy / q.rho && Advance(q).y == q.y + DT * Advance(q).vy
    ensures !HitsWall(Advance(q).x, VIEW_WIDTH) ==>
      Integrated(q).vx == q.vx + DT * q.fx / q.rho && Integrated(q).x == q.x + DT * Integrated(q).vx
    ensures !HitsWall(Advance(q).y, VIEW_HEIGHT) ==>
      Integrated(q).vy == q.vy + DT * q.fy / q.rho && Integrated(q).y == q.y + DT * Integrated(q).vy
  {
  }

  /**
   * A particle at rest under gravity alone moves down by DT^2 * GY * MASS /
   * rho^2 in one step: the gravity term is already divided by the density,
   * and integration divides by it again.
   */
  lemma FreeFall(q: Particle)
    requires q.rho > 0.0 && q.vx == 0.0 && q.vy == 0.0
    requires q.fx == GravityX(q.rho) && q.fy == GravityY(q.rho)
    requires EPS <= q.x <= VIEW_WIDTH - EPS && !HitsWall(Advance(q).y, VIEW_HEIGHT)
    ensures Integrated(q).x == q.x
    ensures Integrated(q).y == q.y + DT * DT * GY * MASS / (q.rho * q.rho)
    ensures Integrated(q).y < q.y
  {
    assert GravityX(q.rho) == 0.0 && Kick(q.fx, q.rho) == 0.0;
    assert Kick(q.fy, q.rho) == DT * GY * MASS / (q.rho * q.rho);
    assert DT * DT * GY * MASS / (q.rho * q.rho) < 0.0;
  }

  /** A particle the clamp has put on a wall is outside the (open) domain. */
  lemma ClampedLeavesDomain(q: Particle)
    requires q.rho != 0.0
    requires HitsWall(Advance(q).x, VIEW_WIDTH) || HitsWall(Advance(q).y, VIEW_HEIGHT)
    ensures !IsInDomain(Integrated(q).x, Integrated(q).y)
  {
  }
}
