/**
 * One simulation step over an index range [start, end) of a particle
 * array: the density/pressure pass, the force pass and the integration
 * pass with its boundary clamp (mpi-sph.c:169-284). Each pass is a method
 * over the array, proved against a function on sequences that says what
 * the pass computes; the lemmas state what those functions guarantee.
 */
module Physics {
  import opened Params
  import opened Particles

  /** Squared kernel radius. */
  const HSQ: real := H * H

  /** Smoothing kernels of Mueller et al. in the 2-D form of Solenthaler et al. */
  const POLY6: real := 4.0 / (PI * (H * H * H * H * H * H * H * H))
  const SPIKY_GRAD: real := -10.0 / (PI * (H * H * H * H * H))
  const VISC_LAP: real := 40.0 / (PI * (H * H * H * H * H))

  /** The force pass's own guard added to every distance; not the wall margin EPS. */
  const DIST_EPS: real := 0.000001

  lemma KernelSigns()
    ensures POLY6 > 0.0 && SPIKY_GRAD < 0.0 && VISC_LAP > 0.0
  {
  }

  function Cube(r: real): real
  {
    r * r * r
  }

  // ------------------------------------------------------ density, pressure

  /** Squared length of the vector (dx, dy). */
  function SquaredLength(dx: real, dy: real): real
  {
    dx * dx + dy * dy
  }

  /** Density weight of a neighbour at squared distance d2 < HSQ. */
  function Poly6Weight(d2: real): real
  {
    MASS * POLY6 * Cube(HSQ - d2)
  }

  /** Contribution of pj to the density of pi: the Poly6 kernel, zero beyond H. */
  function DensityTerm(pi: Particle, pj: Particle): real
  {
    var d2 := SquaredLength(pj.x - pi.x, pj.y - pi.y);
    if d2 < HSQ then Poly6Weight(d2) else 0.0
  }

  /** Density of s[i]: the kernel summed over every j in [start, end), i included. */
  function Density(s: seq<Particle>, i: int, start: int, end: int): real
    requires 0 <= i < |s| && 0 <= start && end <= |s|
    decreases end - start
  {
    if end <= start then 0.0 else Density(s, i, start, end - 1) + DensityTerm(s[i], s[end - 1])
  }

  /** Equation of state: negative below the rest density. */
  function Pressure(rho: real): real
  {
    GAS_CONST * (rho - REST_DENS)
  }

  /** What the density pass leaves: rho and p of the range recomputed, nothing else changed. */
  function DensityPass(s: seq<Particle>, start: int, end: int): seq<Particle>
    requires 0 <= start && end <= |s|
  {
    seq(|s|, k requires 0 <= k < |s| =>
      if start <= k < end then
        s[k].(rho := Density(s, k, start, end), p := Pressure(Density(s, k, start, end)))
      else s[k])
  }

  method ComputeDensityPressure(a: array<Particle>, start: int, end: int)
    requires 0 <= start && end <= a.Length
    modifies a
    ensures a[..] == DensityPass(old(a[..]), start, end)
  {
    ghost var s := a[..];
    var i := start;
    while i < end
      invariant start <= i && (i <= end || i == start)
      invariant forall k :: 0 <= k < a.Length && !(start <= k < i) ==> a[k] == s[k]
      invariant forall k :: start <= k < i ==>
        a[k] == s[k].(rho := Density(s, k, start, end), p := Pressure(Density(s, k, start, end)))
    {
      a[i] := a[i].(rho := 0.0);
      var j := start;
      while j < end
        invariant start <= j <= end
        invariant a[i] == s[i].(rho := Density(s, i, start, j))
        invariant forall k :: 0 <= k < a.Length && !(start <= k <= i) ==> a[k] == s[k]
        invariant forall k :: start <= k < i ==>
          a[k] == s[k].(rho := Density(s, k, start, end), p := Pressure(Density(s, k, start, end)))
      {
        var pi, pj := a[i], a[j];
        var dx := pj.x - pi.x;
        var dy := pj.y - pi.y;
        var d2 := SquaredLength(dx, dy);
        if d2 < HSQ {
          a[i] := a[i].(rho := a[i].rho + Poly6Weight(d2));
        }
        j := j + 1;
      }
      a[i] := a[i].(p := GAS_CONST * (a[i].rho - REST_DENS));
      i := i + 1;
    }
    assert a[..] == DensityPass(s, start, end);
  }

  // ------------------------------------------------------------------ forces

  /** The four accumulators of the force pass: pressure and viscosity, per axis. */
  datatype ForceSum = ForceSum(pressX: real, pressY: real, viscX: real, viscY: real)
  {
    function Plus(o: ForceSum): ForceSum
    {
      ForceSum(pressX + o.pressX, pressY + o.pressY, viscX + o.viscX, viscY + o.viscY)
    }
  }

  const NO_FORCE: ForceSum := ForceSum(0.0, 0.0, 0.0, 0.0)

  /** The distance routine (hypotf) is not modelled; all the passes rely on is that it is non-negative. */
  ghost predicate NonNegative(hypot: (real, real) -> real)
  {
    forall dx, dy :: hypot(dx, dy) >= 0.0
  }

  /** Distance from pi to pj as the force pass computes it, guard included. */
  function Distance(pi: Particle, pj: Particle, hypot: (real, real) -> real): real
  {
    hypot(pj.x - pi.x, pj.y - pi.y) + DIST_EPS
  }

  /** Every particle of the range has a density the force and integration passes may divide by. */
  ghost predicate DensityNonZero(s: seq<Particle>, start: int, end: int)
    requires 0 <= start && end <= |s|
  {
    forall k :: start <= k < end ==> s[k].rho != 0.0
  }

  /** Pressure force along one axis: the pair's mean pressure over the neighbour's density, Spiky gradient. */
  function PressureKernel(norm: real, pSum: real, rhoJ: real, dist: real): real
    requires rhoJ != 0.0
  {
    -norm * MASS * pSum / (2.0 * rhoJ) * SPIKY_GRAD * Cube(H - dist)
  }

  /** Viscosity force along one axis: the velocity difference over the neighbour's density, viscosity Laplacian. */
  function ViscosityKernel(dv: real, rhoJ: real, dist: real): real
    requires rhoJ != 0.0
  {
    VISC * MASS * dv / rhoJ * VISC_LAP * (H - dist)
  }

  /** Component d of a vector of length dist, scaled to unit length. */
  function Normalised(d: real, dist: real): real
    requires dist != 0.0
  {
    d / dist
  }

  /** Pressure and viscosity contribution of neighbour pj to particle pi; zero unless closer than H. */
  function PairForce(pi: Particle, pj: Particle, hypot: (real, real) -> real): ForceSum
    requires NonNegative(hypot) && pj.rho != 0.0
  {
    var dx := pj.x - pi.x;
    var dy := pj.y - pi.y;
    var dist := Distance(pi, pj, hypot);
    if dist < H then
      ForceSum(PressureKernel(Normalised(dx, dist), pi.p + pj.p, pj.rho, dist),
               PressureKernel(Normalised(dy, dist), pi.p + pj.p, pj.rho, dist),
               ViscosityKernel(pj.vx - pi.vx, pj.rho, dist),
               ViscosityKernel(pj.vy - pi.vy, pj.rho, dist))
    else NO_FORCE
  }

  /** The accumulators for s[i] after visiting [start, end), s[i] itself skipped. */
  function Neighbours(s: seq<Particle>, i: int, start: int, end: int, hypot: (real, real) -> real): ForceSum
    requires 0 <= i < |s| && 0 <= start && end <= |s|
    requires NonNegative(hypot) && DensityNonZero(s, start, end)
    decreases end - start
  {
    if end <= start then NO_FORCE
    else if end - 1 == i then Neighbours(s, i, start, end - 1, hypot)
    else Neighbours(s, i, start, end - 1, hypot).Plus(PairForce(s[i], s[end - 1], hypot))
  }

  /** Gravity term of a particle of density rho, per axis. */
  function GravityX(rho: real): real
    requires rho != 0.0
  {
    GX * MASS / rho
  }

  function GravityY(rho: real): real
    requires rho != 0.0
  {
    GY * MASS / rho
  }

  /** What the force pass leaves: fx and fy of the range recomputed, nothing else changed. */
  function ForcePass(s: seq<Particle>, start: int, end: int, hypot: (real, real) -> real): seq<Particle>
    requires 0 <= start && end <= |s|
    requires NonNegative(hypot) && DensityNonZero(s, start, end)
  {
    seq(|s|, k requires 0 <= k < |s| =>
      if start <= k < end then
        s[k].(fx := Neighbours(s, k, start, end, hypot).pressX + Neighbours(s, k, start, end, hypot).viscX
                    + GravityX(s[k].rho),
              fy := Neighbours(s, k, start, end, hypot).pressY + Neighbours(s, k, start, end, hypot).viscY
                    + GravityY(s[k].rho))
      else s[k])
  }

  /** q and r agree on every attribute except the force accumulator. */
  predicate SameButForce(q: Particle, r: Particle)
  {
    q.x == r.x && q.y == r.y && q.vx == r.vx && q.vy == r.vy && q.rho == r.rho && q.p == r.p
  }

  /**
   * A pair's contribution does not read the force accumulators, so the
   * forces already written for earlier particles of the range do not matter.
   */
  lemma PairForceIgnoresForce(pi: Particle, pj: Particle, qi: Particle, qj: Particle,
                              hypot: (real, real) -> real)
    requires NonNegative(hypot) && pj.rho != 0.0
    requires SameButForce(pi, qi) && SameButForce(pj, qj)
    ensures PairForce(pi, pj, hypot) == PairForce(qi, qj, hypot)
  {
  }

  /** The accumulators do not depend on the force attributes of the particles they read. */
  lemma {:induction false} NeighboursIgnoreForce(s: seq<Particle>, t: seq<Particle>, i: int, start: int, end: int,
                                                 hypot: (real, real) -> real)
    requires |s| == |t| && 0 <= i < |s| && 0 <= start && end <= |s|
    requires NonNegative(hypot) && DensityNonZero(s, start, end)
    requires forall k :: 0 <= k < |s| ==> SameButForce(s[k], t[k])
    ensures DensityNonZero(t, start, end)
    ensures Neighbours(t, i, start, end, hypot) == Neighbours(s, i, start, end, hypot)
    decreases end - start
  {
    if start < end {
      NeighboursIgnoreForce(s, t, i, start, end - 1, hypot);
      if end - 1 != i {
        PairForceIgnoresForce(s[i], s[end - 1], t[i], t[end - 1], hypot);
      }
    }
  }

  /**
   * The inner loop of the force pass for particle i: the four accumulators
   * (pressure and viscosity, per axis) over the range, i itself skipped.
   * One visit adds the pair's contribution, computed by PairForce exactly
   * as the loop body does (distance guard, then the two kernels).
   */
  method AccumulateNeighbours(a: array<Particle>, i: int, start: int, end: int, hypot: (real, real) -> real)
    returns (acc: ForceSum)
    requires 0 <= start <= i < end <= a.Length
    requires NonNegative(hypot) && DensityNonZero(a[..], start, end)
    ensures acc == Neighbours(a[..], i, start, end, hypot)
  {
    ghost var s := a[..];
    var pi := a[i];
    acc := NO_FORCE;
    var j := start;
    while j < end
      invariant start <= j <= end
      invariant acc == Neighbours(s, i, start, j, hypot)
    {
      var pj := a[j];
      if j != i {
        acc := acc.Plus(PairForce(pi, pj, hypot));
      }
      assert pi == s[i] && pj == s[j];
      j := j + 1;
    }
  }

  method ComputeForces(a: array<Particle>, start: int, end: int, hypot: (real, real) -> real)
    requires 0 <= start && end <= a.Length
    requires NonNegative(hypot) && DensityNonZero(a[..], start, end)
    modifies a
    ensures a[..] == ForcePass(old(a[..]), start, end, hypot)
  {
    ghost var s := a[..];
    var i := start;
    while i < end
      invariant start <= i && (i <= end || i == start)
      invariant forall k :: 0 <= k < a.Length ==> SameButForce(a[k], s[k])
      invariant forall k :: 0 <= k < a.Length && !(start <= k < i) ==> a[k] == s[k]
      invariant forall k :: start <= k < i ==> a[k] == ForcePass(s, start, end, hypot)[k]
    {
      NeighboursIgnoreForce(s, a[..], i, start, end, hypot);
      var acc := AccumulateNeighbours(a, i, start, end, hypot);
      var pi := a[i];
      var gravX := GravityX(pi.rho);
      var gravY := GravityY(pi.rho);
      a[i] := pi.(fx := acc.pressX + acc.viscX + gravX, fy := acc.pressY + acc.viscY + gravY);
      i := i + 1;
    }
    assert a[..] == ForcePass(s, start, end, hypot);
  }

  // ------------------------------------------------------------ integration

  /** Velocity change of one timestep under force f for a particle of density rho. */
  function Kick(f: real, rho: real): real
    requires rho != 0.0
  {
    DT * f / rho
  }

  /** Semi-implicit Euler: the velocity is updated first and the position moves with the new velocity. */
  function Advance(q: Particle): Particle
    requires q.rho != 0.0
  {
    var vx := q.vx + Kick(q.fx, q.rho);
    var vy := q.vy + Kick(q.fy, q.rho);
    q.(vx := vx, vy := vy, x := q.x + DT * vx, y := q.y + DT * vy)
  }

  /** The wall test of one axis of extent `extent`. */
  predicate HitsWall(pos: real, extent: real)
  {
    pos < EPS || pos > extent - EPS
  }

  /**
   * Reflection on one axis, as one decision: a position past either wall
   * is put on that wall and its velocity component damped once; any
   * other position is left alone.
   */
  function Reflect(pos: real, vel: real, extent: real): (real, real)
  {
    if pos < EPS then (EPS, vel * BOUND_DAMPING)
    else if pos > extent - EPS then (extent - EPS, vel * BOUND_DAMPING)
    else (pos, vel)
  }

  /** One particle after the integration pass. */
  function Integrated(q: Particle): Particle
    requires q.rho != 0.0
  {
    var m := Advance(q);
    var (x, vx) := Reflect(m.x, m.vx, VIEW_WIDTH);
    var (y, vy) := Reflect(m.y, m.vy, VIEW_HEIGHT);
    m.(x := x, vx := vx, y := y, vy := vy)
  }

  /** What the integration pass leaves: the range integrated, nothing else changed. */
  function IntegratePass(s: seq<Particle>, start: int, end: int): seq<Particle>
    requires 0 <= start && end <= |s| && DensityNonZero(s, start, end)
  {
    seq(|s|, k requires 0 <= k < |s| => if start <= k < end then Integrated(s[k]) else s[k])
  }

  method Integrate(a: array<Particle>, start: int, end: int)
    requires 0 <= start && end <= a.Length && DensityNonZero(a[..], start, end)
    modifies a
    ensures a[..] == IntegratePass(old(a[..]), start, end)
  {
    ghost var s := a[..];
    var i := start;
    while i < end
      invariant start <= i && (i <= end || i == start)
      invariant forall k :: 0 <= k < a.Length && !(start <= k < i) ==> a[k] == s[k]
      invariant forall k :: start <= k < i ==> a[k] == Integrated(s[k])
    {
      var p := a[i];
      p := p.(vx := p.vx + Kick(p.fx, p.rho));
      p := p.(vy := p.vy + Kick(p.fy, p.rho));
      p := p.(x := p.x + DT * p.vx);
      p := p.(y := p.y + DT * p.vy);
      if p.x - EPS < 0.0 {
        p := p.(vx := p.vx * BOUND_DAMPING, x := EPS);
      }
      if p.x + EPS > VIEW_WIDTH {
        p := p.(vx := p.vx * BOUND_DAMPING, x := VIEW_WIDTH - EPS);
      }
      if p.y - EPS < 0.0 {
        p := p.(vy := p.vy * BOUND_DAMPING, y := EPS);
      }
      if p.y + EPS > VIEW_HEIGHT {
        p := p.(vy := p.vy * BOUND_DAMPING, y := VIEW_HEIGHT - EPS);
      }
      a[i] := p;
      i := i + 1;
    }
    assert a[..] == IntegratePass(s, start, end);
  }
}
