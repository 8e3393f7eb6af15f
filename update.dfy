/**
 * One simulation step over a range (mpi-sph.c:279-284): density and
 * pressure, then forces, then integration. Also that a step over a range
 * depends on that range alone, which is why a rank can step its own
 * shard without the other ranks' particles.
 */
module SimulationStep {
  import opened Params
  import opened Particles
  import opened Physics
  import opened PhysicsProperties

  /** The three passes in their order; each reads what the previous one wrote. */
  function Step(s: seq<Particle>, start: int, end: int, hypot: (real, real) -> real): seq<Particle>
    requires 0 <= start && end <= |s| && NonNegative(hypot)
  {
    DensityPassPositive(s, start, end);
    var d := DensityPass(s, start, end);
    ForcePassFrame(d, start, end, hypot);
    IntegratePass(ForcePass(d, start, end, hypot), start, end)
  }

  /**
   * After a step every particle of the range is within the walls and has
   * a positive density; particles outside the range are untouched.
   */
  lemma StepWithinWalls(s: seq<Particle>, start: int, end: int, hypot: (real, real) -> real)
    requires 0 <= start && end <= |s| && NonNegative(hypot)
    ensures |Step(s, start, end, hypot)| == |s|
    ensures forall k :: start <= k < end ==>
      WithinWalls(Step(s, start, end, hypot)[k].x, Step(s, start, end, hypot)[k].y) &&
      Step(s, start, end, hypot)[k].rho > 0.0
    ensures forall k :: 0 <= k < |s| && !(start <= k < end) ==> Step(s, start, end, hypot)[k] == s[k]
  {
    DensityPassPositive(s, start, end);
    var d := DensityPass(s, start, end);
    ForcePassFrame(d, start, end, hypot);
    var f := ForcePass(d, start, end, hypot);
    forall k | start <= k < end
      ensures WithinWalls(Step(s, start, end, hypot)[k].x, Step(s, start, end, hypot)[k].y)
      ensures Step(s, start, end, hypot)[k].rho > 0.0
    {
      IntegratedWithinWalls(f[k]);
      IntegratedDamping(f[k]);
    }
  }

  method Update(a: array<Particle>, start: int, end: int, hypot: (real, real) -> real)
    requires 0 <= start && end <= a.Length && NonNegative(hypot)
    modifies a
    ensures a[..] == Step(old(a[..]), start, end, hypot)
    ensures forall k :: start <= k < end ==> WithinWalls(a[k].x, a[k].y) && a[k].rho > 0.0
    ensures forall k :: 0 <= k < a.Length && !(start <= k < end) ==> a[k] == old(a[k])
  {
    ghost var s := a[..];
    ComputeDensityPressure(a, start, end);
    DensityPassPositive(s, start, end);
    ComputeForces(a, start, end, hypot);
    ForcePassFrame(DensityPass(s, start, end), start, end, hypot);
    Integrate(a, start, end);
    StepWithinWalls(s, start, end, hypot);
  }

  // ------------------------------------------------------------ locality

  lemma {:induction false} DensityShiftPrefix(s: seq<Particle>, i: int, start: int, end: int, m: int)
    requires 0 <= start <= i < end <= |s| && start <= m <= end
    ensures Density(s, i, start, m) == Density(s[start..end], i - start, 0, m - start)
    decreases m - start
  {
    if m > start {
      DensityShiftPrefix(s, i, start, end, m - 1);
      assert s[start..end][m - 1 - start] == s[m - 1];
    }
  }

  lemma {:induction false} NeighboursShiftPrefix(s: seq<Particle>, i: int, start: int, end: int, m: int,
                                                 hypot: (real, real) -> real)
    requires 0 <= start <= i < end <= |s| && start <= m <= end
    requires NonNegative(hypot) && DensityNonZero(s, start, end)
    ensures DensityNonZero(s[start..end], 0, end - start)
    ensures Neighbours(s, i, start, m, hypot) == Neighbours(s[start..end], i - start, 0, m - start, hypot)
    decreases m - start
  {
    assert DensityNonZero(s[start..end], 0, end - start) by {
      forall k | 0 <= k < end - start ensures s[start..end][k].rho != 0.0 {
        assert s[start..end][k] == s[start + k];
      }
    }
    if m > start {
      var t := s[start..end];
      NeighboursShiftPrefix(s, i, start, end, m - 1, hypot);
      assert t[m - 1 - start] == s[m - 1] && t[i - start] == s[i];
      if m - 1 != i {
        assert Neighbours(s, i, start, m, hypot)
          == Neighbours(s, i, start, m - 1, hypot).Plus(PairForce(s[i], s[m - 1], hypot));
        assert Neighbours(t, i - start, 0, m - start, hypot)
          == Neighbours(t, i - start, 0, m - 1 - start, hypot).Plus(PairForce(t[i - start], t[m - 1 - start], hypot));
      }
    }
  }

  lemma DensityPassIsLocal(s: seq<Particle>, start: int, end: int)
    requires 0 <= start <= end <= |s|
    ensures DensityPass(s, start, end)[start..end] == DensityPass(s[start..end], 0, end - start)
  {
    var d, dt := DensityPass(s, start, end), DensityPass(s[start..end], 0, end - start);
    forall k | 0 <= k < end - start ensures d[start + k] == dt[k] {
      DensityShiftPrefix(s, start + k, start, end, end);
    }
  }

  lemma ForcePassIsLocal(s: seq<Particle>, start: int, end: int, hypot: (real, real) -> real)
    requires 0 <= start <= end <= |s| && NonNegative(hypot) && DensityNonZero(s, start, end)
    ensures DensityNonZero(s[start..end], 0, end - start)
    ensures ForcePass(s, start, end, hypot)[start..end] == ForcePass(s[start..end], 0, end - start, hypot)
  {
    var t, len := s[start..end], end - start;
    assert DensityNonZero(t, 0, len) by {
      forall k | 0 <= k < len ensures t[k].rho != 0.0 {
        assert t[k] == s[start + k];
      }
    }
    var f, ft := ForcePass(s, start, end, hypot), ForcePass(t, 0, len, hypot);
    forall k | 0 <= k < len ensures f[start + k] == ft[k] {
      ForceEntryIsLocal(s, start, end, hypot, k);
    }
  }

  lemma ForceEntryIsLocal(s: seq<Particle>, start: int, end: int, hypot: (real, real) -> real, k: int)
    requires 0 <= start <= end <= |s| && NonNegative(hypot) && DensityNonZero(s, start, end)
    requires 0 <= k < end - start
    ensures DensityNonZero(s[start..end], 0, end - start)
    ensures ForcePass(s, start, end, hypot)[start + k] == ForcePass(s[start..end], 0, end - start, hypot)[k]
  {
    var t := s[start..end];
    NeighboursShiftPrefix(s, start + k, start, end, end, hypot);
    assert t[k] == s[start + k];
    var n := Neighbours(s, start + k, start, end, hypot);
    assert ForcePass(s, start, end, hypot)[start + k] ==
      s[start + k].(fx := n.pressX + n.viscX + GravityX(s[start + k].rho),
                    fy := n.pressY + n.viscY + GravityY(s[start + k].rho));
  }

  lemma IntegratePassIsLocal(s: seq<Particle>, start: int, end: int)
    requires 0 <= start <= end <= |s| && DensityNonZero(s, start, end)
    ensures DensityNonZero(s[start..end], 0, end - start)
    ensures IntegratePass(s, start, end)[start..end] == IntegratePass(s[start..end], 0, end - start)
  {
    var t, len := s[start..end], end - start;
    assert DensityNonZero(t, 0, len) by {
      forall k | 0 <= k < len ensures t[k].rho != 0.0 {
        assert t[k] == s[start + k];
      }
    }
  }

  /**
   * A step over [start, end) of a larger array computes, on that range,
   * exactly what the same step computes on a copy of the range alone at
   * [0, end - start): no particle outside the range takes part.
   */
  lemma StepIsLocal(s: seq<Particle>, start: int, end: int, hypot: (real, real) -> real)
    requires 0 <= start <= end <= |s| && NonNegative(hypot)
    ensures Step(s, start, end, hypot)[start..end] == Step(s[start..end], 0, end - start, hypot)
  {
    var t, len := s[start..end], end - start;
    DensityPassPositive(s, start, end);
    DensityPassPositive(t, 0, len);
    DensityPassIsLocal(s, start, end);
    var d := DensityPass(s, start, end);
    ForcePassFrame(d, start, end, hypot);
    ForcePassIsLocal(d, start, end, hypot);
    var f := ForcePass(d, start, end, hypot);
    IntegratePassIsLocal(f, start, end);
  }
}
