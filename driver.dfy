/**
 * The non-GUI driver (mpi-sph.c:434-502) around the core: the capacity
 * check and seeding on the root rank, the shard each rank receives, and
 * the stepping loop over a rank's own shard.
 */
module Driver {
  import opened Params
  import opened Particles
  import opened Physics
  import opened SimulationStep
  import opened Partition

  /**
   * The root rank's start-up: a particle count above MAX_PARTICLES is a
   * fatal error reported before anything is seeded; any other count is
   * seeded (a negative one seeds nothing). `ok` is false exactly on the
   * fatal path.
   */
  method SeedRoot(store: ParticleStore, n: int, jitter: seq<real>) returns (ok: bool)
    requires store.Valid() && store.particles.Length == MAX_PARTICLES
    requires n <= MAX_PARTICLES ==> n <= |jitter|
    modifies store, store.particles
    ensures store.Valid() && store.particles == old(store.particles)
    ensures ok <==> n <= MAX_PARTICLES
    ensures !ok ==> store.nParticles == old(store.nParticles) && store.particles[..] == old(store.particles[..])
    ensures ok ==> store.nParticles == (if n < 0 then 0 else n)
    ensures ok ==> forall k :: 0 <= k < store.nParticles ==> store.particles[k] == Seeded(k, jitter[k])
    ensures ok ==> forall k :: store.nParticles <= k < store.particles.Length ==> store.particles[k] == old(store.particles[k])
  {
    if n > MAX_PARTICLES {
      return false;
    }
    GridHoldsCapacity();
    store.InitSph(n, jitter);
    return true;
  }

  /**
   * What a rank steps is what the global array's slice of its shard would
   * become under a step over that slice: the rank's result does not
   * depend on particles held by other ranks.
   */
  lemma ShardStepIsSliceStep(s: seq<Particle>, n: int, nproc: int, r: int, hypot: (real, real) -> real)
    requires 0 <= n <= |s| && nproc >= 1 && 0 <= r < nproc && NonNegative(hypot)
    ensures 0 <= LocalOffset(n, nproc, r) <= LocalOffset(n, nproc, r) + LocalCount(n, nproc, r) <= n
    ensures Step(Shard(s, n, nproc, r), 0, LocalCount(n, nproc, r), hypot) ==
            Step(s, LocalOffset(n, nproc, r), LocalOffset(n, nproc, r) + LocalCount(n, nproc, r), hypot)
              [LocalOffset(n, nproc, r)..LocalOffset(n, nproc, r) + LocalCount(n, nproc, r)]
  {
    ShardBounds(n, nproc, r);
    StepIsLocal(s, LocalOffset(n, nproc, r), LocalOffset(n, nproc, r) + LocalCount(n, nproc, r), hypot);
  }

  /** After seeding, particle j of rank r's shard is the seeded particle at global index offset + j. */
  lemma SeededShard(s: seq<Particle>, jitter: seq<real>, n: int, nproc: int, r: int, j: int)
    requires 0 <= n <= |s| && n <= |jitter| && nproc >= 1 && 0 <= r < nproc
    requires forall k :: 0 <= k < n ==> s[k] == Seeded(k, jitter[k])
    requires 0 <= j < LocalCount(n, nproc, r)
    ensures 0 <= LocalOffset(n, nproc, r) && LocalOffset(n, nproc, r) + LocalCount(n, nproc, r) <= n
    ensures Shard(s, n, nproc, r)[j] == Seeded(LocalOffset(n, nproc, r) + j, jitter[LocalOffset(n, nproc, r) + j])
    ensures AtRest(Shard(s, n, nproc, r)[j])
  {
    ShardElement(s, n, nproc, r, j);
  }

  /** The shard after k steps, each over the whole shard. */
  function Steps(s: seq<Particle>, k: int, hypot: (real, real) -> real): seq<Particle>
    requires NonNegative(hypot)
    decreases k
  {
    if k <= 0 then s else Step(Steps(s, k - 1, hypot), 0, |Steps(s, k - 1, hypot)|, hypot)
  }

  /** Stepping keeps the shard's length; after at least one step every particle is within the walls. */
  lemma {:induction false} StepsWithinWalls(s: seq<Particle>, k: int, hypot: (real, real) -> real)
    requires NonNegative(hypot)
    ensures |Steps(s, k, hypot)| == |s|
    ensures k >= 1 ==> forall i :: 0 <= i < |s| ==>
      WithinWalls(Steps(s, k, hypot)[i].x, Steps(s, k, hypot)[i].y) && Steps(s, k, hypot)[i].rho > 0.0
    decreases k
  {
    if k > 0 {
      StepsWithinWalls(s, k - 1, hypot);
      StepWithinWalls(Steps(s, k - 1, hypot), 0, |s|, hypot);
    }
  }

  /**
   * The stepping loop of a rank: `nsteps` updates of its whole shard. A
   * non-positive step count runs none.
   */
  method RunSteps(localData: array<Particle>, nsteps: int, hypot: (real, real) -> real)
    requires NonNegative(hypot)
    modifies localData
    ensures localData[..] == Steps(old(localData[..]), nsteps, hypot)
  {
    var s := 0;
    while s < nsteps
      invariant (0 <= s <= nsteps || s == 0)
      invariant localData[..] == Steps(old(localData[..]), s, hypot)
    {
      StepsWithinWalls(old(localData[..]), s, hypot);
      Update(localData, 0, localData.Length, hypot);
      s := s + 1;
    }
  }
}
