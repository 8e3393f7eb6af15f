# SPH solver core, modelled in Dafny

This project models the core of a 2-D Smoothed Particle Hydrodynamics
solver that runs on several MPI ranks (`mpi-sph.c`). The model has four parts:

- **Particle store and seeding.** The particle record, `init_particle`,
  `is_in_domain` and `init_sph`. The root rank places `n` particles
  row-major on a grid of spacing `H`, starting at `(EPS, EPS)`, with a
  random jitter along x.
- **One step over an index range `[start, end)`.** `compute_density_pressure`,
  then `compute_forces`, then `integrate`, composed by `update`. Each pass
  is an imperative method over an `array<Particle>`. It is proved against
  a function on sequences that says what the pass leaves in the array.
  Lemmas then state what those functions guarantee: positive densities,
  gravity added once, the wall clamp, and semi-implicit Euler order.
- **Static partitioner and scatter.** The loop in `main` that fills
  `local_count`/`local_offset` and computes `n_local`. The scatter is
  modelled as slicing the global array. Lemmas prove that the shards are
  contiguous and disjoint, that they cover `[0, n)`, and that gathering
  them back gives the seeded array.
- **Driver.** The capacity check before seeding, and the per-rank stepping
  loop. A lemma shows that stepping a shard on its own gives the same
  result as stepping that slice inside the global array. This is the
  solver's deliberate no-halo approximation: no force acts between
  particles of different ranks.

Floats are idealised as `real`. The constants are those of the non-GUI
build: `MAX_PARTICLES = 20000`, `VIEW_WIDTH = 4500`, `VIEW_HEIGHT = 3000`.
`compute_forces` has its own local `EPS = 1e-6`, which shadows the global
`EPS = 16`. The model keeps them apart as `DIST_EPS` and `EPS`.

Files: `params.dfy` (constants), `particles.dfy` (record, domain test,
seeding), `physics.dfy` (the three passes), `physics_properties.dfy`
(their properties), `update.dfy` (the step and its locality),
`partition.dfy` (partitioner and scatter), `driver.dfy` (start-up and the
stepping loop).

Some of the code's behaviour is easy to misread:

- Offsets are `i * (n / nproc)`. They increase strictly only when
  `n >= nproc`; with more ranks than particles every offset is 0
  (`Partition.OffsetsIncreasing`).
- Gravity enters the force already divided by the density
  (`GY * MASS / rho`). `integrate` divides by the density again. So a
  particle at rest falls `DT^2 * GY * MASS / rho^2` in one step
  (`PhysicsProperties.FreeFall`).
- `is_in_domain` is strict, while the clamp box is closed. A particle on a
  wall is therefore not "in the domain". Seeded particles of the first
  row, and first-column particles with zero jitter, are not in it
  either (`Particles.SeededPlacement`).
- `init_sph` with a negative `n` returns at once with `n_particles == 0`.
  It never reaches its final assert. `main` lets such an `n` through,
  because it only rejects `n > MAX_PARTICLES`.

## Model

| member | source | states |
|---|---|---|
| `Particles.InitParticle` | mpi-sph.c:113-121 | the particle is at (x, y) and every other attribute is zero |
| `Particles.InDomainIsInterior` | mpi-sph.c:126-132 | the domain test holds exactly for points within the wall box and on none of its four walls |
| `Particles.GridColumns` | mpi-sph.c:152 | the x loop `x <= VIEW_WIDTH*0.8` visits exactly the 225 columns `EPS + c*H`, c < 225 |
| `Particles.GridRows` | mpi-sph.c:151 | the y loop `y < VIEW_HEIGHT - EPS` visits exactly the 186 rows `EPS + r*H`, r < 186 |
| `Particles.GridHoldsCapacity` | mpi-sph.c:74 | the grid has at least MAX_PARTICLES slots, so the final assert of the seeding holds for every accepted count |
| `Particles.SeededPlacement` | mpi-sph.c:151-156 | every seeded particle with jitter in [0, 1] is within the walls; it is in the domain iff it is off the first row and off the left wall |
| `Particles.ParticleStore.constructor` | mpi-sph.c:416-417 | a fresh buffer of MAX_PARTICLES slots, none in use |
| `Particles.ParticleStore.InitSph` | mpi-sph.c:146-163 | `n_particles` becomes max(n, 0); particle k sits at grid column k mod 225 and row k div 225, plus jitter[k] along x, at rest; slots past n are untouched |
| `Physics.KernelSigns` | mpi-sph.c:176-201 | POLY6 > 0, SPIKY_GRAD < 0, VISC_LAP > 0 |
| `Physics.ComputeDensityPressure` | mpi-sph.c:169-194 | the array becomes `DensityPass` of the old array: rho of each i in range is the kernel sum over j in range (i included), p its equation of state, nothing else changes |
| `Physics.AccumulateNeighbours` | mpi-sph.c:207-230 | the four accumulators equal the pressure and viscosity sums over the range of the array as it stands, with j == i skipped |
| `Physics.NeighboursIgnoreForce` | mpi-sph.c:216-228 | the accumulators for a particle do not depend on the force attributes in the range, so forces already written for earlier particles of the pass do not change later sums |
| `Physics.ComputeForces` | mpi-sph.c:196-236 | the array becomes `ForcePass` of the old array: fx, fy of each i in range are pressure + viscosity + gravity, nothing else changes |
| `Physics.PairForceIgnoresForce` | mpi-sph.c:216-228 | the pair contribution does not read either particle's force accumulator |
| `Physics.Integrate` | mpi-sph.c:238-266 | the array becomes `IntegratePass` of the old array; the four sequential wall tests equal one reflection per axis |
| `PhysicsProperties.DensityTermSign` | mpi-sph.c:184-190 | each density contribution is non-negative, and a particle's own is MASS*POLY6*HSQ^3 > 0 |
| `PhysicsProperties.DensityAtLeastSelf` | mpi-sph.c:178-191 | the density of every particle of the range is at least its own term, hence positive |
| `PhysicsProperties.DensityPassPositive` | mpi-sph.c:178-193 | after the density pass every particle in range has rho > 0 and p = GAS_CONST*(rho - REST_DENS); motion unchanged; outside the range untouched |
| `PhysicsProperties.IsolatedDensity` | mpi-sph.c:188-192 | a particle with no other within H has exactly its self density, and its pressure is negative |
| `PhysicsProperties.SelfPairVanishes` | mpi-sph.c:213-228 | the skipped pair j == i would contribute zero, so skipping it does not change the exact sums |
| `PhysicsProperties.IsolatedForce` | mpi-sph.c:220-234 | with no other particle of the range closer than H, the force written is the gravity term alone, added once |
| `PhysicsProperties.ForcePassFrame` | mpi-sph.c:205-235 | the force pass writes only fx, fy of particles in range and keeps every density non-zero |
| `PhysicsProperties.IntegratedWithinWalls` | mpi-sph.c:249-264 | after integration the particle lies in [EPS, VIEW_WIDTH-EPS] x [EPS, VIEW_HEIGHT-EPS] for any prior position and velocity |
| `PhysicsProperties.IntegratedDamping` | mpi-sph.c:249-264 | a velocity component is multiplied by BOUND_DAMPING exactly when its axis's wall test fires, and the position is then put on that wall (EPS or the far wall, per side); an axis whose test does not fire keeps the advanced position; rho, p, fx, fy are kept |
| `PhysicsProperties.SemiImplicitOrder` | mpi-sph.c:243-246 | for every particle, velocity is updated from force/rho first and the position advances with the new velocity; on an axis whose wall test does not fire that is the integrated result |
| `PhysicsProperties.FreeFall` | mpi-sph.c:231-246 | a particle at rest under gravity alone drops by DT^2*GY*MASS/rho^2 and keeps its x |
| `PhysicsProperties.ClampedLeavesDomain` | mpi-sph.c:126-132 | a particle the clamp has put on a wall fails the domain test |
| `SimulationStep.StepWithinWalls` | mpi-sph.c:279-284 | after a step every particle of the range is within the walls with rho > 0; the rest are untouched |
| `SimulationStep.Update` | mpi-sph.c:279-284 | the array becomes `Step` of the old array: the three passes in order |
| `SimulationStep.DensityPassIsLocal` | mpi-sph.c:178-181 | the density pass on a range equals the pass on a copy of that range alone |
| `SimulationStep.ForcePassIsLocal` | mpi-sph.c:205-210 | the force pass on a range equals the pass on a copy of that range alone |
| `SimulationStep.IntegratePassIsLocal` | mpi-sph.c:240 | the integration pass on a range equals the pass on a copy of that range alone |
| `SimulationStep.StepIsLocal` | mpi-sph.c:279-284 | a step over [start, end) of an array equals, on that range, a step over a copy of the range alone |
| `Partition.ComputePartition` | mpi-sph.c:461-477 | fills count and offset of every rank; `n_local` equals this rank's count |
| `Partition.OffsetIsCountsBefore` | mpi-sph.c:471-477 | every offset is the sum of the counts of the ranks before it |
| `Partition.CountsSumToN` | mpi-sph.c:471-475 | the counts of all ranks add up to n |
| `Partition.LastShardEndsAtN` | mpi-sph.c:471-477 | the last rank's offset plus its count is n |
| `Partition.ShardsContiguous` | mpi-sph.c:471-477 | offset 0 is 0, offset[i+1] = offset[i] + count[i], the last shard ends at n, no count is negative |
| `Partition.LastAbsorbsRemainder` | mpi-sph.c:471-475 | every rank but the last gets n/nproc, the last n/nproc + n%nproc; with nproc > n all but the last get 0 |
| `Partition.OffsetsIncreasing` | mpi-sph.c:476 | offsets increase strictly from rank to rank iff n >= nproc |
| `Partition.ExactlyOneOwner` | mpi-sph.c:471-477 | every index in [0, n) lies in the shard of exactly one rank |
| `Partition.ShardBounds` | mpi-sph.c:471-477 | every shard lies within [0, n) |
| `Partition.ScatterCoversAll` | mpi-sph.c:482 | the shards laid end to end in rank order are exactly the first n particles |
| `Partition.ShardElement` | mpi-sph.c:482 | element j of rank r's shard is global particle offset[r] + j, and the shard holds count[r] particles |
| `Driver.SeedRoot` | mpi-sph.c:443-453 | a count above MAX_PARTICLES is rejected before anything is seeded; otherwise the store is seeded as InitSph states: count max(n, 0), the seeded grid prefix, later slots unchanged |
| `Driver.ShardStepIsSliceStep` | mpi-sph.c:482-487 | what a rank computes on its shard equals a step over that shard's slice of the global array |
| `Driver.SeededShard` | mpi-sph.c:452-482 | after seeding, particle j of rank r's shard is the seeded particle offset[r] + j, at rest |
| `Driver.StepsWithinWalls` | mpi-sph.c:486-487 | after one or more steps every particle of the shard is within the walls with rho > 0 |
| `Driver.RunSteps` | mpi-sph.c:486-487 | the shard after the loop is nsteps iterated steps of the whole shard; a non-positive count runs none |

## Left out

- MPI plumbing is not modelled: initialisation and finalisation, the
  derived datatype, the broadcast of `n_particles`, and the reduce of the
  average speed. These are foreign collective calls. The scatter is
  modelled only as slicing the global array by the partition
  (`Partition.Shard`).
- The GUI build is not modelled: OpenGL/GLUT rendering, mouse and keyboard
  handlers, `place_ball`, and its smaller `MAX_PARTICLES` and window. It is
  user interface.
- `rand`, `srand` and `randab` are not modelled. The seeding jitter is an
  input sequence, with values in [0, 1] where a lemma needs that.
- `hypotf` is a function parameter. The only thing assumed of it is that
  it is non-negative. `M_PI` is its literal value. `pow` is written as
  multiplication.
- Float rounding, overflow, NaN and infinity are not modelled. Floats are
  exact reals, so the model does not reproduce trajectories. The grid
  bound `VIEW_WIDTH * 0.8` is taken as exactly 3600.
- The force and integration passes require every density in the range to
  be non-zero. In C a zero density would give an infinity or NaN, not an
  error. The density pass guarantees this, and `update` establishes it
  before the passes that divide by it.
- `Physics.AccumulateNeighbours`: the force pass's inner loop is its own
  read-only method, to keep each proof small. Each visit adds the pair
  contribution as one value computed by the function `Physics.PairForce`
  (distance guard, then the two kernels), instead of four separate
  statements. Each accumulator receives the same term in the same
  iteration either way.
- `Partition.ComputePartition` requires a non-negative particle count, as
  the broadcast count always is. C's truncating division is therefore the
  same as Dafny's.
- The average-speed diagnostic and its global report are not modelled:
  `avg_velocities` (which divides by `local_end` rather than the range
  length) and the unweighted mean of per-rank means. Both are sqrt-based
  float output. The stepping loop is modelled without them.
- Command-line parsing (`atoi`, the usage message) is not modelled. The
  particle and step counts are parameters.
- `script/omp.py` and `script/mpi-weak-scaling copy.py` are not part of
  this model. They are benchmarking scripts.
- Density symmetry under relabelling of the particles is not proved.
