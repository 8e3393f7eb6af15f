/**
 * The particle record, its initialisation, the domain test and the
 * global particle store that the coordinating rank seeds on a grid
 * (mpi-sph.c:91-163).
 */
module Particles {
  import opened Params

  /** Position, velocity, force accumulator, density and pressure. */
  datatype Particle = Particle(x: real, y: real, vx: real, vy: real,
                               fx: real, fy: real, rho: real, p: real)

  /** Every attribute other than the position is zero. */
  predicate AtRest(q: Particle)
  {
    q.vx == 0.0 && q.vy == 0.0 && q.fx == 0.0 && q.fy == 0.0 && q.rho == 0.0 && q.p == 0.0
  }

  /** A particle placed at (x, y) with every other attribute zeroed. */
  function InitParticle(x: real, y: real): (q: Particle)
    ensures q.x == x && q.y == y && AtRest(q)
  {
    Particle(x, y, 0.0, 0.0, 0.0, 0.0, 0.0, 0.0)
  }

  /** The closed box that the boundary clamp keeps every particle in. */
  predicate WithinWalls(x: real, y: real)
  {
    EPS <= x <= VIEW_WIDTH - EPS && EPS <= y <= VIEW_HEIGHT - EPS
  }

  /** The domain test: strictly inside the walls. */
  predicate IsInDomain(x: real, y: real)
  {
    x < VIEW_WIDTH - EPS && x > EPS && y < VIEW_HEIGHT - EPS && y > EPS
  }

  /**
   * The domain is the interior of the wall box: a point is in the domain
   * exactly when it is within the walls and on none of them.
   */
  lemma InDomainIsInterior(x: real, y: real)
    ensures IsInDomain(x, y) <==>
      WithinWalls(x, y) && x != EPS && x != VIEW_WIDTH - EPS && y != EPS && y != VIEW_HEIGHT - EPS
  {
  }

  // ---------------------------------------------------------------- seeding

  /**
   * Grid of the seeding loops: x runs over EPS, EPS + H, ... while
   * x <= 0.8 * VIEW_WIDTH (COLS values), y over EPS, EPS + H, ... while
   * y < VIEW_HEIGHT - EPS (ROWS values).
   */
  const COLS: int := 225
  const ROWS: int := 186

  /** Column k of the grid passes the x loop's test, and column COLS does not. */
  lemma GridColumns(c: int)
    requires 0 <= c
    ensures EPS + (c as real) * H <= VIEW_WIDTH * 0.8 <==> c < COLS
  {
  }

  /** Row k of the grid passes the y loop's test, and row ROWS does not. */
  lemma GridRows(r: int)
    requires 0 <= r
    ensures EPS + (r as real) * H < VIEW_HEIGHT - EPS <==> r < ROWS
  {
  }

  /** The grid holds more slots than the particle array. */
  lemma GridHoldsCapacity()
    ensures MAX_PARTICLES <= ROWS * COLS
  {
  }

  /** Grid position of the k-th seeded particle (row-major, before jitter). */
  function GridX(k: nat): real
  {
    EPS + ((k % COLS) as real) * H
  }

  function GridY(k: nat): real
  {
    EPS + ((k / COLS) as real) * H
  }

  /** The k-th seeded particle, displaced along x by `jitter`. */
  function Seeded(k: nat, jitter: real): Particle
  {
    InitParticle(GridX(k) + jitter, GridY(k))
  }

  /** The values rand() / RAND_MAX can take. */
  predicate IsJitter(j: real)
  {
    0.0 <= j <= 1.0
  }

  /**
   * Every seeded slot lies within the walls, and it is in the domain
   * exactly when it is off the first row and off the first column's wall
   * (its jitter moves a first-column particle off the wall when positive).
   */
  lemma SeededPlacement(k: nat, jitter: real)
    requires k < ROWS * COLS && IsJitter(jitter)
    ensures WithinWalls(Seeded(k, jitter).x, Seeded(k, jitter).y)
    ensures IsInDomain(Seeded(k, jitter).x, Seeded(k, jitter).y) <==>
      k >= COLS && (k % COLS != 0 || jitter > 0.0)
  {
    var r, c := k / COLS, k % COLS;
    assert 0 <= r < ROWS && 0 <= c < COLS;
    assert r == 0 <==> k < COLS;
  }

  /** Row-major index arithmetic of the grid. */
  lemma GridIndex(r: int, c: int)
    requires 0 <= r && 0 <= c < COLS
    ensures (r * COLS + c) / COLS == r && (r * COLS + c) % COLS == c
  {
  }

  /**
   * The global particle array and its active count. The array is the
   * caller-allocated buffer of MAX_PARTICLES slots; `nParticles` counts
   * the slots in use.
   */
  class ParticleStore {
    var particles: array<Particle>
    var nParticles: int

    ghost predicate Valid()
      reads this
    {
      0 <= nParticles <= particles.Length
    }

    /** Allocates MAX_PARTICLES slots, none in use. */
    constructor ()
      ensures Valid() && fresh(particles)
      ensures particles.Length == MAX_PARTICLES && nParticles == 0
    {
      particles := new Particle[MAX_PARTICLES];
      nParticles := 0;
    }

    /**
     * Seeds `n` particles row-major on the grid, jittered along x by
     * jitter[k], and counts them in `nParticles`. A negative `n` seeds
     * nothing. The caller's buffer must hold `n` particles, and the final
     * check that `n` were placed demands that the grid holds them.
     */
    method InitSph(n: int, jitter: seq<real>)
      requires Valid()
      requires n <= particles.Length && n <= ROWS * COLS && n <= |jitter|
      modifies this, particles
      ensures Valid() && particles == old(particles)
      ensures nParticles == if n < 0 then 0 else n
      ensures forall k :: 0 <= k < nParticles ==> particles[k] == Seeded(k, jitter[k])
      ensures forall k :: nParticles <= k < particles.Length ==> particles[k] == old(particles[k])
    {
      nParticles := 0;
      var y := EPS;
      ghost var row := 0;
      while y < VIEW_HEIGHT - EPS
        invariant particles == old(particles)
        invariant 0 <= row <= ROWS && y == EPS + (row as real) * H
        invariant nParticles == row * COLS && nParticles <= (if n < 0 then 0 else n)
        invariant forall k :: 0 <= k < nParticles ==> particles[k] == Seeded(k, jitter[k])
        invariant forall k :: nParticles <= k < particles.Length ==> particles[k] == old(particles[k])
        decreases ROWS - row
      {
        GridRows(row);
        var x := EPS;
        ghost var col := 0;
        while x <= VIEW_WIDTH * 0.8
          invariant particles == old(particles)
          invariant 0 <= col <= COLS && x == EPS + (col as real) * H
          invariant nParticles == row * COLS + col && nParticles <= (if n < 0 then 0 else n)
          invariant forall k :: 0 <= k < nParticles ==> particles[k] == Seeded(k, jitter[k])
          invariant forall k :: nParticles <= k < particles.Length ==> particles[k] == old(particles[k])
          decreases COLS - col
        {
          GridColumns(col);
          if nParticles < n {
            GridIndex(row, col);
            particles[nParticles] := InitParticle(x + jitter[nParticles], y);
            nParticles := nParticles + 1;
          } else {
            return;
          }
          x := x + H;
          col := col + 1;
        }
        GridColumns(col);
        y := y + H;
        row := row + 1;
      }
      GridRows(row);
      assert nParticles == n;
    }
  }
}
