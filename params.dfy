/**
 * Solver and domain parameters of the non-GUI build of the SPH solver
 * (mpi-sph.c:45-84). Single-precision floats are idealised as `real`.
 */
module Params {

  /** External (gravitational) acceleration. */
  const GX: real := 0.0
  const GY: real := -10.0

  /** Rest density and gas constant of the equation of state. */
  const REST_DENS: real := 300.0
  const GAS_CONST: real := 2000.0

  /** Kernel radius. */
  const H: real := 16.0

  /** Wall margin used by seeding and by the boundary clamp (equal to H). */
  const EPS: real := 16.0

  /** Every particle has the same mass. */
  const MASS: real := 2.5

  const VISC: real := 200.0

  /** Fixed integration timestep. */
  const DT: real := 0.0007

  /** Factor applied to a velocity component on a wall bounce. */
  const BOUND_DAMPING: real := -0.5

  /** Capacity of the global particle array (non-GUI build). */
  const MAX_PARTICLES: int := 20000

  const WINDOW_WIDTH: real := 3000.0
  const WINDOW_HEIGHT: real := 2000.0

  /** Extent of the simulated domain. */
  const VIEW_WIDTH: real := 1.5 * WINDOW_WIDTH
  const VIEW_HEIGHT: real := 1.5 * WINDOW_HEIGHT

  /** The value of M_PI. */
  const PI: real := 3.14159265358979323846
}
