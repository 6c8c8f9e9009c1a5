/** ParticleSystem.cpp: the death burst.  A fixed number of particles leave
    one point, fall under gravity and fade together with the time elapsed
    since the burst was spawned. */
module Particles {
  import opened Geometry

  const NUM_PARTICLES: nat := 100
  const PARTICLE_SPEED: real := 5.0
  const PARTICLE_SIZE: real := 0.2
  const GRAVITY: real := -9.81
  const TOTAL_LIFETIME: real := 5.0

  datatype Particle = Particle(position: Vec3, velocity: Vec3, life: real, size: real, color: Vec3)

  /** The random draws one particle consumes: the spherical direction
      (given as its unit vector, since sin and cos are not modelled) and
      the three rand()/RAND_MAX values for speed, size and green. */
  datatype Draw = Draw(direction: Vec3, speedRoll: real, sizeRoll: real, greenRoll: real)

  predicate IsRoll(r: real) { 0.0 <= r <= 1.0 }

  predicate ValidDraw(d: Draw)
  {
    NormSq3(d.direction) == 1.0 && IsRoll(d.speedRoll) && IsRoll(d.sizeRoll) && IsRoll(d.greenRoll)
  }

  lemma ScaledNorm(v: Vec3, k: real)
    ensures NormSq3(Scale3(v, k)) == k * k * NormSq3(v)
  {
    assert Sq(v.x * k) == k * k * Sq(v.x);
    assert Sq(v.y * k) == k * k * Sq(v.y);
    assert Sq(v.z * k) == k * k * Sq(v.z);
  }

  /** One freshly spawned particle (ParticleSystem.cpp:17-37). */
  function Emit(origin: Vec3, d: Draw): (p: Particle)
    requires ValidDraw(d)
    ensures p.position == origin && p.life == 1.0
    ensures 0.1 <= p.size <= 0.3
    ensures p.color.x == 1.0 && 0.0 <= p.color.y <= 0.5 && p.color.z == 0.0
    ensures 2.5 * 2.5 <= NormSq3(p.velocity) <= 7.5 * 7.5
  {
    var speed := PARTICLE_SPEED * (0.5 + d.speedRoll);
    ScaledNorm(d.direction, speed);
    assert 2.5 * 2.5 <= speed * speed <= 7.5 * 7.5 by {
      assert 2.5 <= speed <= 7.5;
      assert speed * speed >= 2.5 * speed >= 2.5 * 2.5;
      assert speed * speed <= 7.5 * speed <= 7.5 * 7.5;
    }
    Particle(origin, Scale3(d.direction, speed), 1.0,
             PARTICLE_SIZE * (0.5 + d.sizeRoll), Vec3(1.0, d.greenRoll * 0.5, 0.0))
  }

  /** The fade shared by every particle once `elapsed` seconds have passed. */
  function Fade(elapsed: real): real { 1.0 - elapsed / TOTAL_LIFETIME }

  /** One particle after one update of length dt, with `elapsed` the new
      time since spawn (ParticleSystem.cpp:47-49). */
  function Advance(p: Particle, dt: real, elapsed: real): (q: Particle)
    ensures q.velocity.x == p.velocity.x && q.velocity.z == p.velocity.z
    ensures q.velocity.y == p.velocity.y + GRAVITY * dt
    ensures q.position == Add3(p.position, Scale3(q.velocity, dt))
    ensures q.life == Fade(elapsed) && q.size == p.size && q.color == p.color
  {
    var v := p.velocity.(y := p.velocity.y + GRAVITY * dt);
    p.(velocity := v, position := Add3(p.position, Scale3(v, dt)), life := Fade(elapsed))
  }

  /** While the burst is alive its fade lies in (0, 1]. */
  lemma FadeInRange(elapsed: real)
    requires 0.0 <= elapsed < TOTAL_LIFETIME
    ensures 0.0 < Fade(elapsed) <= 1.0
  {
  }

  /** The engine's fixed tick. */
  const TICK: real := 0.016

  /** Time since spawn after n updates of one tick each. */
  function ElapsedAfter(n: nat): real
  {
    if n == 0 then 0.0 else ElapsedAfter(n - 1) + TICK
  }

  lemma {:induction false} ElapsedIsLinear(n: nat)
    ensures ElapsedAfter(n) == TICK * (n as real)
  {
    if n > 0 {
      ElapsedIsLinear(n - 1);
    }
  }

  /** With exact arithmetic the burst survives 312 updates and dies at the 313th. */
  lemma BurstLifetime(n: nat)
    ensures ElapsedAfter(n) < TOTAL_LIFETIME <==> n < 313
  {
    ElapsedIsLinear(n);
  }

  class ParticleSystem {
    var particles: seq<Particle>
    var timeSinceSpawn: real

    constructor ()
      ensures particles == [] && timeSinceSpawn == 0.0
    {
      particles := [];
      timeSinceSpawn := 0.0;
    }

    /** isAlive (ParticleSystem.h:23): the whole burst lives or dies at once. */
    function IsAlive(): (alive: bool)
      reads this
      ensures alive <==> Fade(timeSinceSpawn) > 0.0
    {
      timeSinceSpawn < TOTAL_LIFETIME
    }

    /** spawn: drop any previous burst and emit NUM_PARTICLES new ones at origin. */
    method Spawn(origin: Vec3, draws: seq<Draw>)
      requires |draws| >= NUM_PARTICLES
      requires forall k :: 0 <= k < |draws| ==> ValidDraw(draws[k])
      modifies this
      ensures timeSinceSpawn == 0.0 && IsAlive()
      ensures |particles| == NUM_PARTICLES
      ensures forall k :: 0 <= k < NUM_PARTICLES ==> particles[k] == Emit(origin, draws[k])
    {
      particles := [];
      timeSinceSpawn := 0.0;
      var i := 0;
      while i < NUM_PARTICLES
        invariant 0 <= i <= NUM_PARTICLES
        invariant |particles| == i && timeSinceSpawn == 0.0
        invariant forall k :: 0 <= k < i ==> particles[k] == Emit(origin, draws[k])
      {
        particles := particles + [Emit(origin, draws[i])];
        i := i + 1;
      }
    }

    /** update: advance the clock, then move and fade every particle in place. */
    method Update(dt: real)
      modifies this
      ensures timeSinceSpawn == old(timeSinceSpawn) + dt
      ensures |particles| == |old(particles)|
      ensures forall k :: 0 <= k < |particles| ==> particles[k] == Advance(old(particles)[k], dt, timeSinceSpawn)
      ensures forall k :: 0 <= k < |particles| ==> particles[k].life == Fade(timeSinceSpawn)
    {
      timeSinceSpawn := timeSinceSpawn + dt;
      var i := 0;
      while i < |particles|
        invariant 0 <= i <= |particles| == |old(particles)|
        invariant timeSinceSpawn == old(timeSinceSpawn) + dt
        invariant forall k :: 0 <= k < i ==> particles[k] == Advance(old(particles)[k], dt, timeSinceSpawn)
        invariant forall k :: i <= k < |particles| ==> particles[k] == old(particles)[k]
      {
        particles := particles[i := Advance(particles[i], dt, timeSinceSpawn)];
        i := i + 1;
      }
    }
  }
}
