/** Ghost.cpp: the free-roaming ghosts and the manager that spawns, ages,
    removes and merges them.  A Ghost lives by value inside the manager's
    vector (merge returns a new one, erase shifts copies), so it is a
    datatype here and Ghost::update is the function Step on it. */
module Ghosts {
  import opened Geometry
  import opened Wrappers
  import opened Seqs

  // Ghost.h
  const WORLD_SIZE: real := 60.0
  const MERGE_DISTANCE: real := 1.0
  const MAX_GHOST_SIZE: real := 4.0
  const COLLISION_RADIUS: real := 2.0
  const MAX_FALL_TIME: real := 3.0
  const FALL_SPEED: real := 15.0
  /** Below this horizontal distance to its target a ghost does not move. */
  const PURSUIT_EPSILON: real := 0.1
  /** Size given to every ghost spawnGhost creates. */
  const SPAWNED_SIZE: real := 1.0

  datatype Ghost = Ghost(position: Vec3, isFalling: bool, fallTime: real, size: real)

  /** The Ghost constructor: not falling, no fall time yet. */
  function NewGhost(position: Vec3, size: real): Ghost { Ghost(position, false, 0.0, size) }

  /** isAlive (Ghost.h:24). */
  predicate IsAlive(g: Ghost)
    ensures !g.isFalling ==> IsAlive(g)
    ensures g.isFalling && g.fallTime >= MAX_FALL_TIME ==> !IsAlive(g)
  { !g.isFalling || g.fallTime < MAX_FALL_TIME }

  function Min(a: real, b: real): real { if a <= b then a else b }

  function Max(a: real, b: real): real { if a >= b then a else b }

  /** Ghost::merge: a fresh ghost half-way between the two, its size the
      sum of theirs capped at MAX_GHOST_SIZE. */
  function Merge(g1: Ghost, g2: Ghost): (r: Ghost)
    ensures Add3(r.position, r.position) == Add3(g1.position, g2.position)
    ensures DistSq3(r.position, g1.position) == DistSq3(r.position, g2.position)
    ensures r.size <= MAX_GHOST_SIZE
    ensures g1.size + g2.size <= MAX_GHOST_SIZE ==> r.size == g1.size + g2.size
    ensures g1.size + g2.size > MAX_GHOST_SIZE ==> r.size == MAX_GHOST_SIZE
    ensures !r.isFalling && r.fallTime == 0.0 && IsAlive(r)
  {
    NewGhost(Scale3(Add3(g1.position, g2.position), 0.5), Min(g1.size + g2.size, MAX_GHOST_SIZE))
  }

  /** What one call of Ghost::update produces: the ghost afterwards and
      whether it raised the shared collision flag. */
  datatype StepResult = StepResult(next: Ghost, hitPlayer: bool)

  predicate OutOfWorld(p: Vec3)
  {
    p.x > WORLD_SIZE || p.x < -WORLD_SIZE || p.z > WORLD_SIZE || p.z < -WORLD_SIZE
  }

  /** Squared distance to the target with the height difference dropped. */
  function FlatDistSq(from: Vec3, to: Vec3): real { Sq(to.x - from.x) + Sq(to.z - from.z) }

  /** Ghost::update without its steering: `steer` is the displacement the
      steering computes (finalDirection * MOVEMENT_SPEED * deltaTime). */
  function Step(g: Ghost, dt: real, target: Vec3, steer: Vec3): (r: StepResult)
    ensures r.next.size == g.size
    ensures g.isFalling ==> r.next.isFalling && !r.hitPlayer
    ensures !g.isFalling && !OutOfWorld(g.position) ==> !r.next.isFalling && r.next.fallTime == g.fallTime
    ensures r.hitPlayer ==> FlatDistSq(g.position, target) < COLLISION_RADIUS * COLLISION_RADIUS
  {
    if g.isFalling then
      StepResult(g.(fallTime := g.fallTime + dt, position := g.position.(y := g.position.y - FALL_SPEED * dt)), false)
    else if OutOfWorld(g.position) then
      StepResult(g.(isFalling := true, fallTime := 0.0), false)
    else if FlatDistSq(g.position, target) > PURSUIT_EPSILON * PURSUIT_EPSILON then
      StepResult(g.(position := Add3(g.position, steer)),
                 FlatDistSq(g.position, target) < COLLISION_RADIUS * COLLISION_RADIUS)
    else
      StepResult(g, false)
  }

  /** A falling ghost only sinks and ages; it never raises the flag. */
  lemma FallingGhostOnlySinks(g: Ghost, dt: real, target: Vec3, steer: Vec3)
    requires g.isFalling
    ensures var r := Step(g, dt, target, steer);
      && r.next.isFalling && r.next.fallTime == g.fallTime + dt && r.next.size == g.size
      && r.next.position == Vec3(g.position.x, g.position.y - FALL_SPEED * dt, g.position.z)
      && !r.hitPlayer
  {
  }

  /** Leaving the world starts the fall and does not move the ghost that tick. */
  lemma LeavingWorldStartsFall(g: Ghost, dt: real, target: Vec3, steer: Vec3)
    requires !g.isFalling && OutOfWorld(g.position)
    ensures var r := Step(g, dt, target, steer);
      r.next == g.(isFalling := true, fallTime := 0.0) && !r.hitPlayer
  {
  }

  /** The flag is raised exactly when a walking ghost, before it moves, is
      strictly between 0.1 and 2.0 away from the target on the ground plane. */
  lemma HitWindow(g: Ghost, dt: real, target: Vec3, steer: Vec3)
    ensures Step(g, dt, target, steer).hitPlayer
        <==> !g.isFalling && !OutOfWorld(g.position)
             && PURSUIT_EPSILON * PURSUIT_EPSILON < FlatDistSq(g.position, target) < COLLISION_RADIUS * COLLISION_RADIUS
  {
  }

  /** A ghost after n updates with the same inputs. */
  function StepFor(g: Ghost, dt: real, target: Vec3, steer: Vec3, n: nat): Ghost
  {
    if n == 0 then g else Step(StepFor(g, dt, target, steer, n - 1), dt, target, steer).next
  }

  /** Once falling, a ghost keeps falling and its fall time grows by dt per update. */
  lemma {:induction false} FallTimeAccumulates(g: Ghost, dt: real, target: Vec3, steer: Vec3, n: nat)
    requires g.isFalling
    ensures StepFor(g, dt, target, steer, n).isFalling
    ensures StepFor(g, dt, target, steer, n).fallTime == g.fallTime + (n as real) * dt
  {
    if n > 0 {
      FallTimeAccumulates(g, dt, target, steer, n - 1);
    }
  }

  /** A falling ghost is dead as soon as its accumulated fall time reaches MAX_FALL_TIME. */
  lemma FallingGhostDies(g: Ghost, dt: real, target: Vec3, steer: Vec3, n: nat)
    requires g.isFalling && g.fallTime + (n as real) * dt >= MAX_FALL_TIME
    ensures !IsAlive(StepFor(g, dt, target, steer, n))
  {
    FallTimeAccumulates(g, dt, target, steer, n);
  }

  // ---------------------------------------------------------------------
  // The manager's view of its list

  /** Every ghost after one round of Ghost::update calls. */
  function StepAll(gs: seq<Ghost>, dt: real, target: Vec3, steer: seq<Vec3>): (r: seq<Ghost>)
    requires |steer| == |gs|
    ensures |r| == |gs|
    ensures forall k :: 0 <= k < |gs| ==> r[k].size == gs[k].size && (gs[k].isFalling ==> r[k].isFalling)
  {
    seq(|gs|, k requires 0 <= k < |gs| => Step(gs[k], dt, target, steer[k]).next)
  }

  predicate AnyHit(gs: seq<Ghost>, dt: real, target: Vec3, steer: seq<Vec3>)
    requires |steer| == |gs|
  {
    exists k :: 0 <= k < |gs| && Step(gs[k], dt, target, steer[k]).hitPlayer
  }

  function Positions(gs: seq<Ghost>): seq<Vec3>
  {
    seq(|gs|, k requires 0 <= k < |gs| => gs[k].position)
  }

  /** The ghosts update keeps after its remove_if. */
  function Survivors(gs: seq<Ghost>): (r: seq<Ghost>)
    ensures |r| <= |gs|
    ensures forall k :: 0 <= k < |r| ==> IsAlive(r[k])
  {
    Filter(gs, IsAlive)
  }

  /** The survivors are exactly the living ghosts, in their original order. */
  lemma SurvivorsExactly(a: seq<Ghost>, b: seq<Ghost>, g: Ghost)
    ensures g in Survivors(a) <==> g in a && IsAlive(g)
    ensures Survivors(a + b) == Survivors(a) + Survivors(b)
  {
    FilterMembership(a, IsAlive, g);
    FilterConcat(a, b, IsAlive);
  }

  predicate SizesOk(gs: seq<Ghost>)
  {
    forall g :: g in gs ==> SPAWNED_SIZE <= g.size <= MAX_GHOST_SIZE
  }

  /** Stepping never changes a size, so the bounds survive an update round. */
  lemma StepAllKeepsSizes(gs: seq<Ghost>, dt: real, target: Vec3, steer: seq<Vec3>)
    requires |steer| == |gs| && SizesOk(gs)
    ensures SizesOk(StepAll(gs, dt, target, steer))
  {
    var r := StepAll(gs, dt, target, steer);
    forall g | g in r ensures SPAWNED_SIZE <= g.size <= MAX_GHOST_SIZE {
      var k :| 0 <= k < |r| && r[k] == g;
      assert gs[k] in gs;
    }
  }

  lemma SurvivorsKeepSizes(gs: seq<Ghost>)
    requires SizesOk(gs)
    ensures SizesOk(Survivors(gs))
  {
    forall g | g in Survivors(gs) ensures SPAWNED_SIZE <= g.size <= MAX_GHOST_SIZE {
      FilterMembership(gs, IsAlive, g);
    }
  }

  // ---------------------------------------------------------------------
  // checkGhostMerges

  /** Two ghosts closer than MERGE_DISTANCE times the sum of their sizes. */
  predicate Close(a: Ghost, b: Ghost)
  {
    Within3(a.position, b.position, MERGE_DISTANCE * (a.size + b.size))
  }

  predicate NoClosePair(gs: seq<Ghost>)
  {
    forall i, j :: 0 <= i < j < |gs| ==> !Close(gs[i], gs[j])
  }

  /** Pair (a, b) comes at or after (i, j) in the i-outer, j-inner scan. */
  predicate AtOrAfter(a: int, b: int, i: int, j: int) { a > i || (a == i && b >= j) }

  /** The first close pair of the scan that starts at (i, j). */
  function FindFrom(gs: seq<Ghost>, i: nat, j: nat): (r: Option<(nat, nat)>)
    requires i < j
    decreases |gs| - i, |gs| - j
    ensures r.Some? ==> r.value.0 < r.value.1 < |gs| && Close(gs[r.value.0], gs[r.value.1])
    ensures r.Some? ==> AtOrAfter(r.value.0, r.value.1, i, j)
  {
    if i >= |gs| then None
    else if j >= |gs| then FindFrom(gs, i + 1, i + 2)
    else if Close(gs[i], gs[j]) then Some((i, j))
    else FindFrom(gs, i, j + 1)
  }

  /** The scan finds the FIRST close pair at or after its start, and finds
      nothing only when no such pair is close. */
  lemma {:induction false} FindFromIsFirst(gs: seq<Ghost>, i: nat, j: nat)
    requires i < j
    decreases |gs| - i, |gs| - j
    ensures var r := FindFrom(gs, i, j);
      r.Some? ==> forall a, b :: (0 <= a < b < |gs| && AtOrAfter(a, b, i, j)
                                  && !AtOrAfter(a, b, r.value.0, r.value.1)) ==> !Close(gs[a], gs[b])
    ensures FindFrom(gs, i, j).None? ==>
      forall a, b :: 0 <= a < b < |gs| && AtOrAfter(a, b, i, j) ==> !Close(gs[a], gs[b])
  {
    if i >= |gs| {
    } else if j >= |gs| {
      FindFromIsFirst(gs, i + 1, i + 2);
    } else if Close(gs[i], gs[j]) {
    } else {
      FindFromIsFirst(gs, i, j + 1);
    }
  }

  function FirstClosePair(gs: seq<Ghost>): Option<(nat, nat)> { FindFrom(gs, 0, 1) }

  /** One merge: erase j, erase i, append the merged ghost. */
  function MergeAt(gs: seq<Ghost>, i: nat, j: nat): (r: seq<Ghost>)
    requires i < j < |gs|
    ensures |r| == |gs| - 1
    ensures r[|r| - 1] == Merge(gs[i], gs[j])
    ensures forall k :: 0 <= k < |r| - 1 ==> r[k] == gs[if k < i then k else if k < j - 1 then k + 1 else k + 2]
    ensures forall g :: g in r ==> g in gs || g == Merge(gs[i], gs[j])
  {
    var withoutJ := gs[..j] + gs[j + 1..];
    var withoutBoth := withoutJ[..i] + withoutJ[i + 1..];
    withoutBoth + [Merge(gs[i], gs[j])]
  }

  /** The do-while of checkGhostMerges: merge the first close pair until none is left. */
  function Merges(gs: seq<Ghost>): (r: seq<Ghost>)
    decreases |gs|
    ensures |r| <= |gs|
    ensures NoClosePair(r)
  {
    match FirstClosePair(gs)
    case None => FindFromIsFirst(gs, 0, 1); gs
    case Some(p) => Merges(MergeAt(gs, p.0, p.1))
  }

  /** Merging keeps every size within [SPAWNED_SIZE, MAX_GHOST_SIZE]. */
  lemma {:induction false} MergesKeepSizes(gs: seq<Ghost>)
    requires SizesOk(gs)
    ensures SizesOk(Merges(gs))
    decreases |gs|
  {
    match FirstClosePair(gs)
    case None =>
    case Some(p) =>
      var next := MergeAt(gs, p.0, p.1);
      assert gs[p.0] in gs && gs[p.1] in gs;
      MergesKeepSizes(next);
  }

  // ---------------------------------------------------------------------
  // GhostManager

  const INITIAL_SPAWN_INTERVAL: real := 3.0
  const INITIAL_DENSITY: real := 0.3
  const INITIAL_MAX_GHOSTS: int := 30
  const DEFAULT_SPAWN_RADIUS: real := 40.0
  const DIFFICULTY_SCALE_RATE: real := 0.1
  const MIN_SPAWN_INTERVAL: real := 0.5
  const MAX_DENSITY: real := 0.9
  const ABSOLUTE_MAX_GHOSTS: int := 200

  function Difficulty(t: real): real { 1.0 + t * DIFFICULTY_SCALE_RATE }

  function SpawnIntervalAt(t: real): (r: real)
    requires t >= 0.0
    ensures MIN_SPAWN_INTERVAL <= r <= INITIAL_SPAWN_INTERVAL
  {
    var d := Difficulty(t);
    assert INITIAL_SPAWN_INTERVAL / d <= INITIAL_SPAWN_INTERVAL by {
      assert INITIAL_SPAWN_INTERVAL / d * d == INITIAL_SPAWN_INTERVAL;
    }
    Max(MIN_SPAWN_INTERVAL, INITIAL_SPAWN_INTERVAL / d)
  }

  function DensityAt(t: real): (r: real)
    ensures r <= MAX_DENSITY
    ensures t >= 0.0 ==> INITIAL_DENSITY <= r
  {
    Min(MAX_DENSITY, INITIAL_DENSITY * Difficulty(t))
  }

  /** std::min with the size_t cast, which truncates the positive product. */
  function MaxGhostsAt(t: real): (r: int)
    requires t >= 0.0
    ensures INITIAL_MAX_GHOSTS <= r <= ABSOLUTE_MAX_GHOSTS
  {
    assert (INITIAL_MAX_GHOSTS as real) <= (INITIAL_MAX_GHOSTS as real) * Difficulty(t);
    var scaled := ((INITIAL_MAX_GHOSTS as real) * Difficulty(t)).Floor;
    if scaled <= ABSOLUTE_MAX_GHOSTS then scaled else ABSOLUTE_MAX_GHOSTS
  }

  /** The schedule only makes the game harder as time passes, and always
      within the clamps. */
  lemma DifficultySchedule(t1: real, t2: real)
    requires 0.0 <= t1 <= t2
    ensures MIN_SPAWN_INTERVAL <= SpawnIntervalAt(t2) <= SpawnIntervalAt(t1) <= INITIAL_SPAWN_INTERVAL
    ensures INITIAL_DENSITY <= DensityAt(t1) <= DensityAt(t2) <= MAX_DENSITY
    ensures INITIAL_MAX_GHOSTS <= MaxGhostsAt(t1) <= MaxGhostsAt(t2) <= ABSOLUTE_MAX_GHOSTS
  {
    var d1, d2 := Difficulty(t1), Difficulty(t2);
    assert 1.0 <= d1 <= d2;
    assert INITIAL_SPAWN_INTERVAL / d2 <= INITIAL_SPAWN_INTERVAL / d1 <= INITIAL_SPAWN_INTERVAL by {
      assert INITIAL_SPAWN_INTERVAL / d2 * d2 == INITIAL_SPAWN_INTERVAL;
      assert INITIAL_SPAWN_INTERVAL / d1 * d1 == INITIAL_SPAWN_INTERVAL;
    }
    assert 30.0 <= (INITIAL_MAX_GHOSTS as real) * d1 <= (INITIAL_MAX_GHOSTS as real) * d2;
  }

  /** What the two cos/sin draws of update can produce: a point on the
      spawn circle around the player. */
  predicate IsSpawnOffset(offset: Vec3, radius: real)
  {
    offset.y == 0.0 && Sq(offset.x) + Sq(offset.z) == Sq(radius)
  }

  class GhostManager {
    var ghosts: seq<Ghost>
    /** The static _allGhostPositions. */
    var allGhostPositions: seq<Vec3>
    /** The static _hasCollided flag. */
    var hasCollided: bool
    var spawnTimer: real
    var timeSinceStart: real
    var maxGhosts: int
    var spawnRadius: real
    var spawnInterval: real
    var ghostDensity: real

    ghost predicate Valid()
      reads this
    {
      timeSinceStart >= 0.0 && SizesOk(ghosts)
    }

    /** The state reset leaves behind. */
    ghost predicate IsReset()
      reads this
    {
      && ghosts == [] && allGhostPositions == [] && !hasCollided
      && spawnTimer == 0.0 && timeSinceStart == 0.0
      && spawnInterval == INITIAL_SPAWN_INTERVAL && ghostDensity == INITIAL_DENSITY
      && maxGhosts == INITIAL_MAX_GHOSTS
    }

    constructor ()
      ensures Valid() && IsReset() && spawnRadius == DEFAULT_SPAWN_RADIUS
    {
      ghosts := [];
      allGhostPositions := [];
      hasCollided := false;
      spawnTimer := 0.0;
      timeSinceStart := 0.0;
      maxGhosts := INITIAL_MAX_GHOSTS;
      spawnRadius := DEFAULT_SPAWN_RADIUS;
      spawnInterval := INITIAL_SPAWN_INTERVAL;
      ghostDensity := INITIAL_DENSITY;
    }

    /** reset: no ghosts, no flag, clocks at zero, spawn parameters back to
        their initial values. */
    method Reset()
      modifies this
      ensures IsReset() && Valid() && spawnRadius == old(spawnRadius)
    {
      ghosts := [];
      allGhostPositions := [];
      hasCollided := false;
      spawnTimer := 0.0;
      timeSinceStart := 0.0;
      spawnInterval := INITIAL_SPAWN_INTERVAL;
      ghostDensity := INITIAL_DENSITY;
      maxGhosts := INITIAL_MAX_GHOSTS;
    }

    /** spawnGhost: appends a size-1 ghost unless the cap is reached. */
    method SpawnGhost(position: Vec3)
      modifies this`ghosts
      ensures |old(ghosts)| < maxGhosts ==> ghosts == old(ghosts) + [NewGhost(position, SPAWNED_SIZE)]
      ensures |old(ghosts)| >= maxGhosts ==> ghosts == old(ghosts)
    {
      if |ghosts| < maxGhosts {
        ghosts := ghosts + [NewGhost(position, SPAWNED_SIZE)];
      }
    }

    /** The first loop of update: step every ghost in place and record its
        new position. */
    method StepGhosts(dt: real, target: Vec3, steer: seq<Vec3>)
      requires |steer| == |ghosts|
      modifies this`ghosts, this`allGhostPositions, this`hasCollided
      ensures ghosts == StepAll(old(ghosts), dt, target, steer)
      ensures allGhostPositions == Positions(ghosts)
      ensures hasCollided == (old(hasCollided) || AnyHit(old(ghosts), dt, target, steer))
    {
      allGhostPositions := [];
      var i := 0;
      while i < |ghosts|
        invariant 0 <= i <= |ghosts| == |old(ghosts)|
        invariant forall k :: 0 <= k < i ==> ghosts[k] == Step(old(ghosts)[k], dt, target, steer[k]).next
        invariant forall k :: i <= k < |ghosts| ==> ghosts[k] == old(ghosts)[k]
        invariant allGhostPositions == Positions(ghosts[..i])
        invariant hasCollided == (old(hasCollided) || exists k :: 0 <= k < i && Step(old(ghosts)[k], dt, target, steer[k]).hitPlayer)
      {
        var r := Step(ghosts[i], dt, target, steer[i]);
        ghosts := ghosts[i := r.next];
        allGhostPositions := allGhostPositions + [r.next.position];
        if r.hitPlayer {
          hasCollided := true;
        }
        i := i + 1;
      }
      assert ghosts[..i] == ghosts;
    }

    /** The remove_if of update: drop the ghosts that are no longer alive. */
    method RemoveDeadGhosts()
      modifies this`ghosts
      ensures ghosts == Survivors(old(ghosts))
    {
      var kept: seq<Ghost> := [];
      var i := 0;
      while i < |ghosts|
        invariant ghosts == old(ghosts)
        invariant 0 <= i <= |ghosts|
        invariant kept == Filter(ghosts[..i], IsAlive)
      {
        FilterSnoc(ghosts, i, IsAlive);
        if IsAlive(ghosts[i]) {
          kept := kept + [ghosts[i]];
        }
        i := i + 1;
      }
      assert ghosts[..i] == ghosts;
      ghosts := kept;
    }

    /** The body of the merge branch: erase j, erase i, push the merged ghost. */
    method MergePair(i: nat, j: nat)
      requires i < j < |ghosts|
      modifies this`ghosts
      ensures ghosts == MergeAt(old(ghosts), i, j)
    {
      var m := Merge(ghosts[i], ghosts[j]);
      ghosts := ghosts[..j] + ghosts[j + 1..];
      ghosts := ghosts[..i] + ghosts[i + 1..];
      ghosts := ghosts + [m];
    }

    /** checkGhostMerges: repeat passes that merge the first close pair
        found, until a pass finds none. */
    method CheckGhostMerges()
      modifies this`ghosts
      ensures ghosts == Merges(old(ghosts))
      ensures NoClosePair(ghosts)
    {
      var merged := true;
      while merged
        invariant Merges(ghosts) == Merges(old(ghosts))
        invariant !merged ==> FirstClosePair(ghosts).None?
        decreases |ghosts| + (if merged then 1 else 0)
      {
        merged := false;
        ghost var gs := ghosts;
        var i := 0;
        while i < |ghosts|
          invariant ghosts == gs && !merged
          invariant 0 <= i <= |gs|
          invariant FirstClosePair(gs) == FindFrom(gs, i, i + 1)
        {
          var j := i + 1;
          while j < |ghosts|
            invariant ghosts == gs && !merged
            invariant i + 1 <= j <= |gs|
            invariant FirstClosePair(gs) == FindFrom(gs, i, j)
          {
            if Close(ghosts[i], ghosts[j]) {
              MergePair(i, j);
              merged := true;
              break;
            }
            j := j + 1;
          }
          if merged {
            break;
          }
          i := i + 1;
        }
      }
    }

    /** The difficulty part of update: advance the clock and recompute the
        spawn interval, density and cap from it. */
    method UpdateDifficulty(dt: real)
      requires timeSinceStart >= 0.0 && dt >= 0.0
      modifies this`timeSinceStart, this`spawnInterval, this`ghostDensity, this`maxGhosts
      ensures timeSinceStart == old(timeSinceStart) + dt
      ensures spawnInterval == SpawnIntervalAt(timeSinceStart)
      ensures ghostDensity == DensityAt(timeSinceStart)
      ensures maxGhosts == MaxGhostsAt(timeSinceStart)
      ensures MIN_SPAWN_INTERVAL <= spawnInterval && ghostDensity <= MAX_DENSITY && maxGhosts <= ABSOLUTE_MAX_GHOSTS
    {
      timeSinceStart := timeSinceStart + dt;
      spawnInterval := SpawnIntervalAt(timeSinceStart);
      ghostDensity := DensityAt(timeSinceStart);
      maxGhosts := MaxGhostsAt(timeSinceStart);
      DifficultySchedule(timeSinceStart, timeSinceStart);
    }

    /** The spawn part of update: when the timer is due and the cap not
        reached, restart the timer and, if the density draw succeeds, spawn
        a ghost at `at`. */
    method SpawnTick(dt: real, roll: real, at: Vec3)
      modifies this`spawnTimer, this`ghosts
      ensures var due := old(spawnTimer) + dt >= spawnInterval && |old(ghosts)| < maxGhosts;
              && spawnTimer == (if due then 0.0 else old(spawnTimer) + dt)
              && ghosts == (if due && roll < ghostDensity then old(ghosts) + [NewGhost(at, SPAWNED_SIZE)] else old(ghosts))
    {
      spawnTimer := spawnTimer + dt;
      if spawnTimer >= spawnInterval && |ghosts| < maxGhosts {
        spawnTimer := 0.0;
        if roll < ghostDensity {
          SpawnGhost(at);
        }
      }
    }

    /** The tail of update after the ghosts have moved: drop the dead,
        maybe spawn, then merge. */
    method Refresh(dt: real, roll: real, at: Vec3)
      requires SizesOk(ghosts)
      modifies this`ghosts, this`spawnTimer
      ensures var survivors := Survivors(old(ghosts));
              var due := old(spawnTimer) + dt >= spawnInterval && |survivors| < maxGhosts;
              && spawnTimer == (if due then 0.0 else old(spawnTimer) + dt)
              && ghosts == Merges(if due && roll < ghostDensity then survivors + [NewGhost(at, SPAWNED_SIZE)] else survivors)
      ensures SizesOk(ghosts) && NoClosePair(ghosts)
      ensures |ghosts| <= |old(ghosts)| || |ghosts| <= maxGhosts
    {
      RemoveDeadGhosts();
      SurvivorsKeepSizes(old(ghosts));
      SpawnTick(dt, roll, at);
      ghost var spawned := ghosts;
      CheckGhostMerges();
      MergesKeepSizes(spawned);
    }

    /** GhostManager::update without the steering: `steer` holds each
        ghost's displacement, `roll` the density draw and `spawnOffset` the
        point the angle draw picks on the spawn circle. */
    method Update(dt: real, playerPos: Vec3, steer: seq<Vec3>, roll: real, spawnOffset: Vec3)
      requires Valid()
      requires dt >= 0.0 && |steer| == |ghosts|
      requires 0.0 <= roll <= 1.0 && IsSpawnOffset(spawnOffset, spawnRadius)
      modifies this
      ensures Valid()
      ensures timeSinceStart == old(timeSinceStart) + dt
      ensures spawnInterval == SpawnIntervalAt(timeSinceStart)
      ensures ghostDensity == DensityAt(timeSinceStart)
      ensures maxGhosts == MaxGhostsAt(timeSinceStart)
      ensures MIN_SPAWN_INTERVAL <= spawnInterval && ghostDensity <= MAX_DENSITY && maxGhosts <= ABSOLUTE_MAX_GHOSTS
      ensures allGhostPositions == Positions(StepAll(old(ghosts), dt, playerPos, steer))
      ensures hasCollided == (old(hasCollided) || AnyHit(old(ghosts), dt, playerPos, steer))
      ensures spawnRadius == old(spawnRadius)
      ensures var survivors := Survivors(StepAll(old(ghosts), dt, playerPos, steer));
              var due := old(spawnTimer) + dt >= spawnInterval && |survivors| < maxGhosts;
              && spawnTimer == (if due then 0.0 else old(spawnTimer) + dt)
              && ghosts == Merges(if due && roll < ghostDensity
                                  then survivors + [NewGhost(Add3(playerPos, spawnOffset), SPAWNED_SIZE)]
                                  else survivors)
      ensures |ghosts| <= |old(ghosts)| || |ghosts| <= maxGhosts
      ensures NoClosePair(ghosts)
    {
      UpdateDifficulty(dt);
      StepGhosts(dt, playerPos, steer);
      ghost var stepped := ghosts;
      assert stepped == StepAll(old(ghosts), dt, playerPos, steer);
      StepAllKeepsSizes(old(ghosts), dt, playerPos, steer);
      Refresh(dt, roll, Add3(playerPos, spawnOffset));
      assert allGhostPositions == Positions(stepped);
    }
  }
}
