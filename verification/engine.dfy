/** FPEngine (FPEngine.cpp): the player's plane, its movement rules with
    the axis-locked wall slide, point pickup, the explosion sequence and
    the world loading that feeds the collision registry. */
module Engine {
  import opened Wrappers
  import opened Geometry
  import opened Seqs
  import opened Collision
  import opened Particles
  import opened Ghosts
  import opened Csv
  import opened World

  /** _playerRadius. */
  const PLAYER_RADIUS: real := 0.5
  /** A point is collected when the player comes closer than this. */
  const PICKUP_RADIUS: real := 0.5
  /** Heading change per tick while A or D is held. */
  const TURN_RATE: real := 0.03
  const PLAYER_FALL_SPEED: real := 15.0
  const PLAYER_MAX_FALL_TIME: real := 3.0
  /** WORLD_SIZE_X and WORLD_SIZE_Y before a world is loaded. */
  const DEFAULT_WORLD_SIZE: nat := 20
  /** _spawnPosition: the plane's position and height after a reset. */
  const SPAWN_POSITION: Vec3 := Vec3(0.0, 0.5, 0.0)

  /** _lastDir: 0 no slide axis, 1 sliding along x, 2 sliding along z. */
  datatype Axis = Free | AlongX | AlongZ

  /** The three fields the movement code reads and writes. */
  datatype Motion = Motion(pos: Vec2, lastValid: Vec2, lastDir: Axis)

  /** The state of W, S, A and D during one tick. */
  datatype Keys = Keys(w: bool, s: bool, a: bool, d: bool)

  /** _checkCollisions against a given registry. */
  predicate Blocked(p: Vec2, objects: seq<CollisionObject>)
    ensures !Blocked(p, objects) ==> forall o :: o in objects ==> !Overlaps(p, o, PLAYER_RADIUS)
    ensures Blocked(p, objects) ==> |objects| > 0
  {
    Collides(p, objects, PLAYER_RADIUS)
  }

  // ---------------------------------------------------------------------
  // Keeping the plane inside the world

  /** The four clamps of _updateScene: upper bound first, then zero. */
  function Clamp(p: Vec2, sizeX: nat, sizeY: nat): (r: Vec2)
    ensures 0.0 <= r.x <= 3.0 * sizeX as real && 0.0 <= r.y <= 3.0 * sizeY as real
    ensures 0.0 <= p.x <= 3.0 * sizeX as real ==> r.x == p.x
    ensures 0.0 <= p.y <= 3.0 * sizeY as real ==> r.y == p.y
    ensures p.x > 3.0 * sizeX as real ==> r.x == 3.0 * sizeX as real
    ensures p.y > 3.0 * sizeY as real ==> r.y == 3.0 * sizeY as real
    ensures p.x < 0.0 ==> r.x == 0.0
    ensures p.y < 0.0 ==> r.y == 0.0
  {
    var x := if p.x > 3.0 * sizeX as real then 3.0 * sizeX as real else p.x;
    var y := if p.y > 3.0 * sizeY as real then 3.0 * sizeY as real else p.y;
    Vec2(if x < 0.0 then 0.0 else x, if y < 0.0 then 0.0 else y)
  }

  /** Clamping twice is clamping once. */
  lemma ClampIdempotent(p: Vec2, sizeX: nat, sizeY: nat)
    ensures Clamp(Clamp(p, sizeX, sizeY), sizeX, sizeY) == Clamp(p, sizeX, sizeY)
  {
  }

  // ---------------------------------------------------------------------
  // Moving forward (W) and backward (S)

  /** The W branch.  `hit` is the object getCollidedObject reports for the
      blocked position; the slide flags compare the last valid position
      with that object's extent on each axis. */
  function Forward(m: Motion, step: Vec2, hit: CollisionObject, objects: seq<CollisionObject>): (r: Motion)
    ensures r.pos == r.lastValid
  {
    var newPos := Add2(m.pos, step);
    if !Blocked(newPos, objects) then Motion(newPos, newPos, Free)
    else
      var slideZ := m.lastValid.x > hit.position.x + hit.radius || m.lastValid.x < hit.position.x - hit.radius;
      var slideX := m.lastValid.y > hit.position.z + hit.radius || m.lastValid.y < hit.position.z - hit.radius;
      var afterX := if slideX && (m.lastDir == Free || m.lastDir == AlongX)
                    then Motion(m.pos.(x := m.pos.x + step.x), m.lastValid, AlongX) else m;
      var afterZ := if slideZ && (afterX.lastDir == Free || afterX.lastDir == AlongZ)
                    then Motion(afterX.pos.(y := afterX.pos.y + step.y), m.lastValid, AlongZ) else afterX;
      if Blocked(afterZ.pos, objects) then Motion(m.lastValid, m.lastValid, Free)
      else Motion(afterZ.pos, afterZ.pos, afterZ.lastDir)
  }

  /** The S branch: step back if that is free, else return to the last
      valid position; the slide axis is left alone. */
  function Backward(m: Motion, step: Vec2, objects: seq<CollisionObject>): (r: Motion)
    ensures r.pos == r.lastValid && r.lastDir == m.lastDir
  {
    var newPos := Sub2(m.pos, step);
    if !Blocked(newPos, objects) then Motion(newPos, newPos, m.lastDir)
    else m.(pos := m.lastValid)
  }

  /** Every way a forward step can end: the full step, a slide along one
      axis, staying put, or a revert to the last valid position; each
      except the revert lands on a free spot. */
  lemma ForwardOutcomes(m: Motion, step: Vec2, hit: CollisionObject, objects: seq<CollisionObject>)
    ensures var r := Forward(m, step, hit, objects);
      || (r.pos == Add2(m.pos, step) && r.lastDir == Free && !Blocked(r.pos, objects))
      || (r.pos == m.pos.(x := m.pos.x + step.x) && r.lastDir == AlongX && !Blocked(r.pos, objects))
      || (r.pos == m.pos.(y := m.pos.y + step.y) && r.lastDir == AlongZ && !Blocked(r.pos, objects))
      || (r.pos == m.pos && r.lastDir == m.lastDir && !Blocked(r.pos, objects))
      || (r.pos == m.lastValid && r.lastDir == Free)
  {
  }

  /** A free step is always taken in full and releases the slide axis. */
  lemma ForwardFree(m: Motion, step: Vec2, hit: CollisionObject, objects: seq<CollisionObject>)
    requires !Blocked(Add2(m.pos, step), objects)
    ensures Forward(m, step, hit, objects) == Motion(Add2(m.pos, step), Add2(m.pos, step), Free)
  {
  }

  /** While sliding along x a blocked step never moves the plane along z,
      and while sliding along z it never moves it along x. */
  lemma ForwardAxisLock(m: Motion, step: Vec2, hit: CollisionObject, objects: seq<CollisionObject>)
    requires Blocked(Add2(m.pos, step), objects)
    ensures var r := Forward(m, step, hit, objects);
      && (m.lastDir == AlongX ==> r.pos == m.lastValid || (r.pos.y == m.pos.y && r.lastDir == AlongX))
      && (m.lastDir == AlongZ ==> r.pos == m.lastValid || (r.pos.x == m.pos.x && r.lastDir == AlongZ))
  {
  }

  /** A blocked step slides along at most one axis. */
  lemma ForwardSlidesOneAxis(m: Motion, step: Vec2, hit: CollisionObject, objects: seq<CollisionObject>)
    requires Blocked(Add2(m.pos, step), objects)
    ensures var r := Forward(m, step, hit, objects);
      r.pos == m.lastValid || r.pos.x == m.pos.x || r.pos.y == m.pos.y
  {
  }

  /** The last valid position stays collision-free under both moves. */
  lemma LastValidStaysFree(m: Motion, step: Vec2, hit: CollisionObject, objects: seq<CollisionObject>)
    requires !Blocked(m.lastValid, objects)
    ensures !Blocked(Forward(m, step, hit, objects).lastValid, objects)
    ensures !Blocked(Backward(m, step, objects).lastValid, objects)
  {
  }

  /** Stepping back either takes the full step to a free spot or returns
      to the last valid position. */
  lemma BackwardOutcomes(m: Motion, step: Vec2, objects: seq<CollisionObject>)
    ensures var r := Backward(m, step, objects);
      (r.pos == Sub2(m.pos, step) && !Blocked(r.pos, objects)) || r == m.(pos := m.lastValid)
    ensures !Blocked(Sub2(m.pos, step), objects) ==> Backward(m, step, objects).pos == Sub2(m.pos, step)
  {
  }

  // ---------------------------------------------------------------------
  // Collecting points

  predicate Collected(q: Point, p: Vec2) { Within2(q.position, p, PICKUP_RADIUS) }

  function KeepFrom(p: Vec2): Point -> bool { q => !Collected(q, p) }

  /** The points left after the player stands at p: the mark loop flags
      every point closer than PICKUP_RADIUS and remove_if drops them. */
  function Uncollected(points: seq<Point>, p: Vec2): (r: seq<Point>)
    ensures |r| <= |points|
    ensures forall k :: 0 <= k < |r| ==> !Collected(r[k], p)
  {
    Filter(points, KeepFrom(p))
  }

  predicate NoneMarked(points: seq<Point>)
  {
    forall k :: 0 <= k < |points| ==> !points[k].toBeDeleted
  }

  /** Exactly the points out of reach remain, and each of them is out of reach. */
  lemma UncollectedExactly(points: seq<Point>, p: Vec2, q: Point)
    ensures q in Uncollected(points, p) <==> q in points && !Collected(q, p)
    ensures forall k :: 0 <= k < |Uncollected(points, p)| ==> !Collected(Uncollected(points, p)[k], p)
  {
    FilterMembership(points, KeepFrom(p), q);
  }

  /** Removing points keeps their relative order: collecting from two
      stretches of the list is collecting from each. */
  lemma UncollectedKeepsOrder(a: seq<Point>, b: seq<Point>, p: Vec2)
    ensures Uncollected(a + b, p) == Uncollected(a, p) + Uncollected(b, p)
  {
    FilterConcat(a, b, KeepFrom(p));
  }

  /** No point is left marked for deletion once the marked ones are erased. */
  lemma UncollectedUnmarked(points: seq<Point>, p: Vec2)
    requires NoneMarked(points)
    ensures NoneMarked(Uncollected(points, p))
  {
    var r := Uncollected(points, p);
    forall k | 0 <= k < |r| ensures !r[k].toBeDeleted {
      FilterMembership(points, KeepFrom(p), r[k]);
    }
  }

  // ---------------------------------------------------------------------
  // The engine

  class FPEngine {
    /** The static collision registry. */
    const detector: CollisionDetector
    const particles: ParticleSystem
    const ghostManager: GhostManager

    var pos: Vec2
    var lastValidPosition: Vec2
    var lastDir: Axis
    var direction: real
    var worldSizeX: nat
    var worldSizeY: nat
    var points: seq<Point>
    var isExploding: bool
    var isFalling: bool
    var fallTime: real
    var currentHeight: real

    ghost predicate Valid()
      reads this, ghostManager
    {
      NoneMarked(points) && ghostManager.Valid()
    }

    /** The state a reset restores: the plane back at the spawn point,
        heading zero, at spawn height. */
    ghost predicate Respawned()
      reads this
    {
      pos == Vec2(SPAWN_POSITION.x, SPAWN_POSITION.z) && direction == 0.0 && currentHeight == SPAWN_POSITION.y
    }

    /** The constructor together with the parts of setup that create the
        ghost manager and the particle system.  _lastValidPosition is never
        initialised there, so its first value is a parameter. */
    constructor (initialLastValid: Vec2)
      ensures Valid() && Respawned()
      ensures lastValidPosition == initialLastValid && lastDir == Free
      ensures worldSizeX == DEFAULT_WORLD_SIZE && worldSizeY == DEFAULT_WORLD_SIZE
      ensures points == [] && !isExploding && !isFalling && fallTime == 0.0
      ensures detector.objects == [] && ghostManager.IsReset()
    {
      detector := new CollisionDetector();
      particles := new ParticleSystem();
      ghostManager := new GhostManager();
      pos := Vec2(0.0, 0.0);
      lastValidPosition := initialLastValid;
      lastDir := Free;
      direction := 0.0;
      worldSizeX := DEFAULT_WORLD_SIZE;
      worldSizeY := DEFAULT_WORLD_SIZE;
      points := [];
      isExploding := false;
      isFalling := false;
      fallTime := 0.0;
      currentHeight := SPAWN_POSITION.y;
    }

    /** _generateEnvironment: empty the registry, read the world file and
        register a building or place a point for every cell.  A cell that
        std::stoi rejects ends the load with that error, the registry
        already emptied. */
    method GenerateEnvironment(file: Option<string>) returns (failure: Option<StoiError>)
      requires file.Some?
      requires ParseCsv(file.value).Ok? ==> ScanInBounds(ParseCsv(file.value).value)
      modifies this`worldSizeX, this`worldSizeY, this`points, detector
      ensures ParseCsv(file.value).Err? ==>
        && failure == Some(ParseCsv(file.value).error) && detector.objects == []
        && worldSizeX == old(worldSizeX) && worldSizeY == old(worldSizeY) && points == old(points)
      ensures ParseCsv(file.value).Ok? ==>
        var m := ParseCsv(file.value).value;
        && failure.None?
        && worldSizeX == Columns(m) && worldSizeY == |m|
        && detector.objects == Obstacles(m)
        && points == old(points) + Pickups(m)
    {
      detector.ClearCollisionObjects();
      var parsed := ReadCsv(file);
      if parsed.Err? {
        return Some(parsed.error);
      }
      var m := parsed.value;
      worldSizeX := |m[0]|;
      worldSizeY := |m|;
      PlaceWorld(m);
      return None;
    }

    /** The nested loops of _generateEnvironment. */
    method PlaceWorld(m: seq<seq<int>>)
      requires ScanInBounds(m)
      modifies this`points, detector
      ensures detector.objects == old(detector.objects) + Obstacles(m)
      ensures points == old(points) + Pickups(m)
    {
      for i := 0 to Columns(m)
        invariant detector.objects == old(detector.objects) + Walls(GridCells(m, i, |m|, WALL_CODE))
        invariant points == old(points) + PointsAt(GridCells(m, i, |m|, POINT_CODE))
      {
        PlaceRow(m, i);
        LayoutNextRowAfter(old(detector.objects), old(points), m, i);
      }
    }

    /** One pass of the inner loop of _generateEnvironment: row i of the
        matrix, cell by cell. */
    method PlaceRow(m: seq<seq<int>>, i: nat)
      requires ScanInBounds(m) && i < Columns(m)
      modifies this`points, detector
      ensures detector.objects == old(detector.objects) + Walls(RowCells(m, i, |m|, WALL_CODE))
      ensures points == old(points) + PointsAt(RowCells(m, i, |m|, POINT_CODE))
    {
      for j := 0 to |m|
        invariant detector.objects == old(detector.objects) + RowWalls(m, i, j)
        invariant points == old(points) + RowPoints(m, i, j)
      {
        if m[i][j] == WALL_CODE {
          detector.AddCollisionObject(Vec3(CELL_SPACING * i as real, 0.0, CELL_SPACING * j as real), WALL_RADIUS, false);
        } else if m[i][j] == POINT_CODE {
          points := points + [Point(Vec2(CELL_SPACING * i as real, CELL_SPACING * j as real), false)];
        }
      }
      RowWallsPlaced(m, i, |m|);
      RowPointsPlaced(m, i, |m|);
    }

    /** The four clamps at the start of the movement part of _updateScene. */
    method ClampPosition()
      modifies this`pos
      ensures pos == Clamp(old(pos), worldSizeX, worldSizeY)
    {
      if pos.x > 3.0 * worldSizeX as real {
        pos := pos.(x := 3.0 * worldSizeX as real);
      }
      if pos.y > 3.0 * worldSizeY as real {
        pos := pos.(y := 3.0 * worldSizeY as real);
      }
      if pos.x < 0.0 {
        pos := pos.(x := 0.0);
      }
      if pos.y < 0.0 {
        pos := pos.(y := 0.0);
      }
    }

    /** The movement part of the W branch, with _checkCollisions. */
    method MoveForward(step: Vec2, hit: CollisionObject)
      modifies this`pos, this`lastValidPosition, this`lastDir
      ensures Motion(pos, lastValidPosition, lastDir)
           == Forward(Motion(old(pos), old(lastValidPosition), old(lastDir)), step, hit, detector.objects)
    {
      var newPos := Add2(pos, step);
      var blocked := CheckCollision(newPos, detector.objects, PLAYER_RADIUS);
      if !blocked {
        pos := newPos;
        lastValidPosition := newPos;
        lastDir := Free;
      } else {
        var slideZ := lastValidPosition.x > hit.position.x + hit.radius || lastValidPosition.x < hit.position.x - hit.radius;
        var slideX := lastValidPosition.y > hit.position.z + hit.radius || lastValidPosition.y < hit.position.z - hit.radius;
        if slideX && (lastDir == Free || lastDir == AlongX) {
          pos := pos.(x := pos.x + step.x);
          lastDir := AlongX;
        }
        if slideZ && (lastDir == Free || lastDir == AlongZ) {
          pos := pos.(y := pos.y + step.y);
          lastDir := AlongZ;
        }
        var stillBlocked := CheckCollision(pos, detector.objects, PLAYER_RADIUS);
        if stillBlocked {
          pos := lastValidPosition;
          lastDir := Free;
        } else {
          lastValidPosition := pos;
        }
      }
    }

    /** The movement part of the S branch. */
    method MoveBackward(step: Vec2)
      modifies this`pos, this`lastValidPosition
      ensures Motion(pos, lastValidPosition, lastDir)
           == Backward(Motion(old(pos), old(lastValidPosition), lastDir), step, detector.objects)
    {
      var newPos := Sub2(pos, step);
      var blocked := CheckCollision(newPos, detector.objects, PLAYER_RADIUS);
      if !blocked {
        pos := newPos;
        lastValidPosition := newPos;
      } else {
        pos := lastValidPosition;
      }
    }

    /** The pickup part of the W branch: mark every point within reach,
        then erase the marked ones. */
    method CollectPoints()
      requires NoneMarked(points)
      modifies this`points
      ensures points == Uncollected(old(points), pos)
    {
      var i := 0;
      while i < |points|
        invariant 0 <= i <= |points| == |old(points)|
        invariant forall k :: 0 <= k < i ==> points[k] == old(points)[k].(toBeDeleted := Collected(old(points)[k], pos))
        invariant forall k :: i <= k < |points| ==> points[k] == old(points)[k]
      {
        if DistSq2(pos, points[i].position) < PICKUP_RADIUS * PICKUP_RADIUS {
          points := points[i := points[i].(toBeDeleted := true)];
        }
        i := i + 1;
      }
      var kept: seq<Point> := [];
      var j := 0;
      while j < |points|
        invariant 0 <= j <= |points| == |old(points)|
        invariant forall k :: 0 <= k < |points| ==> points[k] == old(points)[k].(toBeDeleted := Collected(old(points)[k], pos))
        invariant kept == Filter(old(points)[..j], KeepFrom(pos))
      {
        FilterSnoc(old(points), j, KeepFrom(pos));
        if !points[j].toBeDeleted {
          kept := kept + [points[j]];
        }
        j := j + 1;
      }
      assert old(points)[..j] == old(points);
      points := kept;
    }

    /** The first branch of _updateScene: a ghost reached the player. */
    method StartExplosion(burst: seq<Draw>)
      requires |burst| >= NUM_PARTICLES && forall k :: 0 <= k < |burst| ==> ValidDraw(burst[k])
      modifies this`isExploding, particles
      ensures isExploding && particles.IsAlive() && particles.timeSinceSpawn == 0.0
      ensures |particles.particles| == NUM_PARTICLES
      ensures forall k :: 0 <= k < NUM_PARTICLES ==>
        particles.particles[k] == Emit(Vec3(pos.x, currentHeight, pos.y), burst[k])
    {
      isExploding := true;
      particles.Spawn(Vec3(pos.x, currentHeight, pos.y), burst);
    }

    /** Put the plane back at the spawn point and restart the ghosts. */
    method Respawn()
      modifies this`pos, this`direction, this`currentHeight, ghostManager
      ensures Respawned() && ghostManager.IsReset() && ghostManager.Valid()
      ensures ghostManager.spawnRadius == old(ghostManager.spawnRadius)
    {
      pos := Vec2(SPAWN_POSITION.x, SPAWN_POSITION.z);
      direction := 0.0;
      currentHeight := SPAWN_POSITION.y;
      ghostManager.Reset();
    }

    /** The second branch: age the burst by one tick and respawn once it is over. */
    method RunExplosion()
      modifies this`isExploding, this`pos, this`direction, this`currentHeight, particles, ghostManager
      ensures particles.timeSinceSpawn == old(particles.timeSinceSpawn) + TICK
      ensures |particles.particles| == |old(particles.particles)|
      ensures forall k :: 0 <= k < |particles.particles| ==>
        particles.particles[k] == Advance(old(particles.particles)[k], TICK, particles.timeSinceSpawn)
      ensures forall k :: 0 <= k < |particles.particles| ==> particles.particles[k].life == Fade(particles.timeSinceSpawn)
      ensures particles.IsAlive() ==>
        (isExploding == old(isExploding) && pos == old(pos)
         && direction == old(direction) && currentHeight == old(currentHeight) && unchanged(ghostManager))
      ensures !particles.IsAlive() ==>
        && !isExploding && Respawned() && ghostManager.IsReset() && ghostManager.Valid()
        && ghostManager.spawnRadius == old(ghostManager.spawnRadius)
    {
      particles.Update(TICK);
      if !particles.IsAlive() {
        isExploding := false;
        Respawn();
      }
    }

    /** The third branch: sink, and respawn after PLAYER_MAX_FALL_TIME. */
    method Fall()
      modifies this`isFalling, this`fallTime, this`pos, this`direction, this`currentHeight, ghostManager
      ensures old(fallTime) + TICK < PLAYER_MAX_FALL_TIME ==>
        isFalling == old(isFalling) && fallTime == old(fallTime) + TICK
        && currentHeight == old(currentHeight) - PLAYER_FALL_SPEED * TICK
        && pos == old(pos) && direction == old(direction) && unchanged(ghostManager)
      ensures old(fallTime) + TICK >= PLAYER_MAX_FALL_TIME ==>
        && !isFalling && fallTime == 0.0 && Respawned() && ghostManager.IsReset() && ghostManager.Valid()
        && ghostManager.spawnRadius == old(ghostManager.spawnRadius)
    {
      currentHeight := currentHeight - PLAYER_FALL_SPEED * TICK;
      fallTime := fallTime + TICK;
      if fallTime >= PLAYER_MAX_FALL_TIME {
        isFalling := false;
        fallTime := 0.0;
        Respawn();
      }
    }

    /** The rest of _updateScene: clamp, W (move and pick up), S, A, D. */
    method Move(keys: Keys, step: Vec2, hit: CollisionObject)
      requires NoneMarked(points)
      modifies this`pos, this`lastValidPosition, this`lastDir, this`points, this`direction
      ensures var start := Motion(Clamp(old(pos), worldSizeX, worldSizeY), old(lastValidPosition), old(lastDir));
              var fwd := if keys.w then Forward(start, step, hit, detector.objects) else start;
              var back := if keys.s then Backward(fwd, step, detector.objects) else fwd;
              && Motion(pos, lastValidPosition, lastDir) == back
              && points == (if keys.w then Uncollected(old(points), fwd.pos) else old(points))
      ensures direction == old(direction) + (if keys.a then TURN_RATE else 0.0) - (if keys.d then TURN_RATE else 0.0)
      ensures NoneMarked(points)
    {
      ClampPosition();
      if keys.w {
        MoveForward(step, hit);
        CollectPoints();
        UncollectedUnmarked(old(points), pos);
      }
      if keys.s {
        MoveBackward(step);
      }
      if keys.a {
        direction := direction + TURN_RATE;
      }
      if keys.d {
        direction := direction - TURN_RATE;
      }
    }

    /** _updateScene for one tick.  The ghosts' own update is not called
        from here: that call is commented out in the source. */
    method UpdateScene(keys: Keys, step: Vec2, hit: CollisionObject, burst: seq<Draw>)
      requires Valid()
      requires |burst| >= NUM_PARTICLES && forall k :: 0 <= k < |burst| ==> ValidDraw(burst[k])
      modifies this, particles, ghostManager
      ensures Valid()
      ensures worldSizeX == old(worldSizeX) && worldSizeY == old(worldSizeY)
      ensures !old(isFalling) ==> !isFalling
      ensures old(ghostManager.hasCollided) && !old(isExploding) ==>
        && isExploding && particles.IsAlive() && particles.timeSinceSpawn == 0.0
        && |particles.particles| == NUM_PARTICLES
        && (forall k :: 0 <= k < NUM_PARTICLES ==>
              particles.particles[k] == Emit(Vec3(old(pos).x, old(currentHeight), old(pos).y), burst[k]))
        && pos == old(pos) && lastValidPosition == old(lastValidPosition) && lastDir == old(lastDir)
        && direction == old(direction) && currentHeight == old(currentHeight)
        && isFalling == old(isFalling) && fallTime == old(fallTime)
        && points == old(points) && unchanged(ghostManager)
      ensures old(isExploding) ==>
        && particles.timeSinceSpawn == old(particles.timeSinceSpawn) + TICK
        && |particles.particles| == |old(particles.particles)|
        && (forall k :: 0 <= k < |particles.particles| ==>
              particles.particles[k] == Advance(old(particles.particles)[k], TICK, particles.timeSinceSpawn))
        && points == old(points) && lastValidPosition == old(lastValidPosition) && lastDir == old(lastDir)
        && isFalling == old(isFalling) && fallTime == old(fallTime)
        && (particles.IsAlive() ==>
              && isExploding && pos == old(pos) && direction == old(direction)
              && currentHeight == old(currentHeight) && unchanged(ghostManager))
        && (!particles.IsAlive() ==>
              && !isExploding && Respawned() && ghostManager.IsReset()
              && ghostManager.spawnRadius == old(ghostManager.spawnRadius))
      ensures !old(ghostManager.hasCollided) && !old(isExploding) && old(isFalling) ==>
        && !isExploding && unchanged(particles)
        && points == old(points) && lastValidPosition == old(lastValidPosition) && lastDir == old(lastDir)
        && (old(fallTime) + TICK < PLAYER_MAX_FALL_TIME ==>
              && isFalling && fallTime == old(fallTime) + TICK
              && currentHeight == old(currentHeight) - PLAYER_FALL_SPEED * TICK
              && pos == old(pos) && direction == old(direction) && unchanged(ghostManager))
        && (old(fallTime) + TICK >= PLAYER_MAX_FALL_TIME ==>
              && !isFalling && fallTime == 0.0 && Respawned() && ghostManager.IsReset()
              && ghostManager.spawnRadius == old(ghostManager.spawnRadius))
      ensures !old(ghostManager.hasCollided) && !old(isExploding) && !old(isFalling) ==>
        var start := Motion(Clamp(old(pos), worldSizeX, worldSizeY), old(lastValidPosition), old(lastDir));
        var fwd := if keys.w then Forward(start, step, hit, detector.objects) else start;
        var back := if keys.s then Backward(fwd, step, detector.objects) else fwd;
        && Motion(pos, lastValidPosition, lastDir) == back
        && points == (if keys.w then Uncollected(old(points), fwd.pos) else old(points))
        && direction == old(direction) + (if keys.a then TURN_RATE else 0.0) - (if keys.d then TURN_RATE else 0.0)
        && currentHeight == old(currentHeight) && fallTime == old(fallTime)
        && !isExploding && unchanged(ghostManager) && unchanged(particles)
    {
      if ghostManager.hasCollided && !isExploding {
        StartExplosion(burst);
        return;
      }
      if isExploding {
        RunExplosion();
        return;
      }
      if isFalling {
        Fall();
        return;
      }
      Move(keys, step, hit);
    }
  }
}
