/** CollisionDetector.cpp: circular obstacles in the x/z plane and the
    overlap query against the player's disc. */
module Collision {
  import opened Geometry

  /** CollisionDetector.h: a centre, a radius and a tree/building tag. */
  datatype CollisionObject = CollisionObject(position: Vec3, radius: real, isTree: bool)

  /** The obstacle's centre projected on the ground plane (x, z). */
  function Footprint(obj: CollisionObject): Vec2 { Vec2(obj.position.x, obj.position.z) }

  /** The player's disc strictly overlaps the obstacle's disc. */
  predicate Overlaps(playerPos: Vec2, obj: CollisionObject, playerRadius: real)
  {
    Within2(Footprint(obj), playerPos, playerRadius + obj.radius)
  }

  /** Some obstacle of the list overlaps the player. */
  predicate Collides(playerPos: Vec2, objects: seq<CollisionObject>, playerRadius: real)
  {
    exists i :: 0 <= i < |objects| && Overlaps(playerPos, objects[i], playerRadius)
  }

  /** checkCollision: a scan with an early return on the first overlap. */
  method CheckCollision(playerPos: Vec2, objects: seq<CollisionObject>, playerRadius: real) returns (hit: bool)
    ensures hit <==> exists i :: 0 <= i < |objects| && Overlaps(playerPos, objects[i], playerRadius)
  {
    var i := 0;
    while i < |objects|
      invariant 0 <= i <= |objects|
      invariant forall k :: 0 <= k < i ==> !Overlaps(playerPos, objects[k], playerRadius)
    {
      var obj := objects[i];
      var d := DistSq2(Vec2(obj.position.x, obj.position.z), playerPos);
      var reach := playerRadius + obj.radius;
      if reach > 0.0 && d < reach * reach {
        return true;
      }
      i := i + 1;
    }
    return false;
  }

  /** The query looks neither at the obstacle's height nor at its tag. */
  lemma OverlapIgnoresHeightAndKind(playerPos: Vec2, obj: CollisionObject, playerRadius: real, y: real, isTree: bool)
    ensures Overlaps(playerPos, obj, playerRadius)
        <==> Overlaps(playerPos, obj.(position := obj.position.(y := y), isTree := isTree), playerRadius)
  {
  }

  /** An empty list never reports a collision. */
  lemma EmptyNeverCollides(playerPos: Vec2, playerRadius: real)
    ensures !Collides(playerPos, [], playerRadius)
  {
  }

  /** Adding obstacles, before or after, never removes a collision. */
  lemma CollisionMonotone(playerPos: Vec2, a: seq<CollisionObject>, b: seq<CollisionObject>, playerRadius: real)
    requires Collides(playerPos, a, playerRadius)
    ensures Collides(playerPos, a + b, playerRadius)
    ensures Collides(playerPos, b + a, playerRadius)
  {
    var i :| 0 <= i < |a| && Overlaps(playerPos, a[i], playerRadius);
    assert (a + b)[i] == a[i];
    assert (b + a)[|b| + i] == a[i];
  }

  /** The answer depends only on which obstacles are present, not on their order. */
  lemma CollisionIgnoresOrder(playerPos: Vec2, a: seq<CollisionObject>, b: seq<CollisionObject>, playerRadius: real)
    requires multiset(a) == multiset(b)
    ensures Collides(playerPos, a, playerRadius) <==> Collides(playerPos, b, playerRadius)
  {
    forall s: seq<CollisionObject>, t: seq<CollisionObject> | multiset(s) == multiset(t) && Collides(playerPos, s, playerRadius)
      ensures Collides(playerPos, t, playerRadius)
    {
      var i :| 0 <= i < |s| && Overlaps(playerPos, s[i], playerRadius);
      assert s[i] in multiset(s);
      assert s[i] in t;
      var j :| 0 <= j < |t| && t[j] == s[i];
    }
  }

  /** The static _collisionObjects vector, as the state of one object. */
  class CollisionDetector {
    var objects: seq<CollisionObject>

    constructor ()
      ensures objects == []
    {
      objects := [];
    }

    /** addCollisionObject: grows the list by one at the end. */
    method AddCollisionObject(pos: Vec3, radius: real, isTree: bool)
      modifies this
      ensures objects == old(objects) + [CollisionObject(pos, radius, isTree)]
    {
      objects := objects + [CollisionObject(pos, radius, isTree)];
    }

    /** clearCollisionObjects: no obstacle of an earlier load survives. */
    method ClearCollisionObjects()
      modifies this
      ensures objects == []
    {
      objects := [];
    }
  }
}
