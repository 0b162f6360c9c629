/**
 * bost7517.BDSM_P4_Relations: the relations the fourth planner's goal is
 * written in. Nearness is a distance of at most NEAR_THRESHOLD between two
 * living objects; the distance is the engine's and enters as a parameter.
 */
module P4Relations {
  import opened GameObjects

  /** NEAR_THRESHOLD: the largest distance at which two objects are near. */
  const NEAR_THRESHOLD: real := 50.0

  /** isAlive: the object's own liveness. */
  predicate IsAlive(o: GameObject)
  {
    o.alive
  }

  /** isNear: both objects alive and at most NEAR_THRESHOLD apart. */
  predicate IsNear(dist: Distance, a: GameObject, b: GameObject)
  {
    IsAlive(a) && IsAlive(b) && dist(a.position, b.position) <= NEAR_THRESHOLD
  }

  /** isGuarding: ship and base alive and near each other. */
  predicate IsGuarding(dist: Distance, s: GameObject, b: GameObject)
  {
    IsAlive(s) && IsAlive(b) && IsNear(dist, s, b)
  }

  /** The liveness tests of isGuarding repeat those of isNear, so guarding is nearness. */
  lemma GuardingIsNearness(dist: Distance, s: GameObject, b: GameObject)
    ensures IsGuarding(dist, s, b) <==> IsNear(dist, s, b)
  {
  }

  /** The threshold is inclusive: living objects exactly NEAR_THRESHOLD apart are near, and a dead one is near nothing. */
  lemma NearBoundary(dist: Distance, a: GameObject, b: GameObject)
    ensures a.alive && b.alive && dist(a.position, b.position) == NEAR_THRESHOLD ==> IsNear(dist, a, b)
    ensures dist(a.position, b.position) > NEAR_THRESHOLD ==> !IsNear(dist, a, b)
    ensures !a.alive || !b.alive ==> !IsNear(dist, a, b) && !IsNear(dist, b, a)
  {
  }

  /** isNear is symmetric whenever the distance is. */
  lemma NearIsSymmetric(dist: Distance, a: GameObject, b: GameObject)
    requires dist(a.position, b.position) == dist(b.position, a.position)
    ensures IsNear(dist, a, b) <==> IsNear(dist, b, a)
  {
  }
}
