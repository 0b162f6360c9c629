/**
 * AgentUtils (both copies, bost7517 and spacesettlers.bost7517): nearest-object
 * selection by strict running minimum, the energy-source choice built on it,
 * the object classifiers used by the agents and the graph, the class-name
 * suffix, and the best-asteroid pick within an optimal distance. The two copies
 * agree except for the starting bound of the best-asteroid pick.
 *
 * The engine's sets are iterated in some order; here they are sequences in
 * that order, and distance is a parameter.
 */
module AgentUtils {
  import opened Wrappers
  import opened JavaNum
  import opened GameObjects

  const LOW_ENERGY_THRESHOLD: real := 2750.0
  const RESOURCE_THRESHOLD: real := 2000.0
  const BASE_BUYING_DISTANCE: real := 400.0
  const PLAN_INTERVAL: int := 10
  const MIN_DISTANCE_PROJECTION_SAFETY: real := 20.0

  /** x is below the running bound; None stands for Double.POSITIVE_INFINITY. */
  predicate Below(x: real, bound: Option<real>)
  {
    bound.None? || x < bound.value
  }

  /**
   * The findNearest* loop: among the objects that keep accepts, the one with
   * strictly least distance below the starting bound; the first one wins ties.
   */
  method ArgMin(objs: seq<GameObject>, keep: GameObject -> bool, d: GameObject -> real, bound: Option<real>)
    returns (r: Option<GameObject>)
    ensures r.None? <==> forall o :: o in objs && keep(o) ==> !Below(d(o), bound)
    ensures r.Some? ==> r.value in objs && keep(r.value) && Below(d(r.value), bound)
    ensures r.Some? ==> forall o :: o in objs && keep(o) ==> d(r.value) <= d(o)
    ensures r.Some? ==>
      exists i :: 0 <= i < |objs| && objs[i] == r.value &&
        forall j :: 0 <= j < i && keep(objs[j]) ==> d(r.value) < d(objs[j])
  {
    var minDistance := bound;
    r := None;
    ghost var at := -1;
    var k := 0;
    while k < |objs|
      invariant 0 <= k <= |objs|
      invariant r.None? ==> minDistance == bound && forall j :: 0 <= j < k && keep(objs[j]) ==> !Below(d(objs[j]), bound)
      invariant r.Some? ==> 0 <= at < k && objs[at] == r.value && keep(r.value)
      invariant r.Some? ==> minDistance == Some(d(r.value)) && Below(d(r.value), bound)
      invariant r.Some? ==> forall j :: 0 <= j < k && keep(objs[j]) ==> d(r.value) <= d(objs[j])
      invariant r.Some? ==> forall j :: 0 <= j < at && keep(objs[j]) ==> d(r.value) < d(objs[j])
    {
      var o := objs[k];
      if keep(o) {
        var dist := d(o);
        if Below(dist, minDistance) {
          minDistance := Some(dist);
          r := Some(o);
          at := k;
        }
      }
      k := k + 1;
    }
  }

  /** The team test of findNearestBase and findNearestAiCore. */
  predicate SameTeamIgnoreCase(o: GameObject, ship: GameObject)
  {
    EqualsIgnoreCase(o.team, ship.team)
  }

  /** findNearestBase: the strictly nearest base of the ship's team, the first found winning ties, or null. */
  method FindNearestBase(bases: seq<GameObject>, ship: GameObject, dist: Distance) returns (r: Option<GameObject>)
    ensures r.Some? ==> r.value in bases && SameTeamIgnoreCase(r.value, ship)
    ensures r.Some? ==> forall b :: b in bases && SameTeamIgnoreCase(b, ship) ==>
      dist(ship.position, r.value.position) <= dist(ship.position, b.position)
    ensures r.None? <==> forall b :: b in bases && SameTeamIgnoreCase(b, ship) ==>
      dist(ship.position, b.position) >= DOUBLE_MAX
    ensures r.Some? ==>
      exists i :: 0 <= i < |bases| && bases[i] == r.value &&
        forall j :: 0 <= j < i && SameTeamIgnoreCase(bases[j], ship) ==>
          dist(ship.position, r.value.position) < dist(ship.position, bases[j].position)
  {
    r := ArgMin(bases, (o: GameObject) => SameTeamIgnoreCase(o, ship), (o: GameObject) => dist(ship.position, o.position), Some(DOUBLE_MAX));
  }

  /** findNearestAiCore: the strictly nearest core of the ship's team, the first found winning ties, or null. */
  method FindNearestAiCore(cores: seq<GameObject>, ship: GameObject, dist: Distance) returns (r: Option<GameObject>)
    ensures r.Some? ==> r.value in cores && SameTeamIgnoreCase(r.value, ship)
    ensures r.Some? ==> forall c :: c in cores && SameTeamIgnoreCase(c, ship) ==>
      dist(ship.position, r.value.position) <= dist(ship.position, c.position)
    ensures r.None? <==> forall c :: c in cores && SameTeamIgnoreCase(c, ship) ==>
      dist(ship.position, c.position) >= DOUBLE_MAX
    ensures r.Some? ==>
      exists i :: 0 <= i < |cores| && cores[i] == r.value &&
        forall j :: 0 <= j < i && SameTeamIgnoreCase(cores[j], ship) ==>
          dist(ship.position, r.value.position) < dist(ship.position, cores[j].position)
  {
    r := ArgMin(cores, (o: GameObject) => SameTeamIgnoreCase(o, ship), (o: GameObject) => dist(ship.position, o.position), Some(DOUBLE_MAX));
  }

  /** findNearestBeacon: the strictly nearest beacon of any team, the first found winning ties; null only when there is none. */
  method FindNearestBeacon(beacons: seq<GameObject>, ship: GameObject, dist: Distance) returns (r: Option<GameObject>)
    ensures r.Some? ==> r.value in beacons
    ensures r.Some? ==> forall b :: b in beacons ==> dist(ship.position, r.value.position) <= dist(ship.position, b.position)
    ensures r.None? <==> beacons == []
    ensures r.Some? ==>
      exists i :: 0 <= i < |beacons| && beacons[i] == r.value &&
        forall j :: 0 <= j < i ==> dist(ship.position, r.value.position) < dist(ship.position, beacons[j].position)
  {
    r := ArgMin(beacons, (o: GameObject) => true, (o: GameObject) => dist(ship.position, o.position), None);
    assert beacons != [] ==> beacons[0] in beacons;
  }

  /** The distance findNearestEnergySource gives a candidate: its distance, or Double.MAX_VALUE for null. */
  function DistOrMax(o: Option<GameObject>, ship: GameObject, dist: Distance): real
  {
    if o.Some? then dist(ship.position, o.value.position) else DOUBLE_MAX
  }

  /**
   * findNearestEnergySource: the nearest base sets the bar; the nearest core
   * replaces it only if strictly closer, and the nearest beacon only if closer
   * still. The base itself is never returned, and a core wins a tie with a
   * beacon.
   */
  method FindNearestEnergySource(bases: seq<GameObject>, cores: seq<GameObject>, beacons: seq<GameObject>,
                                 ship: GameObject, dist: Distance)
    returns (r: Option<GameObject>)
    requires forall o :: o in bases ==> o.kind == BaseKind
    requires forall o :: o in cores ==> o.kind == AiCoreKind
    requires forall o :: o in beacons ==> o.kind == BeaconKind
    ensures r.Some? ==> r.value.kind != BaseKind
    ensures r.Some? && r.value.kind == AiCoreKind ==> r.value in cores && SameTeamIgnoreCase(r.value, ship)
    ensures r.Some? ==> r.value.kind == AiCoreKind || r.value in beacons
    ensures r.Some? ==> dist(ship.position, r.value.position) < DOUBLE_MAX
    ensures r.Some? ==> forall b :: b in bases && SameTeamIgnoreCase(b, ship) ==>
      dist(ship.position, r.value.position) < dist(ship.position, b.position)
    ensures r.Some? && r.value.kind == BeaconKind ==> forall c :: c in cores && SameTeamIgnoreCase(c, ship) ==>
      dist(ship.position, r.value.position) < dist(ship.position, c.position)
    ensures r.Some? ==> forall o :: (o in cores && SameTeamIgnoreCase(o, ship)) || o in beacons ==>
      dist(ship.position, r.value.position) <= dist(ship.position, o.position)
    ensures r.Some? && r.value.kind == AiCoreKind ==>
      exists i :: 0 <= i < |cores| && cores[i] == r.value &&
        forall j :: 0 <= j < i && SameTeamIgnoreCase(cores[j], ship) ==>
          dist(ship.position, r.value.position) < dist(ship.position, cores[j].position)
    ensures r.Some? && r.value.kind == BeaconKind ==>
      exists i :: 0 <= i < |beacons| && beacons[i] == r.value &&
        forall j :: 0 <= j < i ==> dist(ship.position, r.value.position) < dist(ship.position, beacons[j].position)
    ensures r.None? <==> forall o :: (o in cores && SameTeamIgnoreCase(o, ship)) || o in beacons ==>
      dist(ship.position, o.position) >= DOUBLE_MAX ||
      exists b :: b in bases && SameTeamIgnoreCase(b, ship) && dist(ship.position, b.position) <= dist(ship.position, o.position)
  {
    var minBase := FindNearestBase(bases, ship, dist);
    var minBaseDist := DistOrMax(minBase, ship, dist);
    var minCore := FindNearestAiCore(cores, ship, dist);
    var minCoreDist := DistOrMax(minCore, ship, dist);
    var minBeacon := FindNearestBeacon(beacons, ship, dist);
    var minBeaconDist := DistOrMax(minBeacon, ship, dist);

    var minDistance := minBaseDist;
    r := None;
    if minCoreDist < minDistance {
      minDistance := minCoreDist;
      r := minCore;
    }
    if minBeaconDist < minDistance {
      minDistance := minBeaconDist;
      r := minBeacon;
    }
    if r.None? {
      forall o | (o in cores && SameTeamIgnoreCase(o, ship)) || o in beacons
        ensures dist(ship.position, o.position) >= DOUBLE_MAX ||
          exists b :: b in bases && SameTeamIgnoreCase(b, ship) && dist(ship.position, b.position) <= dist(ship.position, o.position)
      {
        if minBase.Some? {
          assert minBase.value in bases && SameTeamIgnoreCase(minBase.value, ship);
        }
      }
    }
  }

  /** getAbstractType: the part of a class name after its last '.'. */
  function LastSegment(s: string): (r: string)
    ensures '.' !in r
    ensures |r| <= |s| && r == s[|s| - |r|..]
    ensures |r| < |s| ==> s[|s| - |r| - 1] == '.'
  {
    if |s| == 0 then ""
    else if s[|s| - 1] == '.' then ""
    else LastSegment(s[..|s| - 1]) + [s[|s| - 1]]
  }

  /** String.split drops trailing empty strings, which is what dropping trailing dots does. */
  function DropTrailingDots(s: string): (r: string)
    ensures |r| <= |s| && r == s[..|r|]
    ensures r == "" || r[|r| - 1] != '.'
    ensures forall i :: |r| <= i < |s| ==> s[i] == '.'
  {
    if |s| > 0 && s[|s| - 1] == '.' then DropTrailingDots(s[..|s| - 1]) else s
  }

  /**
   * getAbstractType on a class name: components[components.length - 1] of
   * name.split("\\."). A name made only of dots splits into no components,
   * and the index -1 is out of bounds: None.
   */
  function GetAbstractType(name: string): (r: Option<string>)
    ensures r.None? <==> name != "" && forall i :: 0 <= i < |name| ==> name[i] == '.'
    ensures r.Some? ==> '.' !in r.value
  {
    var t := DropTrailingDots(name);
    if t == "" && name != "" then None else Some(LastSegment(t))
  }

  /** A dotted class name ends in its simple name. */
  lemma AbstractTypeOfQualifiedName(pkg: string, simple: string)
    requires simple != "" && '.' !in simple
    ensures GetAbstractType(pkg + "." + simple) == Some(simple)
  {
    var name := pkg + "." + simple;
    assert DropTrailingDots(name) == name;
    LastSegmentAfterDot(pkg, simple);
  }

  lemma {:induction false} LastSegmentAfterDot(pkg: string, simple: string)
    requires '.' !in simple
    ensures LastSegment(pkg + "." + simple) == simple
    decreases |simple|
  {
    var name := pkg + "." + simple;
    if simple != "" {
      var shorter := simple[..|simple| - 1];
      assert name[..|name| - 1] == pkg + "." + shorter;
      assert '.' !in shorter by {
        assert forall i :: 0 <= i < |shorter| ==> shorter[i] == simple[i];
      }
      LastSegmentAfterDot(pkg, shorter);
      assert simple == shorter + [simple[|simple| - 1]];
    }
  }

  /**
   * isDangerous: not the ship itself, alive, and neither a missile, a beacon, a
   * core, a mineable asteroid nor a base of the ship's team (exact team match).
   */
  predicate IsDangerous(ship: GameObject, o: GameObject)
  {
    !(o.id == ship.id || !o.alive
      || o.kind == MissileKind || o.kind == BeaconKind
      || o.kind == AiCoreKind
      || (o.kind == AsteroidKind && o.mineable)
      || (o.kind == BaseKind && o.team == ship.team))
  }

  /** isObstacle: not the ship itself, and a missile, a ship, a non-mineable asteroid or any base. */
  predicate IsObstacle(ship: GameObject, o: GameObject)
  {
    o.id != ship.id
    && (o.kind == MissileKind || o.kind == ShipKind
        || (o.kind == AsteroidKind && !o.mineable)
        || o.kind == BaseKind)
  }

  /**
   * Where the two classifiers part: liveness matters only to isDangerous, a
   * missile is an obstacle but never dangerous, an own base is an obstacle
   * but not dangerous, and a live enemy ship is both.
   */
  lemma ClassifiersDiffer(ship: GameObject, o: GameObject)
    ensures !o.alive ==> !IsDangerous(ship, o)
    ensures o.kind == MissileKind ==> !IsDangerous(ship, o) && (IsObstacle(ship, o) <==> o.id != ship.id)
    ensures o.kind == BaseKind && o.team == ship.team ==> !IsDangerous(ship, o) && (IsObstacle(ship, o) <==> o.id != ship.id)
    ensures o.kind == ShipKind && o.alive && o.id != ship.id ==> IsDangerous(ship, o) && IsObstacle(ship, o)
    ensures o.id == ship.id ==> !IsDangerous(ship, o) && !IsObstacle(ship, o)
  {
  }

  /** Whether an asteroid may replace the running best of getBestAsteroidWtOptDist. */
  predicate Improves(a: GameObject, d: GameObject -> real, optDist: real, lowest: real, bestMoney: real)
  {
    a.mineable && d(a) < optDist && d(a) < lowest && a.resources as real > bestMoney
  }

  /** The distance from an object to the ship, as the asteroid pickers measure it. */
  function ToShip(dist: Distance, ship: GameObject): GameObject -> real
  {
    (a: GameObject) => dist(a.position, ship.position)
  }

  /** The running distance bound of the best-asteroid loop: the best's distance, or the starting bound. */
  function Lowest(best: Option<GameObject>, d: GameObject -> real, startBound: real): real
  {
    if best.Some? then d(best.value) else startBound
  }

  /** The running money of the best-asteroid loop: the best's resources, or Integer.MIN_VALUE. */
  function Money(best: Option<GameObject>): real
  {
    if best.Some? then best.value.resources as real else INT_MIN as real
  }

  /**
   * The best asteroid held after a prefix of the asteroids: each asteroid in
   * turn replaces the best so far when it improves on its distance and money.
   */
  function BestSoFar(asteroids: seq<GameObject>, d: GameObject -> real, optDist: real, startBound: real): (r: Option<GameObject>)
    ensures r.Some? ==> r.value in asteroids
  {
    if |asteroids| == 0 then None
    else
      var prev := BestSoFar(asteroids[..|asteroids| - 1], d, optDist, startBound);
      var a := asteroids[|asteroids| - 1];
      if Improves(a, d, optDist, Lowest(prev, d, startBound), Money(prev)) then Some(a) else prev
  }

  /**
   * The best asteroid beats the starting bar: it is mineable, within optDist,
   * below the starting bound and above Integer.MIN_VALUE. There is none
   * exactly when no asteroid beats that bar.
   */
  lemma {:induction false} BestSoFarBar(asteroids: seq<GameObject>, d: GameObject -> real, optDist: real, startBound: real)
    ensures var r := BestSoFar(asteroids, d, optDist, startBound);
      && (r.Some? ==> Improves(r.value, d, optDist, startBound, INT_MIN as real))
      && (r.None? <==> forall a :: a in asteroids ==> !Improves(a, d, optDist, startBound, INT_MIN as real))
    decreases |asteroids|
  {
    if |asteroids| > 0 {
      var prefix := asteroids[..|asteroids| - 1];
      BestSoFarBar(prefix, d, optDist, startBound);
      assert asteroids == prefix + [asteroids[|asteroids| - 1]];
    }
  }

  /**
   * The asteroid at index i improved on the best held before it, and no later
   * asteroid improves on it.
   */
  predicate ImprovedAt(asteroids: seq<GameObject>, d: GameObject -> real, optDist: real, startBound: real, i: int)
    requires 0 <= i < |asteroids|
  {
    && Improves(asteroids[i], d, optDist, Lowest(BestSoFar(asteroids[..i], d, optDist, startBound), d, startBound),
                Money(BestSoFar(asteroids[..i], d, optDist, startBound)))
    && forall j :: i < j < |asteroids| ==> !Improves(asteroids[j], d, optDist, d(asteroids[i]), asteroids[i].resources as real)
  }

  /** ImprovedAt survives one more asteroid that does not improve on the one at i. */
  lemma ImprovedAtExtend(asteroids: seq<GameObject>, d: GameObject -> real, optDist: real, startBound: real, i: int)
    requires 0 <= i < |asteroids| - 1
    requires ImprovedAt(asteroids[..|asteroids| - 1], d, optDist, startBound, i)
    requires !Improves(asteroids[|asteroids| - 1], d, optDist, d(asteroids[i]), asteroids[i].resources as real)
    ensures ImprovedAt(asteroids, d, optDist, startBound, i)
  {
    var prefix := asteroids[..|asteroids| - 1];
    assert prefix[..i] == asteroids[..i];
    assert prefix[i] == asteroids[i];
  }

  /** The best asteroid sits at some index where ImprovedAt holds. */
  lemma {:induction false} BestSoFarAt(asteroids: seq<GameObject>, d: GameObject -> real, optDist: real, startBound: real)
    ensures var r := BestSoFar(asteroids, d, optDist, startBound);
      r.Some? ==> exists i :: 0 <= i < |asteroids| && asteroids[i] == r.value && ImprovedAt(asteroids, d, optDist, startBound, i)
    decreases |asteroids|
  {
    var r := BestSoFar(asteroids, d, optDist, startBound);
    if |asteroids| > 0 && r.Some? {
      var n := |asteroids| - 1;
      var prefix := asteroids[..n];
      var prev := BestSoFar(prefix, d, optDist, startBound);
      if Improves(asteroids[n], d, optDist, Lowest(prev, d, startBound), Money(prev)) {
        assert ImprovedAt(asteroids, d, optDist, startBound, n);
      } else {
        BestSoFarAt(prefix, d, optDist, startBound);
        var i :| 0 <= i < n && prefix[i] == prev.value && ImprovedAt(prefix, d, optDist, startBound, i);
        ImprovedAtExtend(asteroids, d, optDist, startBound, i);
      }
    }
  }

  /**
   * Conversely, an asteroid that improved on the best held before it and is
   * improved on by no later asteroid is the best one.
   */
  lemma {:induction false} BestSoFarIs(asteroids: seq<GameObject>, d: GameObject -> real, optDist: real, startBound: real, i: int)
    requires 0 <= i < |asteroids|
    requires ImprovedAt(asteroids, d, optDist, startBound, i)
    ensures BestSoFar(asteroids, d, optDist, startBound) == Some(asteroids[i])
    decreases |asteroids|
  {
    var n := |asteroids| - 1;
    var prefix := asteroids[..n];
    if i == n {
      assert asteroids[..i] == prefix;
    } else {
      assert prefix[..i] == asteroids[..i];
      assert prefix[i] == asteroids[i];
      BestSoFarIs(prefix, d, optDist, startBound, i);
    }
  }

  /**
   * The getBestAsteroidWtOptDist loop: starting from the given distance bound
   * and Integer.MIN_VALUE money, an asteroid replaces the best so far only if
   * it is mineable, within optDist, and both closer and richer.
   */
  method BestAsteroidWithin(asteroids: seq<GameObject>, d: GameObject -> real, optDist: real, startBound: real)
    returns (r: Option<GameObject>)
    ensures r.Some? ==> r.value in asteroids && r.value.mineable && d(r.value) < optDist && d(r.value) < startBound
    ensures r.None? <==> forall a :: a in asteroids ==> !Improves(a, d, optDist, startBound, INT_MIN as real)
    ensures r.Some? ==>
      exists i :: 0 <= i < |asteroids| && asteroids[i] == r.value &&
        forall j :: i < j < |asteroids| ==> !Improves(asteroids[j], d, optDist, d(r.value), r.value.resources as real)
    ensures r == BestSoFar(asteroids, d, optDist, startBound)
  {
    var lowestDistance := startBound;
    var bestMoney := INT_MIN as real;
    r := None;
    var k := 0;
    while k < |asteroids|
      invariant 0 <= k <= |asteroids|
      invariant r == BestSoFar(asteroids[..k], d, optDist, startBound)
      invariant lowestDistance == Lowest(r, d, startBound) && bestMoney == Money(r)
    {
      assert asteroids[..k + 1][..k] == asteroids[..k];
      var asteroid := asteroids[k];
      var dist := d(asteroid);
      if asteroid.mineable && dist < optDist && dist < lowestDistance {
        if asteroid.resources as real > bestMoney {
          bestMoney := asteroid.resources as real;
          r := Some(asteroid);
          lowestDistance := dist;
        }
      }
      k := k + 1;
    }
    assert asteroids[..k] == asteroids;
    BestSoFarBar(asteroids, d, optDist, startBound);
    BestSoFarAt(asteroids, d, optDist, startBound);
  }

  /** getBestAsteroidWtOptDist of spacesettlers.bost7517: the distance bound starts at Double.MAX_VALUE. */
  method GetBestAsteroidWtOptDist(asteroids: seq<GameObject>, ship: GameObject, dist: Distance, optDist: real)
    returns (r: Option<GameObject>)
    ensures r.Some? ==>
      r.value in asteroids && r.value.mineable && dist(r.value.position, ship.position) < optDist && dist(r.value.position, ship.position) < DOUBLE_MAX
    ensures r.None? <==> forall a :: a in asteroids ==>
      !(a.mineable && dist(a.position, ship.position) < optDist && dist(a.position, ship.position) < DOUBLE_MAX && a.resources > INT_MIN)
    ensures r == BestSoFar(asteroids, ToShip(dist, ship), optDist, DOUBLE_MAX)
    ensures r.Some? ==>
      exists i :: 0 <= i < |asteroids| && asteroids[i] == r.value && ImprovedAt(asteroids, ToShip(dist, ship), optDist, DOUBLE_MAX, i)
  {
    r := BestAsteroidWithin(asteroids, ToShip(dist, ship), optDist, DOUBLE_MAX);
    BestSoFarAt(asteroids, ToShip(dist, ship), optDist, DOUBLE_MAX);
  }

  /** getBestAsteroidWtOptDist of bost7517: the distance bound starts at Integer.MAX_VALUE. */
  method GetBestAsteroidWtOptDistIntBound(asteroids: seq<GameObject>, ship: GameObject, dist: Distance, optDist: real)
    returns (r: Option<GameObject>)
    ensures r.Some? ==>
      r.value in asteroids && r.value.mineable && dist(r.value.position, ship.position) < optDist && dist(r.value.position, ship.position) < INT_MAX as real
    ensures r.None? <==> forall a :: a in asteroids ==>
      !(a.mineable && dist(a.position, ship.position) < optDist && dist(a.position, ship.position) < INT_MAX as real && a.resources > INT_MIN)
    ensures r == BestSoFar(asteroids, ToShip(dist, ship), optDist, INT_MAX as real)
    ensures r.Some? ==>
      exists i :: 0 <= i < |asteroids| && asteroids[i] == r.value && ImprovedAt(asteroids, ToShip(dist, ship), optDist, INT_MAX as real, i)
  {
    r := BestAsteroidWithin(asteroids, ToShip(dist, ship), optDist, INT_MAX as real);
    BestSoFarAt(asteroids, ToShip(dist, ship), optDist, INT_MAX as real);
  }
}
