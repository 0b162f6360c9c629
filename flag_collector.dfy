/**
 * bost7517.BDSMFlagCollector: a pacifist flag collector. One ship (the
 * current flag carrier, or else the healthiest ship near the enemy flag)
 * fetches the enemy flag, two guard ships wait at fixed posts near it and
 * may buy bases there, and every other ship collects asteroids by a rule
 * cascade. Ships are compared by id, and the guard fields keep the ship
 * objects seen when the guards were chosen.
 */
module FlagCollectors {
  import opened Wrappers
  import opened JavaNum
  import opened GameObjects
  import opened AgentUtils
  import opened TeamClients

  /** guardPosition1 and guardPosition2, and the point the first guard is chosen by. */
  const GUARD_POSITION_1: Position := Position(1450.0, 300.0)
  const GUARD_POSITION_2: Position := Position(1300.0, 900.0)
  const GUARD_1_CHOICE_POINT: Position := Position(950.0, 500.0)

  /** The flag ship needs more energy than minHealth. */
  const MIN_HEALTH: real := 2000.0

  /** The collector's thresholds: deposit above 1000 resources, refuel below 3000 energy, a core within 200. */
  const COLLECTOR_RESOURCE_LIMIT: int := 1000
  const COLLECTOR_LOW_ENERGY: real := 3000.0
  const CORE_PICKUP_DISTANCE: real := 200.0

  /** The guards grab the flag within these distances. */
  const GUARD_1_GRAB_DISTANCE: real := 450.0
  const GUARD_2_GRAB_DISTANCE: real := 75.0

  /** Bases: one counts as present at the first post within 150, and as absent at the second within 100 (sic). */
  const POST_1_BASE_DISTANCE: real := 150.0
  const POST_2_BASE_DISTANCE: real := 100.0
  /** The second guard is chosen once the first is within this distance of its post. */
  const GUARD_1_ARRIVED_DISTANCE: real := 150.0
  /** A guard buys a base only within this distance of its post. */
  const BASE_SITE_DISTANCE: real := 20.0

  /** The x coordinate dividing the map into the left and the right side. */
  const MAP_MIDDLE_X: real := 800.0

  /** SpaceSettlersPowerupEnum, as far as this client uses it. */
  datatype Powerup = LaunchDrone

  /** A ship carrying a flag. */
  predicate CarriesFlag(o: GameObject)
  {
    o.kind == ShipKind && o.carryingFlag
  }

  /** getFlagCarrier: the first ship, in iteration order, that carries a flag; null when none does. */
  method GetFlagCarrier(actionable: seq<GameObject>) returns (r: Option<GameObject>)
    ensures r.None? <==> forall o :: o in actionable ==> !CarriesFlag(o)
    ensures r.Some? ==>
      exists i :: 0 <= i < |actionable| && actionable[i] == r.value && CarriesFlag(r.value)
        && forall j :: 0 <= j < i ==> !CarriesFlag(actionable[j])
  {
    var i := 0;
    while i < |actionable|
      invariant 0 <= i <= |actionable|
      invariant forall j :: 0 <= j < i ==> !CarriesFlag(actionable[j])
    {
      if CarriesFlag(actionable[i]) {
        return Some(actionable[i]);
      }
      i := i + 1;
    }
    r := None;
  }

  /** A flag of another team than the client's (compared ignoring case). */
  predicate IsEnemyFlag(f: GameObject, team: string)
  {
    !EqualsIgnoreCase(f.team, team)
  }

  /** The flag getEnemyFlag ends with: the last enemy flag in iteration order. */
  function LastEnemyFlag(flags: seq<GameObject>, team: string): Option<GameObject>
  {
    if |flags| == 0 then None
    else if IsEnemyFlag(flags[|flags| - 1], team) then Some(flags[|flags| - 1])
    else LastEnemyFlag(flags[..|flags| - 1], team)
  }

  /** LastEnemyFlag is null exactly when every flag is the client's. */
  lemma {:induction false} LastEnemyFlagNone(flags: seq<GameObject>, team: string)
    ensures LastEnemyFlag(flags, team).None? <==> forall f :: f in flags ==> !IsEnemyFlag(f, team)
  {
    if |flags| > 0 {
      var n := |flags| - 1;
      LastEnemyFlagNone(flags[..n], team);
      assert forall f :: f in flags <==> f in flags[..n] || f == flags[n];
    }
  }

  /** A flag LastEnemyFlag finds is an enemy flag at some index i with no enemy flag after it. */
  lemma {:induction false} LastEnemyFlagLast(flags: seq<GameObject>, team: string) returns (i: int)
    requires LastEnemyFlag(flags, team).Some?
    ensures 0 <= i < |flags| && flags[i] == LastEnemyFlag(flags, team).value && IsEnemyFlag(flags[i], team)
    ensures forall j :: i < j < |flags| ==> !IsEnemyFlag(flags[j], team)
  {
    var n := |flags| - 1;
    if IsEnemyFlag(flags[n], team) {
      i := n;
    } else {
      i := LastEnemyFlagLast(flags[..n], team);
      assert flags[i] == flags[..n][i];
      assert forall j :: i < j < n ==> flags[j] == flags[..n][j];
    }
  }

  /** getEnemyFlag: every flag of another team replaces the one found so far. */
  method GetEnemyFlag(flags: seq<GameObject>, team: string) returns (r: Option<GameObject>)
    ensures r == LastEnemyFlag(flags, team)
  {
    r := None;
    var i := 0;
    while i < |flags|
      invariant 0 <= i <= |flags|
      invariant r == LastEnemyFlag(flags[..i], team)
    {
      assert flags[..i + 1][..i] == flags[..i];
      if IsEnemyFlag(flags[i], team) {
        r := Some(flags[i]);
      }
      i := i + 1;
    }
    assert flags[..i] == flags;
  }

  /** minDistance of findHealthiestShipNearFlag: the chosen ship's distance to the flag, Double.MAX_VALUE before any. */
  function BestDistance(best: Option<GameObject>, flagAt: Position, dist: Distance): real
  {
    if best.Some? then dist(best.value.position, flagAt) else DOUBLE_MAX
  }

  /**
   * maxHealth of findHealthiestShipNearFlag: the chosen ship's energy. It
   * starts at Double.MIN_VALUE, which no candidate can fail to exceed since a
   * candidate needs more than MIN_HEALTH; MIN_HEALTH stands in for it.
   */
  function BestHealth(best: Option<GameObject>): real
  {
    if best.Some? then best.value.energy else MIN_HEALTH
  }

  /** The test of findHealthiestShipNearFlag: a ship that is nearer and healthier than the best so far, with energy above MIN_HEALTH. */
  predicate Replaces(o: GameObject, best: Option<GameObject>, flagAt: Position, dist: Distance)
  {
    o.kind == ShipKind && dist(o.position, flagAt) < BestDistance(best, flagAt, dist)
    && o.energy > MIN_HEALTH && o.energy > BestHealth(best)
  }

  /** A ship findHealthiestShipNearFlag may return: healthy enough and nearer than Double.MAX_VALUE. */
  predicate Eligible(o: GameObject, flagAt: Position, dist: Distance)
  {
    o.kind == ShipKind && o.energy > MIN_HEALTH && dist(o.position, flagAt) < DOUBLE_MAX
  }

  /** The ship findHealthiestShipNearFlag ends with, for a flag at flagAt. */
  function Healthiest(objs: seq<GameObject>, flagAt: Position, dist: Distance): Option<GameObject>
  {
    if |objs| == 0 then None
    else
      var best := Healthiest(objs[..|objs| - 1], flagAt, dist);
      if Replaces(objs[|objs| - 1], best, flagAt, dist) then Some(objs[|objs| - 1]) else best
  }

  /** The ship is null exactly when no ship is eligible, and otherwise it is eligible. */
  lemma {:induction false} HealthiestEligible(objs: seq<GameObject>, flagAt: Position, dist: Distance)
    ensures Healthiest(objs, flagAt, dist).None? <==> forall o :: o in objs ==> !Eligible(o, flagAt, dist)
    ensures Healthiest(objs, flagAt, dist).Some? ==>
      Healthiest(objs, flagAt, dist).value in objs && Eligible(Healthiest(objs, flagAt, dist).value, flagAt, dist)
  {
    if |objs| > 0 {
      var n := |objs| - 1;
      var best := Healthiest(objs[..n], flagAt, dist);
      HealthiestEligible(objs[..n], flagAt, dist);
      assert forall o :: o in objs <==> o in objs[..n] || o == objs[n];
      if best.None? {
        assert Replaces(objs[n], best, flagAt, dist) <==> Eligible(objs[n], flagAt, dist);
      }
    }
  }

  /** The ship findHealthiestShipNearFlag returns stands at some index i, and no ship after it is both nearer the flag and healthier. */
  lemma {:induction false} HealthiestUnbeaten(objs: seq<GameObject>, flagAt: Position, dist: Distance) returns (i: int)
    requires Healthiest(objs, flagAt, dist).Some?
    ensures 0 <= i < |objs| && objs[i] == Healthiest(objs, flagAt, dist).value
    ensures forall j :: i < j < |objs| ==> !Replaces(objs[j], Healthiest(objs, flagAt, dist), flagAt, dist)
  {
    var n := |objs| - 1;
    var best := Healthiest(objs[..n], flagAt, dist);
    if Replaces(objs[n], best, flagAt, dist) {
      i := n;
    } else {
      i := HealthiestUnbeaten(objs[..n], flagAt, dist);
      assert objs[i] == objs[..n][i];
      assert forall j :: i < j < n ==> objs[j] == objs[..n][j];
    }
  }

  /**
   * findHealthiestShipNearFlag: the enemy flag is looked up first, and every
   * ship then measures its distance to it, which throws when there is no
   * enemy flag.
   */
  method FindHealthiestShipNearFlag(actionable: seq<GameObject>, enemyFlag: Option<GameObject>, dist: Distance)
    returns (r: Access<Option<GameObject>>)
    ensures r.Thrown? <==> enemyFlag.None? && exists o :: o in actionable && o.kind == ShipKind
    ensures r.Value? && enemyFlag.None? ==> r.value.None?
    ensures r.Value? && enemyFlag.Some? ==> r.value == Healthiest(actionable, enemyFlag.value.position, dist)
  {
    var bestShip: Option<GameObject> := None;
    var i := 0;
    while i < |actionable|
      invariant 0 <= i <= |actionable|
      invariant enemyFlag.None? ==> bestShip.None? && forall j :: 0 <= j < i ==> actionable[j].kind != ShipKind
      invariant enemyFlag.Some? ==> bestShip == Healthiest(actionable[..i], enemyFlag.value.position, dist)
    {
      assert actionable[..i + 1][..i] == actionable[..i];
      var o := actionable[i];
      if o.kind == ShipKind {
        if enemyFlag.None? {
          return Thrown;
        }
        if Replaces(o, bestShip, enemyFlag.value.position, dist) {
          bestShip := Some(o);
        }
      }
      i := i + 1;
    }
    assert actionable[..i] == actionable;
    r := Value(bestShip);
  }

  /** The ship chosen to fetch the flag: the carrier, or else the healthiest ship near the enemy flag. */
  method ChooseFlagShip(actionable: seq<GameObject>, enemyFlag: Option<GameObject>, dist: Distance)
    returns (r: Access<Option<GameObject>>)
    ensures r.Thrown? <==>
      (forall o :: o in actionable ==> !CarriesFlag(o)) && enemyFlag.None? && exists o :: o in actionable && o.kind == ShipKind
    ensures r.Value? && r.value.Some? ==> r.value.value in actionable && r.value.value.kind == ShipKind
    ensures r.Value? && r.value.Some? && !r.value.value.carryingFlag ==>
      (forall o :: o in actionable ==> !CarriesFlag(o)) && enemyFlag.Some?
      && Eligible(r.value.value, enemyFlag.value.position, dist)
  {
    var carrier := GetFlagCarrier(actionable);
    if carrier.Some? {
      return Value(carrier);
    }
    r := FindHealthiestShipNearFlag(actionable, enemyFlag, dist);
    if r.Value? && enemyFlag.Some? {
      HealthiestEligible(actionable, enemyFlag.value.position, dist);
    }
  }

  /**
   * pickNearestCore: the core of any team strictly nearest the ship and
   * strictly nearer than minimumDistance, the first one found winning ties;
   * null when every core is at minimumDistance or more.
   */
  method PickNearestCore(cores: seq<GameObject>, ship: GameObject, dist: Distance, minimumDistance: real)
    returns (r: Option<GameObject>)
    ensures r.Some? ==> r.value in cores && dist(ship.position, r.value.position) < minimumDistance
    ensures r.Some? ==> forall c :: c in cores ==> dist(ship.position, r.value.position) <= dist(ship.position, c.position)
    ensures r.None? <==> forall c :: c in cores ==> dist(ship.position, c.position) >= minimumDistance
    ensures r.Some? ==>
      exists i :: 0 <= i < |cores| && cores[i] == r.value &&
        forall j :: 0 <= j < i ==> dist(ship.position, r.value.position) < dist(ship.position, cores[j].position)
  {
    r := ArgMin(cores, (o: GameObject) => true, (o: GameObject) => dist(ship.position, o.position), Some(minimumDistance));
  }

  /** A ship that launches its drone: one carrying the flag for which the drone powerup is valid. */
  predicate LaunchesDrone(o: GameObject, droneValid: GameObject -> bool)
  {
    CarriesFlag(o) && droneValid(o)
  }

  /** getPowerups: every flag-carrying ship whose drone powerup is valid launches the drone; nothing else is asked for. */
  method GetPowerups(actionable: seq<GameObject>, droneValid: GameObject -> bool) returns (p: map<Uuid, Powerup>)
    ensures forall k :: k in p <==> exists o :: o in actionable && o.id == k && LaunchesDrone(o, droneValid)
    ensures forall k :: k in p ==> p[k] == LaunchDrone
  {
    p := map[];
    var i := 0;
    while i < |actionable|
      invariant 0 <= i <= |actionable|
      invariant forall k :: k in p <==> exists j :: 0 <= j < i && actionable[j].id == k && LaunchesDrone(actionable[j], droneValid)
      invariant forall k :: k in p ==> p[k] == LaunchDrone
    {
      if LaunchesDrone(actionable[i], droneValid) {
        p := p[actionable[i].id := LaunchDrone];
      }
      i := i + 1;
    }
    assert forall o :: o in actionable ==> exists j :: 0 <= j < |actionable| && actionable[j] == o;
  }

  /** A ship the guard searches of getTeamPurchases accept: not the excluded one, and nearer the point than Double.MAX_VALUE. */
  predicate NearShip(o: GameObject, exclude: Option<Uuid>, point: Position, dist: Distance)
  {
    o.kind == ShipKind && (exclude.None? || o.id != exclude.value) && dist(o.position, point) < DOUBLE_MAX
  }

  /**
   * The guard searches of getTeamPurchases: minDistance is never lowered, so
   * every accepted ship replaces bestShip and the last one wins; with none,
   * bestShip keeps the value it had before the loop.
   */
  function LastNear(objs: seq<GameObject>, exclude: Option<Uuid>, point: Position, dist: Distance,
                    start: Option<GameObject>): Option<GameObject>
  {
    if |objs| == 0 then start
    else if NearShip(objs[|objs| - 1], exclude, point, dist) then Some(objs[|objs| - 1])
    else LastNear(objs[..|objs| - 1], exclude, point, dist, start)
  }

  /** The search keeps its starting value when no ship is accepted. */
  lemma {:induction false} LastNearNone(objs: seq<GameObject>, exclude: Option<Uuid>, point: Position, dist: Distance,
                                        start: Option<GameObject>)
    requires forall o :: o in objs ==> !NearShip(o, exclude, point, dist)
    ensures LastNear(objs, exclude, point, dist, start) == start
  {
    if |objs| > 0 {
      var n := |objs| - 1;
      assert objs[n] in objs;
      assert forall o :: o in objs[..n] ==> o in objs;
      LastNearNone(objs[..n], exclude, point, dist, start);
    }
  }

  /** When some ship is accepted, the search ends at the accepted ship of some index i, after which none is accepted. */
  lemma {:induction false} LastNearLast(objs: seq<GameObject>, exclude: Option<Uuid>, point: Position, dist: Distance,
                                        start: Option<GameObject>, o: GameObject) returns (i: int)
    requires o in objs && NearShip(o, exclude, point, dist)
    ensures 0 <= i < |objs| && Some(objs[i]) == LastNear(objs, exclude, point, dist, start)
    ensures NearShip(objs[i], exclude, point, dist)
    ensures forall j :: i < j < |objs| ==> !NearShip(objs[j], exclude, point, dist)
  {
    var n := |objs| - 1;
    if NearShip(objs[n], exclude, point, dist) {
      i := n;
    } else {
      assert o in objs[..n] by {
        var m :| 0 <= m < |objs| && objs[m] == o;
        assert m != n;
        assert objs[..n][m] == o;
      }
      i := LastNearLast(objs[..n], exclude, point, dist, start, o);
      assert objs[i] == objs[..n][i];
      assert forall j :: i < j < n ==> objs[j] == objs[..n][j];
    }
  }

  /** One guard search of getTeamPurchases, over the actionable objects in iteration order. */
  method LastShipNear(actionable: seq<GameObject>, exclude: Option<Uuid>, point: Position, dist: Distance,
                      start: Option<GameObject>)
    returns (bestShip: Option<GameObject>)
    ensures bestShip == LastNear(actionable, exclude, point, dist, start)
  {
    bestShip := start;
    var i := 0;
    while i < |actionable|
      invariant 0 <= i <= |actionable|
      invariant bestShip == LastNear(actionable[..i], exclude, point, dist, start)
    {
      assert actionable[..i + 1][..i] == actionable[..i];
      if NearShip(actionable[i], exclude, point, dist) {
        bestShip := Some(actionable[i]);
      }
      i := i + 1;
    }
    assert actionable[..i] == actionable;
  }

  /** A base of the client's team (compared ignoring case). */
  predicate OwnBase(b: GameObject, team: string)
  {
    EqualsIgnoreCase(b.team, team)
  }

  /**
   * The base1Exist loop: the least distance from the post to an own base,
   * starting from Double.MAX_VALUE, is at most the limit; that is, some own
   * base is within the limit.
   */
  method PostHasBase(bases: seq<GameObject>, team: string, post: Position, dist: Distance, limit: real)
    returns (exists_: bool)
    requires limit < DOUBLE_MAX
    ensures exists_ <==> exists b :: b in bases && OwnBase(b, team) && dist(post, b.position) <= limit
  {
    var minDistanceX := DOUBLE_MAX;
    var i := 0;
    while i < |bases|
      invariant 0 <= i <= |bases|
      invariant minDistanceX <= DOUBLE_MAX
      invariant forall j :: 0 <= j < i && OwnBase(bases[j], team) && dist(post, bases[j].position) < DOUBLE_MAX ==>
        minDistanceX <= dist(post, bases[j].position)
      invariant minDistanceX == DOUBLE_MAX || exists j :: 0 <= j < i && OwnBase(bases[j], team) && minDistanceX == dist(post, bases[j].position)
    {
      if OwnBase(bases[i], team) {
        var distance := dist(post, bases[i].position);
        if distance < minDistanceX {
          minDistanceX := distance;
        }
      }
      i := i + 1;
    }
    exists_ := !(minDistanceX > limit);
    assert forall b :: b in bases ==> exists j :: 0 <= j < |bases| && bases[j] == b;
  }

  /** The base2Exist loop: it stays true unless some own base is strictly nearer the post than the limit. */
  method NoBaseBelow(bases: seq<GameObject>, team: string, post: Position, dist: Distance, limit: real)
    returns (exists_: bool)
    ensures exists_ <==> forall b :: b in bases && OwnBase(b, team) ==> !(dist(post, b.position) < limit)
  {
    exists_ := true;
    var i := 0;
    while i < |bases|
      invariant 0 <= i <= |bases|
      invariant exists_ <==> forall j :: 0 <= j < i && OwnBase(bases[j], team) ==> !(dist(post, bases[j].position) < limit)
    {
      if OwnBase(bases[i], team) && dist(post, bases[i].position) < limit {
        exists_ := false;
      }
      i := i + 1;
    }
    assert forall b :: b in bases ==> exists j :: 0 <= j < |bases| && bases[j] == b;
  }

  /** The guard is at its post: among the actionable objects is a ship with the guard's id within BASE_SITE_DISTANCE of it. */
  predicate AtPost(actionable: seq<GameObject>, guard: Option<GameObject>, post: Position, dist: Distance)
  {
    guard.Some? && exists o :: o in actionable && AtPostAs(o, guard.value, post, dist)
  }

  /** The ship o is the guard (Ship.equals compares ids) and stands within BASE_SITE_DISTANCE of the post. */
  predicate AtPostAs(o: GameObject, guard: GameObject, post: Position, dist: Distance)
  {
    o.kind == ShipKind && o.id == guard.id && dist(o.position, post) < BASE_SITE_DISTANCE
  }

  /** The base-buying loop of one guard: does any ship equal to the guard stand within BASE_SITE_DISTANCE of its post? */
  method GuardAtPost(actionable: seq<GameObject>, guard: Option<GameObject>, post: Position, dist: Distance)
    returns (found: bool)
    ensures found <==> AtPost(actionable, guard, post, dist)
  {
    found := false;
    var i := 0;
    while i < |actionable|
      invariant 0 <= i <= |actionable|
      invariant found <==> guard.Some? && exists j :: 0 <= j < i && AtPostAs(actionable[j], guard.value, post, dist)
    {
      var o := actionable[i];
      if guard.Some? && AtPostAs(o, guard.value, post, dist) {
        found := true;
      }
      i := i + 1;
    }
    assert forall o :: o in actionable ==> exists j :: 0 <= j < |actionable| && actionable[j] == o;
  }

  /** A ship that may be given a drone (it holds a core) and one that may be given a core (it holds none). */
  predicate DroneBuyer(o: GameObject)
  {
    o.kind == ShipKind && o.cores > 0
  }

  predicate CoreBuyer(o: GameObject)
  {
    o.kind == ShipKind && o.cores == 0
  }

  /** No two keys of the purchases map hold this purchase. */
  predicate AtMostOne(p: map<Uuid, PurchaseType>, t: PurchaseType)
  {
    forall k1, k2 :: k1 in p && k2 in p && p[k1] == t && p[k2] == t ==> k1 == k2
  }

  /** The purchase t is in the map. */
  predicate Bought(p: map<Uuid, PurchaseType>, t: PurchaseType)
  {
    exists k :: k in p && p[k] == t
  }

  /** Buyer(o, true) is DroneBuyer, Buyer(o, false) CoreBuyer. */
  predicate Buyer(o: GameObject, drone: bool)
  {
    if drone then DroneBuyer(o) else CoreBuyer(o)
  }

  /** After i objects, at is the first buyer's index when the purchase is affordable and a buyer was seen, and None otherwise. */
  ghost predicate FirstBuyerSoFar(objs: seq<GameObject>, i: nat, at: Option<nat>, afford: bool, drone: bool)
    requires i <= |objs|
  {
    if at.Some? then
      at.value < i && afford && Buyer(objs[at.value], drone) && forall j :: 0 <= j < at.value ==> !Buyer(objs[j], drone)
    else
      !afford || forall j :: 0 <= j < i ==> !Buyer(objs[j], drone)
  }

  /** The purchases entry for the buyer at index at, if any. */
  ghost function Entry(objs: seq<GameObject>, at: Option<nat>, t: PurchaseType): map<Uuid, PurchaseType>
  {
    if at.Some? && at.value < |objs| then map[objs[at.value].id := t] else map[]
  }

  /** The drone buyer holds a core and the core buyer none, so with distinct ids their entries do not collide. */
  lemma {:induction false} BuyersDiffer(objs: seq<GameObject>, d: nat, c: nat)
    requires Distinct(Ids(objs)) && d < |objs| && c < |objs|
    requires DroneBuyer(objs[d]) && CoreBuyer(objs[c])
    ensures objs[d].id != objs[c].id
  {
    assert Ids(objs)[d] == objs[d].id && Ids(objs)[c] == objs[c].id;
  }

  /**
   * The first loop of getTeamPurchases: the first ship holding a core gets a
   * drone and the first ship holding none gets a core, each when affordable.
   */
  method BuyDronesAndCores(actionable: seq<GameObject>, affordDrone: bool, affordCore: bool)
    returns (p: map<Uuid, PurchaseType>)
    requires Distinct(Ids(actionable))
    ensures forall k :: k in p ==> p[k] == BuyDrone || p[k] == BuyCore
    ensures AtMostOne(p, BuyDrone) && AtMostOne(p, BuyCore)
    ensures forall k :: k in p && p[k] == BuyDrone ==>
      exists i :: 0 <= i < |actionable| && actionable[i].id == k && DroneBuyer(actionable[i])
        && forall j :: 0 <= j < i ==> !DroneBuyer(actionable[j])
    ensures forall k :: k in p && p[k] == BuyCore ==>
      exists i :: 0 <= i < |actionable| && actionable[i].id == k && CoreBuyer(actionable[i])
        && forall j :: 0 <= j < i ==> !CoreBuyer(actionable[j])
    ensures Bought(p, BuyDrone) <==> affordDrone && exists o :: o in actionable && DroneBuyer(o)
    ensures Bought(p, BuyCore) <==> affordCore && exists o :: o in actionable && CoreBuyer(o)
  {
    p := map[];
    var boughtDrone := false;
    var boughtCore := false;
    ghost var droneAt: Option<nat> := None;
    ghost var coreAt: Option<nat> := None;
    var i := 0;
    while i < |actionable|
      invariant 0 <= i <= |actionable|
      invariant boughtDrone == droneAt.Some? && boughtCore == coreAt.Some?
      invariant FirstBuyerSoFar(actionable, i, droneAt, affordDrone, true)
      invariant FirstBuyerSoFar(actionable, i, coreAt, affordCore, false)
      invariant p == Entry(actionable, droneAt, BuyDrone) + Entry(actionable, coreAt, BuyCore)
    {
      var o := actionable[i];
      if !boughtDrone && DroneBuyer(o) && affordDrone {
        p := p[o.id := BuyDrone];
        boughtDrone := true;
        droneAt := Some(i);
      }
      if !boughtCore && CoreBuyer(o) && affordCore {
        p := p[o.id := BuyCore];
        boughtCore := true;
        coreAt := Some(i);
      }
      i := i + 1;
    }
    BuyerEntries(actionable, droneAt, coreAt, affordDrone, affordCore);
    FirstBuyerFound(actionable, droneAt, affordDrone, true);
    FirstBuyerFound(actionable, coreAt, affordCore, false);
  }

  /** The purchases the first buyers make: the facts BuyDronesAndCores promises, from where its loop ends. */
  lemma {:induction false} BuyerEntries(objs: seq<GameObject>, droneAt: Option<nat>, coreAt: Option<nat>, affordDrone: bool, affordCore: bool)
    requires Distinct(Ids(objs))
    requires FirstBuyerSoFar(objs, |objs|, droneAt, affordDrone, true)
    requires FirstBuyerSoFar(objs, |objs|, coreAt, affordCore, false)
    ensures var p := Entry(objs, droneAt, BuyDrone) + Entry(objs, coreAt, BuyCore);
      && (forall k :: k in p ==> p[k] == BuyDrone || p[k] == BuyCore)
      && AtMostOne(p, BuyDrone) && AtMostOne(p, BuyCore)
      && (forall k :: k in p && p[k] == BuyDrone ==>
            exists i :: 0 <= i < |objs| && objs[i].id == k && DroneBuyer(objs[i]) && forall j :: 0 <= j < i ==> !DroneBuyer(objs[j]))
      && (forall k :: k in p && p[k] == BuyCore ==>
            exists i :: 0 <= i < |objs| && objs[i].id == k && CoreBuyer(objs[i]) && forall j :: 0 <= j < i ==> !CoreBuyer(objs[j]))
      && (Bought(p, BuyDrone) <==> droneAt.Some?)
      && (Bought(p, BuyCore) <==> coreAt.Some?)
  {
    var p := Entry(objs, droneAt, BuyDrone) + Entry(objs, coreAt, BuyCore);
    if droneAt.Some? && coreAt.Some? {
      BuyersDiffer(objs, droneAt.value, coreAt.value);
    }
    if droneAt.Some? {
      assert objs[droneAt.value].id in p && p[objs[droneAt.value].id] == BuyDrone;
    }
    if coreAt.Some? {
      assert objs[coreAt.value].id in p;
    }
  }

  /** After the whole sequence, a first buyer was found exactly when the purchase is affordable and some object is a buyer. */
  lemma {:induction false} FirstBuyerFound(objs: seq<GameObject>, at: Option<nat>, afford: bool, drone: bool)
    requires FirstBuyerSoFar(objs, |objs|, at, afford, drone)
    ensures at.Some? <==> afford && exists o :: o in objs && Buyer(o, drone)
  {
    if at.Some? {
      assert objs[at.value] in objs;
    } else {
      assert forall o :: o in objs ==> exists j :: 0 <= j < |objs| && objs[j] == o;
    }
  }

  /** The branch getMovementStart takes for an actionable object, tested in the source's order. */
  datatype Role = FlagShipRole | Guard1Role | Guard2Role | CollectorRole | DroneRole | OtherRole

  function RoleOf(o: GameObject, flagShip: Option<GameObject>, guard1: Option<GameObject>, guard2: Option<GameObject>): Role
  {
    if o.kind == ShipKind then
      if flagShip.Some? && o.id == flagShip.value.id then FlagShipRole
      else if guard1.Some? && o.id == guard1.value.id then Guard1Role
      else if guard2.Some? && o.id == guard2.value.id then Guard2Role
      else CollectorRole
    else if o.kind == DroneKind then DroneRole
    else OtherRole
  }

  /** The rule of the collector cascade that applies, tested in order. */
  datatype CollectorRule = DepositRule | BeaconRule | CoreRule | RetargetRule | KeepRule

  function CollectorRuleOf(sp: Space, ship: GameObject, cur: Current, justHit: bool): CollectorRule
  {
    if ship.resources > COLLECTOR_RESOURCE_LIMIT || ship.cores > 0 then DepositRule
    else if ship.energy < COLLECTOR_LOW_ENERGY then BeaconRule
    else if exists c :: c in sp.cores && sp.dist(ship.position, c.position) < CORE_PICKUP_DISTANCE then CoreRule
    else if Idle(cur) || justHit then RetargetRule
    else KeepRule
  }

  /** The refuelling rule: a move (without leading) to a nearest beacon, or doing nothing when there is no beacon. */
  ghost predicate BeaconMove(sp: Space, ship: GameObject, a: Action)
  {
    (a == DoNothing <==> sp.beacons == [])
    && (a != DoNothing ==>
          exists b :: b in sp.beacons && a == MoveToObject(Some(b.id), false)
            && forall c :: c in sp.beacons ==> sp.dist(ship.position, b.position) <= sp.dist(ship.position, c.position))
  }

  /** The core rule: a leading move to a nearest core, which lies within CORE_PICKUP_DISTANCE. */
  ghost predicate CoreMove(sp: Space, ship: GameObject, a: Action)
  {
    exists c :: c in sp.cores && a == MoveToObject(Some(c.id), true)
      && sp.dist(ship.position, c.position) < CORE_PICKUP_DISTANCE
      && forall d :: d in sp.cores ==> sp.dist(ship.position, c.position) <= sp.dist(ship.position, d.position)
  }

  /**
   * A guard's move: a leading move to the flag when the stored guard is
   * within grab distance of it, and otherwise back to the post (the
   * reference comparison of the positions never finds them equal).
   */
  function GuardMove(guard: GameObject, flag: GameObject, grab: real, post: Position, dist: Distance): Action
  {
    if dist(guard.position, flag.position) < grab then MoveTo(Some(flag), true) else MoveToPosition(post)
  }

  /** The waypoint list after the flag ship has taken its next point: the head is polled off a non-empty list. */
  function Polled(points: Option<seq<Position>>): Option<seq<Position>>
  {
    if points.Some? && |points.value| > 0 then Some(points.value[1..]) else points
  }

  /**
   * What getMovementStart puts for an object of the given role. A collector is
   * never sent to a bare position unless it keeps its current action; its
   * cascade is stated per call by GetAsteroidCollectorAction.
   */
  ghost predicate EntryFits(sp: Space, o: GameObject, role: Role, enemy: Option<GameObject>, cur: Current, a: Option<Action>,
                            droneAction: GameObject -> Action, guard1: Option<GameObject>, guard2: Option<GameObject>)
  {
    match role
    case OtherRole => a == Some(DoNothing)
    case DroneRole => a == Some(droneAction(o))
    case FlagShipRole =>
      a.Some? && (if o.carryingFlag then DepositMove(sp, o, a.value) else enemy.Some? && a.value == MoveTo(enemy, true))
    case Guard1Role =>
      guard1.Some? && enemy.Some? && a == Some(GuardMove(guard1.value, enemy.value, GUARD_1_GRAB_DISTANCE, GUARD_POSITION_1, sp.dist))
    case Guard2Role =>
      guard2.Some? && enemy.Some? && a == Some(GuardMove(guard2.value, enemy.value, GUARD_2_GRAB_DISTANCE, GUARD_POSITION_2, sp.dist))
    case CollectorRole => a == cur.action || a.None? || !a.value.MoveToPosition?
  }

  /**
   * BDSMFlagCollector. The guard fields hold the ship objects seen when the
   * guards were chosen; pointsToVisit is the flag ship's list of waypoints
   * (null until the first search).
   */
  class BDSMFlagCollector {
    const team: string
    const book: ClaimBook
    var goingForCore: map<Uuid, bool>
    var timeSincePlan: int
    var checkBaseLocation: bool
    var baseIsLeft: bool
    var baseIsRight: bool
    var flagGuard1: Option<GameObject>
    var flagGuard2: Option<GameObject>
    var noflagGuard1Base: bool
    var pointsToVisit: Option<seq<Position>>

    /** The count stays in 0..20, and a second guard is only ever chosen once there is a first. */
    ghost predicate Valid()
      reads this
    {
      0 <= timeSincePlan <= REPLAN_AT && (flagGuard2.Some? ==> flagGuard1.Some?)
    }

    /** The field initialisers and initialize: a count of 10, the base side still to check, no guards, empty maps. */
    constructor (team: string)
      ensures Valid()
      ensures this.team == team && fresh(book)
      ensures book.asteroidToShipMap == map[] && book.aimingForBase == map[] && book.justHitBase == map[] && goingForCore == map[]
      ensures timeSincePlan == 10 && checkBaseLocation && !baseIsLeft && !baseIsRight
      ensures flagGuard1.None? && flagGuard2.None? && noflagGuard1Base && pointsToVisit.None?
    {
      this.team := team;
      book := new ClaimBook();
      goingForCore := map[];
      timeSincePlan := 10;
      checkBaseLocation := true;
      baseIsLeft := false;
      baseIsRight := false;
      flagGuard1 := None;
      flagGuard2 := None;
      noflagGuard1Base := true;
      pointsToVisit := None;
    }

    /**
     * The first-call check of getMovementStart: an own base left of the
     * middle of the map sets baseIsLeft, one right of it baseIsRight; the
     * check then never runs again.
     */
    method CheckBaseLocation(bases: seq<GameObject>)
      modifies this`checkBaseLocation, this`baseIsLeft, this`baseIsRight
      ensures !checkBaseLocation
      ensures baseIsLeft == (old(baseIsLeft)
        || (old(checkBaseLocation) && exists b :: b in bases && OwnBase(b, team) && b.position.x < MAP_MIDDLE_X))
      ensures baseIsRight == (old(baseIsRight)
        || (old(checkBaseLocation) && exists b :: b in bases && OwnBase(b, team) && b.position.x > MAP_MIDDLE_X))
    {
      if checkBaseLocation {
        var i := 0;
        while i < |bases|
          invariant 0 <= i <= |bases|
          invariant baseIsLeft == (old(baseIsLeft) || exists j :: 0 <= j < i && OwnBase(bases[j], team) && bases[j].position.x < MAP_MIDDLE_X)
          invariant baseIsRight == (old(baseIsRight) || exists j :: 0 <= j < i && OwnBase(bases[j], team) && bases[j].position.x > MAP_MIDDLE_X)
        {
          var base := bases[i];
          if OwnBase(base, team) && base.position.x < MAP_MIDDLE_X {
            baseIsLeft := true;
          }
          if OwnBase(base, team) && base.position.x > MAP_MIDDLE_X {
            baseIsRight := true;
          }
          i := i + 1;
        }
        assert forall b :: b in bases ==> exists j :: 0 <= j < |bases| && bases[j] == b;
      }
      checkBaseLocation := false;
    }

    /**
     * getAsteroidCollectorAction: deposit when holding more than 1000
     * resources or any core, refuel at the nearest beacon below 3000 energy,
     * chase a core within 200, retarget when idle or just off the base, and
     * otherwise keep the current action. Each rule says whether the ship is
     * going for base and for a core; only retargeting clears justHitBase and
     * claims an asteroid, and with no free asteroid it yields null.
     */
    method GetAsteroidCollectorAction(sp: Space, ship: GameObject, cur: Current)
      returns (r: Option<Action>, ghost picked: Option<GameObject>)
      modifies book, this`goingForCore
      ensures var rule := CollectorRuleOf(sp, ship, cur, old(book.JustHit(ship.id)));
        && (rule != RetargetRule ==> book.justHitBase == old(book.justHitBase) && book.asteroidToShipMap == old(book.asteroidToShipMap))
        && (rule == DepositRule ==>
              && r.Some? && DepositMove(sp, ship, r.value)
              && book.aimingForBase == old(book.aimingForBase)[ship.id := true] && goingForCore == old(goingForCore)[ship.id := false])
        && (rule == BeaconRule ==>
              && r.Some? && BeaconMove(sp, ship, r.value)
              && book.aimingForBase == old(book.aimingForBase)[ship.id := false] && goingForCore == old(goingForCore)[ship.id := false])
        && (rule == CoreRule ==>
              && r.Some? && CoreMove(sp, ship, r.value)
              && book.aimingForBase == old(book.aimingForBase)[ship.id := false] && goingForCore == old(goingForCore)[ship.id := true])
        && (rule == RetargetRule ==>
              && BestFree(old(book.asteroidToShipMap), sp.asteroids, ship, sp.dist, picked)
              && r == (if picked.Some? then Some(MoveTo(picked, true)) else None)
              && book.asteroidToShipMap == (if picked.Some? then old(book.asteroidToShipMap)[picked.value.id := ship]
                                            else old(book.asteroidToShipMap))
              && book.aimingForBase == old(book.aimingForBase)[ship.id := false]
              && book.justHitBase == old(book.justHitBase)[ship.id := false]
              && goingForCore == old(goingForCore)[ship.id := false])
        && (rule == KeepRule ==>
              && r == cur.action && r.Some?
              && book.aimingForBase == old(book.aimingForBase) && goingForCore == old(goingForCore))
    {
      picked := None;
      if ship.resources > COLLECTOR_RESOURCE_LIMIT || ship.cores > 0 {
        var a := book.Deposit(sp, ship);
        goingForCore := goingForCore[ship.id := false];
        return Some(a), picked;
      }
      if ship.energy < COLLECTOR_LOW_ENERGY {
        var beacon := FindNearestBeacon(sp.beacons, ship, sp.dist);
        var a := if beacon.None? then DoNothing else MoveTo(beacon, false);
        book.SetAiming(ship.id, false);
        goingForCore := goingForCore[ship.id := false];
        return Some(a), picked;
      }
      var nearbyCore := PickNearestCore(sp.cores, ship, sp.dist, CORE_PICKUP_DISTANCE);
      if nearbyCore.Some? {
        goingForCore := goingForCore[ship.id := true];
        book.SetAiming(ship.id, false);
        return Some(MoveTo(nearbyCore, true)), picked;
      }
      if Idle(cur) || book.JustHit(ship.id) {
        var asteroid := book.Retarget(sp, ship);
        picked := asteroid;
        goingForCore := goingForCore[ship.id := false];
        r := if asteroid.Some? then Some(MoveTo(asteroid, true)) else None;
        return r, picked;
      }
      r := cur.action;
    }

    /**
     * The flag ship's branch: carrying the flag, it heads for the nearest own
     * base and aims for it. Otherwise the count replans at 20 (a null path
     * throws), the next waypoint is polled off the list, and the action is
     * always overwritten by a leading move to the enemy flag, which throws
     * when there is none.
     */
    method FlagShipAction(sp: Space, ship: GameObject, enemy: Option<GameObject>, plan: GameObject -> Option<seq<Position>>)
      returns (r: Access<Option<Action>>)
      requires Valid()
      modifies this`timeSincePlan, this`pointsToVisit, book`aimingForBase
      ensures Valid()
      ensures ship.carryingFlag ==>
        && r.Value? && r.value.Some? && DepositMove(sp, ship, r.value.value)
        && book.aimingForBase == old(book.aimingForBase)[ship.id := true]
        && timeSincePlan == old(timeSincePlan) && pointsToVisit == old(pointsToVisit)
      ensures !ship.carryingFlag ==>
        && book.aimingForBase == old(book.aimingForBase)
        && timeSincePlan == NextTimeSincePlan(old(timeSincePlan))
        && (r.Thrown? <==> enemy.None? || (old(timeSincePlan) >= REPLAN_AT && plan(ship).None?))
        && (r.Value? ==> r.value == Some(MoveTo(enemy, true)))
        && (r.Value? ==> pointsToVisit == Polled(if old(timeSincePlan) >= REPLAN_AT then plan(ship) else old(pointsToVisit)))
    {
      if ship.carryingFlag {
        var a := book.Deposit(sp, ship);
        return Value(Some(a));
      }
      if timeSincePlan >= REPLAN_AT {
        timeSincePlan := 0;
        var path := plan(ship);
        if path.None? {
          return Thrown;
        }
        pointsToVisit := path;
      } else {
        timeSincePlan := timeSincePlan + 1;
      }
      var action: Option<Action> := None;
      if pointsToVisit.Some? && |pointsToVisit.value| > 0 {
        action := Some(MoveToPosition(pointsToVisit.value[0]));
        pointsToVisit := Some(pointsToVisit.value[1..]);
      }
      if enemy.None? {
        return Thrown;
      }
      action := Some(MoveTo(enemy, true));
      r := Value(action);
    }

    /**
     * A guard's branch: the enemy flag's distance from the stored guard is
     * taken first (throwing when there is no enemy flag); a stored guard
     * carrying the flag aims for base, but its move there is always
     * overwritten by GuardMove.
     */
    method GuardAction(sp: Space, ship: GameObject, guard: GameObject, enemy: Option<GameObject>, grab: real, post: Position)
      returns (r: Access<Option<Action>>)
      modifies book`aimingForBase
      ensures r.Thrown? <==> enemy.None?
      ensures r.Thrown? ==> book.aimingForBase == old(book.aimingForBase)
      ensures r.Value? ==> r.value == Some(GuardMove(guard, enemy.value, grab, post, sp.dist))
      ensures r.Value? ==> book.aimingForBase == if guard.carryingFlag then old(book.aimingForBase)[ship.id := true] else old(book.aimingForBase)
    {
      if enemy.None? {
        return Thrown;
      }
      var action: Option<Action> := None;
      if guard.carryingFlag {
        var a := book.Deposit(sp, ship);
        action := Some(a);
      }
      if sp.dist(guard.position, enemy.value.position) < grab {
        action := Some(MoveTo(enemy, true));
      } else {
        action := Some(MoveToPosition(post));
      }
      r := Value(action);
    }

    /** The entry getMovementStart makes for one actionable object, by its role. */
    method ActionFor(sp: Space, o: GameObject, flagShip: Option<GameObject>, enemy: Option<GameObject>, cur: Current,
                     plan: GameObject -> Option<seq<Position>>, droneAction: GameObject -> Action)
      returns (r: Access<Option<Action>>)
      requires Valid()
      modifies this`timeSincePlan, this`pointsToVisit, this`goingForCore, book
      ensures Valid()
      ensures r.Value? ==> EntryFits(sp, o, RoleOf(o, flagShip, flagGuard1, flagGuard2), enemy, cur, r.value, droneAction, flagGuard1, flagGuard2)
      ensures r.Thrown? ==> enemy.None? || plan(o).None?
    {
      match RoleOf(o, flagShip, flagGuard1, flagGuard2)
      case FlagShipRole =>
        r := FlagShipAction(sp, o, enemy, plan);
      case Guard1Role =>
        r := GuardAction(sp, o, flagGuard1.value, enemy, GUARD_1_GRAB_DISTANCE, GUARD_POSITION_1);
      case Guard2Role =>
        // Valid rules out the null first guard whose position this branch reads.
        r := GuardAction(sp, o, flagGuard2.value, enemy, GUARD_2_GRAB_DISTANCE, GUARD_POSITION_2);
      case CollectorRole =>
        var a, _ := GetAsteroidCollectorAction(sp, o, cur);
        r := Value(a);
      case DroneRole =>
        r := Value(Some(droneAction(o)));
      case OtherRole =>
        r := Value(Some(DoNothing));
    }

    /** The loop of getMovementStart: one entry per actionable object, by its role; an exception ends it. */
    method ActionsFor(sp: Space, actionable: seq<GameObject>, flagShip: Option<GameObject>, enemy: Option<GameObject>,
                      currentOf: Uuid -> Current, plan: GameObject -> Option<seq<Position>>, droneAction: GameObject -> Action)
      returns (r: Access<map<Uuid, Option<Action>>>)
      requires Valid() && Distinct(Ids(actionable))
      modifies this`timeSincePlan, this`pointsToVisit, this`goingForCore, book
      ensures Valid()
      ensures r.Thrown? ==> enemy.None? || exists o :: o in actionable && plan(o).None?
      ensures r.Value? ==> forall k :: k in r.value <==> exists o :: o in actionable && o.id == k
      ensures r.Value? ==> forall o :: o in actionable ==>
        EntryFits(sp, o, RoleOf(o, flagShip, flagGuard1, flagGuard2), enemy, currentOf(o.id), r.value[o.id],
                  droneAction, flagGuard1, flagGuard2)
    {
      var actions: map<Uuid, Option<Action>> := map[];
      var i := 0;
      while i < |actionable|
        invariant 0 <= i <= |actionable|
        invariant Valid()
        invariant forall k :: k in actions <==> exists j :: 0 <= j < i && actionable[j].id == k
        invariant forall j :: 0 <= j < i ==>
          EntryFits(sp, actionable[j], RoleOf(actionable[j], flagShip, flagGuard1, flagGuard2), enemy, currentOf(actionable[j].id),
                    actions[actionable[j].id], droneAction, flagGuard1, flagGuard2)
      {
        var o := actionable[i];
        EarlierIdsDiffer(actionable, i);
        var action := ActionFor(sp, o, flagShip, enemy, currentOf(o.id), plan, droneAction);
        if action.Thrown? {
          return Thrown;
        }
        actions := actions[o.id := action.value];
        i := i + 1;
      }
      assert forall o :: o in actionable ==> exists j :: 0 <= j < |actionable| && actionable[j] == o;
      r := Value(actions);
    }

    /**
     * getMovementStart: the base side is checked on the first call, the flag
     * ship is chosen (throwing as ChooseFlagShip does), and each actionable
     * object gets the entry of its role; an exception ends the call.
     */
    method GetMovementStart(sp: Space, actionable: seq<GameObject>, currentOf: Uuid -> Current,
                            plan: GameObject -> Option<seq<Position>>, droneAction: GameObject -> Action)
      returns (r: Access<map<Uuid, Option<Action>>>, ghost flagShip: Option<GameObject>)
      requires Valid() && Distinct(Ids(actionable))
      modifies this`timeSincePlan, this`pointsToVisit, this`goingForCore, this`checkBaseLocation, this`baseIsLeft, this`baseIsRight, book
      ensures Valid() && !checkBaseLocation
      ensures baseIsLeft == (old(baseIsLeft)
        || (old(checkBaseLocation) && exists b :: b in sp.bases && OwnBase(b, team) && b.position.x < MAP_MIDDLE_X))
      ensures baseIsRight == (old(baseIsRight)
        || (old(checkBaseLocation) && exists b :: b in sp.bases && OwnBase(b, team) && b.position.x > MAP_MIDDLE_X))
      ensures flagShip.Some? ==> flagShip.value in actionable && flagShip.value.kind == ShipKind
      ensures flagShip.Some? && !flagShip.value.carryingFlag ==>
        (forall o :: o in actionable ==> !CarriesFlag(o)) && LastEnemyFlag(sp.flags, team).Some?
        && Eligible(flagShip.value, LastEnemyFlag(sp.flags, team).value.position, sp.dist)
      ensures r.Thrown? ==> LastEnemyFlag(sp.flags, team).None? || exists o :: o in actionable && plan(o).None?
      ensures r.Value? ==> forall k :: k in r.value <==> exists o :: o in actionable && o.id == k
      ensures r.Value? ==> forall o :: o in actionable ==>
        EntryFits(sp, o, RoleOf(o, flagShip, flagGuard1, flagGuard2), LastEnemyFlag(sp.flags, team), currentOf(o.id), r.value[o.id],
                  droneAction, flagGuard1, flagGuard2)
    {
      CheckBaseLocation(sp.bases);
      var enemy := GetEnemyFlag(sp.flags, team);
      var chosen := ChooseFlagShip(actionable, enemy, sp.dist);
      flagShip := None;
      if chosen.Thrown? {
        return Thrown, flagShip;
      }
      var ship := chosen.value;
      flagShip := ship;
      r := ActionsFor(sp, actionable, ship, enemy, currentOf, plan, droneAction);
    }

    /**
     * The claim clean-up of getMovementEnd: the claims on dead or moveable
     * asteroids go; a claimed id that no longer resolves to an object is
     * skipped and so keeps its claim.
     */
    method RemoveFinishedAsteroids(order: seq<Uuid>, objects: map<Uuid, GameObject>)
      requires forall k :: k in order <==> k in book.asteroidToShipMap
      modifies book`asteroidToShipMap
      ensures forall k :: k in book.asteroidToShipMap <==> k in old(book.asteroidToShipMap) && ClaimKept(objects, k)
      ensures forall k :: k in book.asteroidToShipMap ==> book.asteroidToShipMap[k] == old(book.asteroidToShipMap)[k]
    {
      var finished: seq<Uuid> := [];
      var i := 0;
      while i < |order|
        invariant 0 <= i <= |order|
        invariant forall k :: k in finished <==> k in order[..i] && !ClaimKept(objects, k)
      {
        var k := order[i];
        assert order[..i + 1] == order[..i] + [k];
        if k in objects && (!objects[k].alive || objects[k].moveable) {
          finished := finished + [k];
        }
        i := i + 1;
      }
      assert order[..|order|] == order;
      var j := 0;
      while j < |finished|
        invariant 0 <= j <= |finished|
        invariant forall k :: k in book.asteroidToShipMap <==> k in old(book.asteroidToShipMap) && k !in finished[..j]
        invariant forall k :: k in book.asteroidToShipMap ==> book.asteroidToShipMap[k] == old(book.asteroidToShipMap)[k]
      {
        assert finished[..j + 1] == finished[..j] + [finished[j]];
        book.asteroidToShipMap := book.asteroidToShipMap - {finished[j]};
        j := j + 1;
      }
      assert finished[..|finished|] == finished;
    }

    /**
     * The bounce rule of getMovementEnd: every ship aiming for base (in key
     * order) is looked up, which throws when it is gone, and one that holds
     * no resources, flags or cores is no longer aiming for base, has just
     * hit it, and is not going for a core.
     */
    method MarkBaseHits(order: seq<Uuid>, objects: map<Uuid, GameObject>) returns (r: Access<()>)
      requires Distinct(order) && forall k :: k in order <==> k in book.aimingForBase
      modifies book`aimingForBase, book`justHitBase, this`goingForCore
      ensures r.Thrown? <==> exists k :: k in old(book.aimingForBase) && old(book.aimingForBase)[k] && k !in objects
      ensures book.aimingForBase.Keys == old(book.aimingForBase).Keys
      ensures r.Value? ==> forall k :: k in book.aimingForBase ==>
        book.aimingForBase[k] == (old(book.aimingForBase)[k] && !Emptied(objects[k]))
      ensures r.Value? ==> forall k :: k in book.justHitBase <==> k in old(book.justHitBase) || FlagHitBase(old(book.aimingForBase), objects, k)
      ensures r.Value? ==> forall k :: k in book.justHitBase ==>
        book.justHitBase[k] == (FlagHitBase(old(book.aimingForBase), objects, k) || old(book.justHitBase)[k])
      ensures r.Value? ==> forall k :: k in goingForCore <==> k in old(goingForCore) || FlagHitBase(old(book.aimingForBase), objects, k)
      ensures r.Value? ==> forall k :: k in goingForCore ==>
        goingForCore[k] == (!FlagHitBase(old(book.aimingForBase), objects, k) && old(goingForCore)[k])
    {
      ghost var aim0, hit0, core0 := book.aimingForBase, book.justHitBase, goingForCore;
      r := MarkAll(order, objects, aim0, hit0, core0);
      if r.Value? {
        MarkedAll(book.aimingForBase, book.justHitBase, goingForCore, order, objects, aim0, hit0, core0);
      }
    }

    /** The bounce loop: visit the ids in order, stopping at the first failed lookup. */
    method MarkAll(order: seq<Uuid>, objects: map<Uuid, GameObject>,
                   ghost aim0: map<Uuid, bool>, ghost hit0: map<Uuid, bool>, ghost core0: map<Uuid, bool>)
      returns (r: Access<()>)
      requires Distinct(order) && forall k :: k in order <==> k in aim0
      requires MarkedUpTo([], objects, aim0, hit0, core0)
      modifies book`aimingForBase, book`justHitBase, this`goingForCore
      ensures book.aimingForBase.Keys == aim0.Keys
      ensures r.Thrown? ==> exists k :: k in aim0 && aim0[k] && k !in objects
      ensures r.Value? ==> MarkedUpTo(order, objects, aim0, hit0, core0)
    {
      var i := 0;
      while i < |order|
        invariant 0 <= i <= |order|
        invariant MarkedUpTo(order[..i], objects, aim0, hit0, core0)
      {
        r := MarkOne(order, i, objects, aim0, hit0, core0);
        if r.Thrown? {
          assert order[i] in aim0 && aim0[order[i]] && order[i] !in objects;
          return;
        }
        i := i + 1;
      }
      assert order[..|order|] == order;
      r := Value(());
    }

    /** The bounce rule after the ids of done, on the claim book and goingForCore. */
    ghost predicate MarkedUpTo(done: seq<Uuid>, objects: map<Uuid, GameObject>,
                               aim0: map<Uuid, bool>, hit0: map<Uuid, bool>, core0: map<Uuid, bool>)
      reads this, book
    {
      Marked(book.aimingForBase, book.justHitBase, goingForCore, done, objects, aim0, hit0, core0)
    }

    /** One turn of the bounce loop: the i-th id, looked up when it is aiming for base. */
    method MarkOne(order: seq<Uuid>, i: nat, objects: map<Uuid, GameObject>,
                   ghost aim0: map<Uuid, bool>, ghost hit0: map<Uuid, bool>, ghost core0: map<Uuid, bool>)
      returns (r: Access<()>)
      requires Distinct(order) && i < |order| && order[i] in aim0
      requires MarkedUpTo(order[..i], objects, aim0, hit0, core0)
      modifies book`aimingForBase, book`justHitBase, this`goingForCore
      ensures r.Thrown? <==> aim0[order[i]] && order[i] !in objects
      ensures book.aimingForBase.Keys == aim0.Keys
      ensures r.Value? ==> MarkedUpTo(order[..i + 1], objects, aim0, hit0, core0)
    {
      var id := order[i];
      assert order[..i + 1] == order[..i] + [id];
      NotYetVisited(order, i);
      MarkedUntouched(book.aimingForBase, book.justHitBase, goingForCore, order[..i], id, objects, aim0, hit0, core0);
      if book.aimingForBase[id] {
        if id !in objects {
          return Thrown;
        }
        if Emptied(objects[id]) {
          MarkedBounce(book.aimingForBase, book.justHitBase, goingForCore, order[..i], id, objects, aim0, hit0, core0);
          book.aimingForBase := book.aimingForBase[id := false];
          book.justHitBase := book.justHitBase[id := true];
          goingForCore := goingForCore[id := false];
          return Value(());
        }
      }
      MarkedSkip(book.aimingForBase, book.justHitBase, goingForCore, order[..i], id, objects, aim0, hit0, core0);
      r := Value(());
    }

    /** getMovementEnd: the claim clean-up, then the bounce rule. */
    method GetMovementEnd(claimOrder: seq<Uuid>, aimOrder: seq<Uuid>, objects: map<Uuid, GameObject>) returns (r: Access<()>)
      requires forall k :: k in claimOrder <==> k in book.asteroidToShipMap
      requires Distinct(aimOrder) && forall k :: k in aimOrder <==> k in book.aimingForBase
      modifies book, this`goingForCore
      ensures forall k :: k in book.asteroidToShipMap <==> k in old(book.asteroidToShipMap) && ClaimKept(objects, k)
      ensures r.Thrown? <==> exists k :: k in old(book.aimingForBase) && old(book.aimingForBase)[k] && k !in objects
      ensures r.Value? ==> book.aimingForBase.Keys == old(book.aimingForBase).Keys && forall k :: k in book.aimingForBase ==>
        book.aimingForBase[k] == (old(book.aimingForBase)[k] && !Emptied(objects[k]))
      ensures r.Value? ==> forall k :: k in book.justHitBase <==> k in old(book.justHitBase) || FlagHitBase(old(book.aimingForBase), objects, k)
      ensures r.Value? ==> forall k :: k in goingForCore <==> k in old(goingForCore) || FlagHitBase(old(book.aimingForBase), objects, k)
    {
      RemoveFinishedAsteroids(claimOrder, objects);
      r := MarkBaseHits(aimOrder, objects);
    }

    /**
     * The guard choice of getTeamPurchases: a missing first guard becomes the
     * last ship nearer the choice point than Double.MAX_VALUE, and none
     * leaves it null, whose position is then read (throwing). Once the first
     * guard is within 150 of its post, the second becomes the last other
     * ship accepted near the second post, starting from the first search's
     * answer, or null.
     */
    method ChooseGuards(actionable: seq<GameObject>, dist: Distance) returns (r: Access<()>)
      requires Valid()
      modifies this`flagGuard1, this`flagGuard2
      ensures Valid()
      ensures r.Thrown? <==> old(flagGuard1).None? && LastNear(actionable, None, GUARD_1_CHOICE_POINT, dist, None).None?
      ensures flagGuard1 == if old(flagGuard1).Some? then old(flagGuard1) else LastNear(actionable, None, GUARD_1_CHOICE_POINT, dist, None)
      ensures r.Thrown? ==> flagGuard2 == old(flagGuard2)
      ensures r.Value? ==>
        flagGuard2 == if dist(flagGuard1.value.position, GUARD_POSITION_1) < GUARD_1_ARRIVED_DISTANCE
                      then LastNear(actionable, Some(flagGuard1.value.id), GUARD_POSITION_2, dist, if old(flagGuard1).None? then flagGuard1 else None)
                      else old(flagGuard2)
    {
      var bestShip: Option<GameObject> := None;
      if flagGuard1.None? {
        bestShip := LastShipNear(actionable, None, GUARD_1_CHOICE_POINT, dist, None);
        flagGuard1 := bestShip;
      }
      if flagGuard1.None? {
        return Thrown;
      }
      if dist(flagGuard1.value.position, GUARD_POSITION_1) < GUARD_1_ARRIVED_DISTANCE {
        bestShip := LastShipNear(actionable, Some(flagGuard1.value.id), GUARD_POSITION_2, dist, bestShip);
        flagGuard2 := bestShip;
      }
      r := Value(());
    }

    /**
     * The base buying of the guards: with no own base within 150 of the first
     * post, the first guard buys one when it stands at that post; with one
     * there and an own base strictly within 100 of the second post (the
     * inverted base2Exist test), the second guard buys one when at its post.
     * A purchase clears noflagGuard1Base.
     */
    method GuardBase(actionable: seq<GameObject>, bases: seq<GameObject>, dist: Distance) returns (buyer: Option<Uuid>)
      requires flagGuard1.Some?
      modifies this`noflagGuard1Base
      ensures buyer.None? <==> !Base1Buy(actionable, bases, team, flagGuard1, dist) && !Base2Buy(actionable, bases, team, flagGuard2, dist)
      ensures buyer.Some? ==>
        (buyer.value == flagGuard1.value.id && Base1Buy(actionable, bases, team, flagGuard1, dist))
        || (flagGuard2.Some? && buyer.value == flagGuard2.value.id && Base2Buy(actionable, bases, team, flagGuard2, dist))
      ensures noflagGuard1Base == (old(noflagGuard1Base) && buyer.None?)
    {
      var base1Exist := PostHasBase(bases, team, GUARD_POSITION_1, dist, POST_1_BASE_DISTANCE);
      var base2Exist := NoBaseBelow(bases, team, GUARD_POSITION_2, dist, POST_2_BASE_DISTANCE);
      buyer := None;
      if !base1Exist {
        var found := GuardAtPost(actionable, flagGuard1, GUARD_POSITION_1, dist);
        if found {
          buyer := Some(flagGuard1.value.id);
          noflagGuard1Base := false;
        }
      }
      if base1Exist && !base2Exist {
        var found := GuardAtPost(actionable, flagGuard2, GUARD_POSITION_2, dist);
        if found {
          buyer := Some(flagGuard2.value.id);
          noflagGuard1Base := false;
        }
      }
    }

    /**
     * getTeamPurchases: a drone for the first ship holding a core and a core
     * for the first holding none; when a base is affordable the guards are
     * chosen (throwing as ChooseGuards does) and a guard at its post may buy
     * one; and if no base was bought, the first base buys a ship.
     */
    method GetTeamPurchases(actionable: seq<GameObject>, bases: seq<GameObject>, dist: Distance, canAfford: PurchaseType -> bool)
      returns (r: Access<map<Uuid, PurchaseType>>)
      requires Valid() && Distinct(Ids(actionable))
      modifies this`flagGuard1, this`flagGuard2, this`noflagGuard1Base
      ensures Valid()
      ensures r.Thrown? <==> canAfford(BuyBase) && old(flagGuard1).None? && LastNear(actionable, None, GUARD_1_CHOICE_POINT, dist, None).None?
      ensures !canAfford(BuyBase) ==>
        flagGuard1 == old(flagGuard1) && flagGuard2 == old(flagGuard2) && noflagGuard1Base == old(noflagGuard1Base)
      ensures canAfford(BuyBase) ==>
        flagGuard1 == if old(flagGuard1).Some? then old(flagGuard1) else LastNear(actionable, None, GUARD_1_CHOICE_POINT, dist, None)
      ensures r.Thrown? ==> flagGuard2 == old(flagGuard2) && noflagGuard1Base == old(noflagGuard1Base)
      ensures canAfford(BuyBase) && r.Value? ==> flagGuard1.Some?
      ensures canAfford(BuyBase) && r.Value? && flagGuard1.Some? ==>
        flagGuard2 == if dist(flagGuard1.value.position, GUARD_POSITION_1) < GUARD_1_ARRIVED_DISTANCE
                      then LastNear(actionable, Some(flagGuard1.value.id), GUARD_POSITION_2, dist, if old(flagGuard1).None? then flagGuard1 else None)
                      else old(flagGuard2)
      ensures r.Value? ==> noflagGuard1Base == (old(noflagGuard1Base) && !Bought(r.value, BuyBase))
      ensures r.Value? ==> PurchasesFit(actionable, bases, team, flagGuard1, flagGuard2, dist, canAfford, r.value)
    {
      var buyer: Option<Uuid> := None;
      if canAfford(BuyBase) {
        var chosen := ChooseGuards(actionable, dist);
        if chosen.Thrown? {
          return Thrown;
        }
        buyer := GuardBase(actionable, bases, dist);
      }
      var p := BuildPurchases(actionable, bases, team, flagGuard1, flagGuard2, dist, canAfford, buyer);
      r := Value(p);
    }
  }

  /** getObjectById's answer for a claimed id: null, or alive and not moveable, keeps the claim. */
  predicate ClaimKept(objects: map<Uuid, GameObject>, k: Uuid)
  {
    k !in objects || (objects[k].alive && !objects[k].moveable)
  }

  /** A ship that has dropped off everything: no resources, no flag and no core. */
  predicate Emptied(ship: GameObject)
  {
    ship.resources == 0 && ship.flags == 0 && ship.cores == 0
  }

  /** The bounce test of the flag collector: aiming for base, still there, and emptied. */
  predicate FlagHitBase(aiming: map<Uuid, bool>, objects: map<Uuid, GameObject>, k: Uuid)
  {
    k in aiming && aiming[k] && k in objects && Emptied(objects[k])
  }

  /**
   * The bounce rule after the ids of done: those of them that bounced are no
   * longer aiming for base, have just hit it and are not going for a core;
   * every other entry is as it was; and every id of done that was aiming for
   * base was found among the objects.
   */
  ghost predicate Marked(aim: map<Uuid, bool>, hit: map<Uuid, bool>, core: map<Uuid, bool>, done: seq<Uuid>,
                         objects: map<Uuid, GameObject>,
                         aim0: map<Uuid, bool>, hit0: map<Uuid, bool>, core0: map<Uuid, bool>)
  {
    && aim.Keys == aim0.Keys
    && (forall k :: k in aim0 && k in done && aim0[k] ==> k in objects)
    && (forall k :: k in aim ==> aim[k] == (if k in done && FlagHitBase(aim0, objects, k) then false else aim0[k]))
    && (forall k :: k in hit <==> k in hit0 || (k in done && FlagHitBase(aim0, objects, k)))
    && (forall k :: k in hit ==> hit[k] == ((k in done && FlagHitBase(aim0, objects, k)) || hit0[k]))
    && (forall k :: k in core <==> k in core0 || (k in done && FlagHitBase(aim0, objects, k)))
    && (forall k :: k in core ==> core[k] == (!(k in done && FlagHitBase(aim0, objects, k)) && core0[k]))
  }

  /** Once every aiming id is visited, the bounce rule holds of each entry and nothing aiming was missing. */
  lemma MarkedAll(aim: map<Uuid, bool>, hit: map<Uuid, bool>, core: map<Uuid, bool>, done: seq<Uuid>,
                  objects: map<Uuid, GameObject>,
                  aim0: map<Uuid, bool>, hit0: map<Uuid, bool>, core0: map<Uuid, bool>)
    requires Marked(aim, hit, core, done, objects, aim0, hit0, core0) && forall k :: k in aim0 ==> k in done
    ensures !exists k :: k in aim0 && aim0[k] && k !in objects
    ensures aim.Keys == aim0.Keys && forall k :: k in aim ==> aim[k] == (aim0[k] && !Emptied(objects[k]))
    ensures forall k :: k in hit <==> k in hit0 || FlagHitBase(aim0, objects, k)
    ensures forall k :: k in hit ==> hit[k] == (FlagHitBase(aim0, objects, k) || hit0[k])
    ensures forall k :: k in core <==> k in core0 || FlagHitBase(aim0, objects, k)
    ensures forall k :: k in core ==> core[k] == (!FlagHitBase(aim0, objects, k) && core0[k])
  {
  }

  /** An id not yet visited still has its first aiming entry. */
  lemma MarkedUntouched(aim: map<Uuid, bool>, hit: map<Uuid, bool>, core: map<Uuid, bool>, done: seq<Uuid>, id: Uuid,
                        objects: map<Uuid, GameObject>,
                        aim0: map<Uuid, bool>, hit0: map<Uuid, bool>, core0: map<Uuid, bool>)
    requires Marked(aim, hit, core, done, objects, aim0, hit0, core0) && id in aim0 && id !in done
    ensures id in aim && aim[id] == aim0[id]
  {
  }

  /** Visiting an id that does not bounce (and whose lookup succeeded if it was aiming) changes nothing. */
  lemma MarkedSkip(aim: map<Uuid, bool>, hit: map<Uuid, bool>, core: map<Uuid, bool>, done: seq<Uuid>, id: Uuid,
                   objects: map<Uuid, GameObject>,
                   aim0: map<Uuid, bool>, hit0: map<Uuid, bool>, core0: map<Uuid, bool>)
    requires Marked(aim, hit, core, done, objects, aim0, hit0, core0) && id in aim0 && id !in done
    requires aim0[id] ==> id in objects && !Emptied(objects[id])
    ensures Marked(aim, hit, core, done + [id], objects, aim0, hit0, core0)
  {
    assert !FlagHitBase(aim0, objects, id);
    assert forall k :: k in done + [id] <==> k in done || k == id;
  }

  /** Visiting an id that bounces clears its aim and core flags and sets its hit flag. */
  lemma MarkedBounce(aim: map<Uuid, bool>, hit: map<Uuid, bool>, core: map<Uuid, bool>, done: seq<Uuid>, id: Uuid,
                     objects: map<Uuid, GameObject>,
                     aim0: map<Uuid, bool>, hit0: map<Uuid, bool>, core0: map<Uuid, bool>)
    requires Marked(aim, hit, core, done, objects, aim0, hit0, core0) && id in aim0 && id !in done
    requires aim0[id] && id in objects && Emptied(objects[id])
    ensures Marked(aim[id := false], hit[id := true], core[id := false], done + [id], objects, aim0, hit0, core0)
  {
    assert FlagHitBase(aim0, objects, id);
    assert forall k :: k in done + [id] <==> k in done || k == id;
  }

  /** The first guard buys a base: no own base within 150 of the first post, and the guard at it. */
  predicate Base1Buy(actionable: seq<GameObject>, bases: seq<GameObject>, team: string, guard1: Option<GameObject>, dist: Distance)
  {
    !(exists b :: b in bases && OwnBase(b, team) && dist(GUARD_POSITION_1, b.position) <= POST_1_BASE_DISTANCE)
    && AtPost(actionable, guard1, GUARD_POSITION_1, dist)
  }

  /** The second guard buys a base: an own base within 150 of the first post, one strictly within 100 of the second, and the guard at it. */
  predicate Base2Buy(actionable: seq<GameObject>, bases: seq<GameObject>, team: string, guard2: Option<GameObject>, dist: Distance)
  {
    (exists b :: b in bases && OwnBase(b, team) && dist(GUARD_POSITION_1, b.position) <= POST_1_BASE_DISTANCE)
    && (exists b :: b in bases && OwnBase(b, team) && dist(GUARD_POSITION_2, b.position) < POST_2_BASE_DISTANCE)
    && AtPost(actionable, guard2, GUARD_POSITION_2, dist)
  }

  /**
   * The drone (or core) purchases of a map as getTeamPurchases leaves it:
   * one is made only when affordable and only by the first ship holding a
   * core (or none); and when affordable, that first ship buys it unless the
   * base purchase replaced its entry.
   */
  ghost predicate FirstBuyersFit(actionable: seq<GameObject>, afford: bool, p: map<Uuid, PurchaseType>, drone: bool)
  {
    var t := if drone then BuyDrone else BuyCore;
    && (Bought(p, t) ==> afford)
    && (forall k :: k in p && p[k] == t ==>
          exists i :: 0 <= i < |actionable| && actionable[i].id == k && Buyer(actionable[i], drone)
            && forall j :: 0 <= j < i ==> !Buyer(actionable[j], drone))
    && (forall i ::
          0 <= i < |actionable| && afford && Buyer(actionable[i], drone) && (forall j :: 0 <= j < i ==> !Buyer(actionable[j], drone))
          ==> actionable[i].id in p && (p[actionable[i].id] == t || p[actionable[i].id] == BuyBase))
  }

  /**
   * What getTeamPurchases promises of its map: at most one purchase of each
   * type; the drone and the core go to the first ships that hold a core and
   * none, each when affordable and not replaced by the base purchase; a
   * base is bought exactly when affordable and a guard qualifies, and by
   * that guard; a ship is bought exactly when affordable, no base was
   * bought and the client has a base, and by the first base.
   */
  ghost predicate PurchasesFit(actionable: seq<GameObject>, bases: seq<GameObject>, team: string,
                               guard1: Option<GameObject>, guard2: Option<GameObject>, dist: Distance,
                               canAfford: PurchaseType -> bool, p: map<Uuid, PurchaseType>)
  {
    && AtMostOne(p, BuyDrone) && AtMostOne(p, BuyCore) && AtMostOne(p, BuyBase) && AtMostOne(p, BuyShip)
    && FirstBuyersFit(actionable, canAfford(BuyDrone), p, true)
    && FirstBuyersFit(actionable, canAfford(BuyCore), p, false)
    && (Bought(p, BuyBase) <==>
          canAfford(BuyBase) && (Base1Buy(actionable, bases, team, guard1, dist) || Base2Buy(actionable, bases, team, guard2, dist)))
    && (forall k :: k in p && p[k] == BuyBase ==>
          (guard1.Some? && k == guard1.value.id && Base1Buy(actionable, bases, team, guard1, dist))
          || (guard2.Some? && k == guard2.value.id && Base2Buy(actionable, bases, team, guard2, dist)))
    && (Bought(p, BuyShip) <==>
          canAfford(BuyShip) && !Bought(p, BuyBase) && exists o :: o in actionable && o.kind == BaseKind)
    && (forall k :: k in p && p[k] == BuyShip ==>
          exists i :: 0 <= i < |actionable| && actionable[i].id == k && actionable[i].kind == BaseKind
            && forall j :: 0 <= j < i ==> actionable[j].kind != BaseKind)
  }

  /**
   * The purchases map of getTeamPurchases, given the guard (if any) that
   * buys a base: drones and cores first, then the base, then the ship.
   */
  method BuildPurchases(actionable: seq<GameObject>, bases: seq<GameObject>, team: string,
                        guard1: Option<GameObject>, guard2: Option<GameObject>, dist: Distance,
                        canAfford: PurchaseType -> bool, buyer: Option<Uuid>)
    returns (p: map<Uuid, PurchaseType>)
    requires Distinct(Ids(actionable))
    requires buyer.Some? <==>
      canAfford(BuyBase) && (Base1Buy(actionable, bases, team, guard1, dist) || Base2Buy(actionable, bases, team, guard2, dist))
    requires buyer.Some? ==>
      (guard1.Some? && buyer.value == guard1.value.id && Base1Buy(actionable, bases, team, guard1, dist))
      || (guard2.Some? && buyer.value == guard2.value.id && Base2Buy(actionable, bases, team, guard2, dist))
    ensures PurchasesFit(actionable, bases, team, guard1, guard2, dist, canAfford, p)
  {
    assert buyer.Some? ==> exists o :: o in actionable && o.id == buyer.value && o.kind == ShipKind;
    var p1 := DronesCoresAndBase(actionable, canAfford(BuyDrone), canAfford(BuyCore), buyer);
    p := AddShipPurchase(actionable, p1, canAfford(BuyShip) && buyer.None?);
    ShipPurchaseKeeps(actionable, canAfford(BuyDrone), true, p1, p);
    ShipPurchaseKeeps(actionable, canAfford(BuyCore), false, p1, p);
    BasesAndShipsFit(actionable, bases, team, guard1, guard2, dist, canAfford, buyer, p1, p);
  }

  /** The drone and core purchases of getTeamPurchases with the guard's base purchase put over them. */
  method DronesCoresAndBase(actionable: seq<GameObject>, affordDrone: bool, affordCore: bool, buyer: Option<Uuid>)
    returns (p1: map<Uuid, PurchaseType>)
    requires Distinct(Ids(actionable))
    requires buyer.Some? ==> exists o :: o in actionable && o.id == buyer.value && o.kind == ShipKind
    ensures forall k :: k in p1 ==> exists o :: o in actionable && o.id == k && o.kind == ShipKind
    ensures forall k :: k in p1 ==> p1[k] != BuyShip
    ensures forall k :: k in p1 && p1[k] == BuyBase ==> buyer == Some(k)
    ensures Bought(p1, BuyBase) <==> buyer.Some?
    ensures AtMostOne(p1, BuyDrone) && AtMostOne(p1, BuyCore)
    ensures FirstBuyersFit(actionable, affordDrone, p1, true) && FirstBuyersFit(actionable, affordCore, p1, false)
  {
    var p0 := BuyDronesAndCores(actionable, affordDrone, affordCore);
    p1 := AddBasePurchase(actionable, p0, buyer);
    DronesAndCoresKept(actionable, affordDrone, affordCore, p0, p1);
  }

  /**
   * The base purchase of getTeamPurchases, put over the drone and core
   * purchases: it may replace the guard's own drone or core purchase.
   */
  method AddBasePurchase(actionable: seq<GameObject>, p0: map<Uuid, PurchaseType>, buyer: Option<Uuid>)
    returns (p1: map<Uuid, PurchaseType>)
    requires forall k :: k in p0 ==> p0[k] == BuyDrone || p0[k] == BuyCore
    requires forall k :: k in p0 ==> exists o :: o in actionable && o.id == k && o.kind == ShipKind
    requires buyer.Some? ==> exists o :: o in actionable && o.id == buyer.value && o.kind == ShipKind
    ensures forall k :: k in p1 ==> exists o :: o in actionable && o.id == k && o.kind == ShipKind
    ensures forall k :: k in p1 ==> p1[k] != BuyShip
    ensures forall k :: k in p1 && p1[k] != BuyBase ==> k in p0 && p1[k] == p0[k]
    ensures forall k :: k in p0 ==> k in p1 && (p1[k] == p0[k] || p1[k] == BuyBase)
    ensures forall k :: k in p1 && p1[k] == BuyBase ==> buyer == Some(k)
    ensures Bought(p1, BuyBase) <==> buyer.Some?
  {
    p1 := p0;
    if buyer.Some? {
      p1 := p1[buyer.value := BuyBase];
    }
  }

  /**
   * The ship purchase of getTeamPurchases: when allowed, the first base among
   * the actionable objects buys a ship; as no ship holds that id, every
   * earlier purchase stays.
   */
  method AddShipPurchase(actionable: seq<GameObject>, p1: map<Uuid, PurchaseType>, allowed: bool)
    returns (p: map<Uuid, PurchaseType>)
    requires Distinct(Ids(actionable))
    requires forall k :: k in p1 ==> exists o :: o in actionable && o.id == k && o.kind == ShipKind
    requires forall k :: k in p1 ==> p1[k] != BuyShip
    ensures forall k :: k in p1 ==> k in p && p[k] == p1[k]
    ensures forall k :: k in p && k !in p1 ==> p[k] == BuyShip
    ensures Bought(p, BuyShip) <==> allowed && exists o :: o in actionable && o.kind == BaseKind
    ensures AtMostOne(p, BuyShip)
    ensures forall k :: k in p && p[k] == BuyShip ==>
      exists i :: 0 <= i < |actionable| && actionable[i].id == k && actionable[i].kind == BaseKind
        && forall j :: 0 <= j < i ==> actionable[j].kind != BaseKind
  {
    p := p1;
    if allowed {
      var base := FirstOfKind(actionable, BaseKind);
      if base.Some? {
        var b := base.value;
        assert b in actionable;
        forall k | k in p1
          ensures k != b.id
        {
          var o :| o in actionable && o.id == k && o.kind == ShipKind;
          if k == b.id {
            SameIdSameObject(actionable, o, b);
          }
        }
        p := p[b.id := BuyShip];
        assert b.id in p && p[b.id] == BuyShip;
      }
    }
  }

  /** The drone and core purchases survive the base step, except where the base purchase replaced one. */
  lemma {:induction false} DronesAndCoresKept(actionable: seq<GameObject>, affordDrone: bool, affordCore: bool,
                           p0: map<Uuid, PurchaseType>, p1: map<Uuid, PurchaseType>)
    requires AtMostOne(p0, BuyDrone) && AtMostOne(p0, BuyCore)
    requires forall k :: k in p0 && p0[k] == BuyDrone ==>
      exists i :: 0 <= i < |actionable| && actionable[i].id == k && DroneBuyer(actionable[i])
        && forall j :: 0 <= j < i ==> !DroneBuyer(actionable[j])
    requires forall k :: k in p0 && p0[k] == BuyCore ==>
      exists i :: 0 <= i < |actionable| && actionable[i].id == k && CoreBuyer(actionable[i])
        && forall j :: 0 <= j < i ==> !CoreBuyer(actionable[j])
    requires Bought(p0, BuyDrone) <==> affordDrone && exists o :: o in actionable && DroneBuyer(o)
    requires Bought(p0, BuyCore) <==> affordCore && exists o :: o in actionable && CoreBuyer(o)
    requires forall k :: k in p0 ==> k in p1 && (p1[k] == p0[k] || p1[k] == BuyBase)
    requires forall k :: k in p1 && p1[k] != BuyBase ==> k in p0 && p1[k] == p0[k]
    ensures AtMostOne(p1, BuyDrone) && AtMostOne(p1, BuyCore)
    ensures FirstBuyersFit(actionable, affordDrone, p1, true)
    ensures FirstBuyersFit(actionable, affordCore, p1, false)
  {
    FirstBuyerKept(actionable, affordDrone, true, p0, p1);
    FirstBuyerKept(actionable, affordCore, false, p0, p1);
  }

  /** The purchases of one of the two types, drone or core, through the base step. */
  lemma {:induction false} FirstBuyerKept(actionable: seq<GameObject>, afford: bool, drone: bool,
                           p0: map<Uuid, PurchaseType>, p1: map<Uuid, PurchaseType>)
    requires var t := if drone then BuyDrone else BuyCore;
      && (forall k :: k in p0 && p0[k] == t ==>
            exists i :: 0 <= i < |actionable| && actionable[i].id == k && Buyer(actionable[i], drone)
              && forall j :: 0 <= j < i ==> !Buyer(actionable[j], drone))
      && (Bought(p0, t) <==> afford && exists o :: o in actionable && Buyer(o, drone))
    requires forall k :: k in p0 ==> k in p1 && (p1[k] == p0[k] || p1[k] == BuyBase)
    requires forall k :: k in p1 && p1[k] != BuyBase ==> k in p0 && p1[k] == p0[k]
    ensures FirstBuyersFit(actionable, afford, p1, drone)
  {
    var t := if drone then BuyDrone else BuyCore;
    forall i | 0 <= i < |actionable| && afford && Buyer(actionable[i], drone)
        && (forall j :: 0 <= j < i ==> !Buyer(actionable[j], drone))
      ensures actionable[i].id in p1 && (p1[actionable[i].id] == t || p1[actionable[i].id] == BuyBase)
    {
      assert actionable[i] in actionable;
      var k :| k in p0 && p0[k] == t;
      var i' :| 0 <= i' < |actionable| && actionable[i'].id == k && Buyer(actionable[i'], drone)
        && forall j :: 0 <= j < i' ==> !Buyer(actionable[j], drone);
      assert i' == i;
    }
  }

  /** The ship step only adds a ship purchase, so the drone and core purchases stay as they were. */
  lemma {:induction false} ShipPurchaseKeeps(actionable: seq<GameObject>, afford: bool, drone: bool,
                           p1: map<Uuid, PurchaseType>, p: map<Uuid, PurchaseType>)
    requires AtMostOne(p1, if drone then BuyDrone else BuyCore)
    requires FirstBuyersFit(actionable, afford, p1, drone)
    requires forall k :: k in p1 ==> k in p && p[k] == p1[k]
    requires forall k :: k in p && k !in p1 ==> p[k] == BuyShip
    ensures AtMostOne(p, if drone then BuyDrone else BuyCore)
    ensures FirstBuyersFit(actionable, afford, p, drone)
  {
    var t := if drone then BuyDrone else BuyCore;
    assert forall k :: k in p && p[k] == t ==> k in p1 && p1[k] == t;
  }

  /** The base purchase is the qualifying guard's, and the ship purchase is made only when no base was bought. */
  lemma {:induction false} BasesAndShipsFit(actionable: seq<GameObject>, bases: seq<GameObject>, team: string,
                         guard1: Option<GameObject>, guard2: Option<GameObject>, dist: Distance,
                         canAfford: PurchaseType -> bool, buyer: Option<Uuid>, p1: map<Uuid, PurchaseType>, p: map<Uuid, PurchaseType>)
    requires buyer.Some? <==>
      canAfford(BuyBase) && (Base1Buy(actionable, bases, team, guard1, dist) || Base2Buy(actionable, bases, team, guard2, dist))
    requires buyer.Some? ==>
      (guard1.Some? && buyer.value == guard1.value.id && Base1Buy(actionable, bases, team, guard1, dist))
      || (guard2.Some? && buyer.value == guard2.value.id && Base2Buy(actionable, bases, team, guard2, dist))
    requires forall k :: k in p1 && p1[k] == BuyBase ==> buyer == Some(k)
    requires Bought(p1, BuyBase) <==> buyer.Some?
    requires forall k :: k in p1 ==> k in p && p[k] == p1[k]
    requires forall k :: k in p && k !in p1 ==> p[k] == BuyShip
    requires Bought(p, BuyShip) <==> (canAfford(BuyShip) && buyer.None?) && exists o :: o in actionable && o.kind == BaseKind
    ensures AtMostOne(p, BuyBase)
    ensures Bought(p, BuyBase) <==>
      canAfford(BuyBase) && (Base1Buy(actionable, bases, team, guard1, dist) || Base2Buy(actionable, bases, team, guard2, dist))
    ensures forall k :: k in p && p[k] == BuyBase ==>
      (guard1.Some? && k == guard1.value.id && Base1Buy(actionable, bases, team, guard1, dist))
      || (guard2.Some? && k == guard2.value.id && Base2Buy(actionable, bases, team, guard2, dist))
    ensures Bought(p, BuyShip) <==> canAfford(BuyShip) && !Bought(p, BuyBase) && exists o :: o in actionable && o.kind == BaseKind
  {
    assert forall k :: k in p && p[k] == BuyBase ==> k in p1 && p1[k] == BuyBase;
    if buyer.Some? {
      var k :| k in p1 && p1[k] == BuyBase;
      assert k in p && p[k] == BuyBase;
    }
  }

  /** With distinct ids, two objects of the sequence with the same id are the same object. */
  lemma {:induction false} SameIdSameObject(objs: seq<GameObject>, a: GameObject, b: GameObject)
    requires Distinct(Ids(objs)) && a in objs && b in objs && a.id == b.id
    ensures a == b
  {
    var i :| 0 <= i < |objs| && objs[i] == a;
    var j :| 0 <= j < |objs| && objs[j] == b;
    assert Ids(objs)[i] == a.id && Ids(objs)[j] == b.id;
  }
}
