/**
 * What the asteroid-collecting team clients share: the actions they hand to
 * the simulator, the parts of the space they read, and the per-ship
 * bookkeeping FriendyAgentBDSM, BDSM_AStarTestAgent and BDSM_BadSearchAgent
 * keep in three hash maps (the asteroid-to-ship claim map, aimingForBase and
 * justHitBase) together with the end-of-turn and purchase rules they share
 * word for word.
 */
module TeamClients {
  import opened Wrappers
  import opened JavaNum
  import opened GameObjects
  import opened AgentUtils

  /**
   * An action handed to the simulator. MoveToObject is MoveToObjectAction or
   * BDSMMoveToObjectAction: its target is None when the object passed in was
   * null, and leading is set when the target's velocity was passed as well.
   * MoveToPosition is MoveAction or BDSMMoveAction.
   */
  datatype Action = DoNothing | MoveToObject(target: Option<Uuid>, leading: bool) | MoveToPosition(goal: Position)

  /** A move toward a possibly null object. */
  function MoveTo(o: Option<GameObject>, leading: bool): Action
  {
    MoveToObject(if o.Some? then Some(o.value.id) else None, leading)
  }

  /** A ship's current action (null when it has none) and whether the engine reports its movement finished. */
  datatype Current = Current(action: Option<Action>, finished: bool)

  /** The retarget test on the current action: null or finished. */
  predicate Idle(c: Current)
  {
    c.action.None? || c.finished
  }

  /**
   * The parts of Toroidal2DPhysics a team client reads: the object sets in
   * their iteration order, getObjectById (absent ids are null), and
   * findShortestDistance.
   */
  datatype Space = Space(
    bases: seq<GameObject>,
    cores: seq<GameObject>,
    beacons: seq<GameObject>,
    asteroids: seq<GameObject>,
    flags: seq<GameObject>,
    objects: map<Uuid, GameObject>,
    dist: Distance)

  /** Each set holds objects of its kind, and getObjectById returns the object with the id asked for. */
  predicate WellFormed(sp: Space)
  {
    (forall o :: o in sp.bases ==> o.kind == BaseKind)
    && (forall o :: o in sp.cores ==> o.kind == AiCoreKind)
    && (forall o :: o in sp.beacons ==> o.kind == BeaconKind)
    && (forall o :: o in sp.asteroids ==> o.kind == AsteroidKind)
    && (forall o :: o in sp.flags ==> o.kind == FlagKind)
    && Indexed(sp.objects)
  }

  /** getObjectById(id) has that id. */
  predicate Indexed(objects: map<Uuid, GameObject>)
  {
    forall k :: k in objects ==> objects[k].id == k
  }

  /** No id appears twice in a key order or object set. */
  predicate Distinct(ids: seq<Uuid>)
  {
    forall i, j :: 0 <= i < j < |ids| ==> ids[i] != ids[j]
  }

  /** With distinct ids, no object shares its id with an earlier one. */
  lemma {:induction false} EarlierIdsDiffer(objs: seq<GameObject>, i: int)
    requires Distinct(Ids(objs)) && 0 <= i < |objs|
    ensures forall j :: 0 <= j < i ==> objs[j].id != objs[i].id
  {
  }

  /** The ids of a sequence of objects. */
  function Ids(objs: seq<GameObject>): (r: seq<Uuid>)
    ensures |r| == |objs| && forall i :: 0 <= i < |objs| ==> r[i] == objs[i].id
  {
    if |objs| == 0 then [] else Ids(objs[..|objs| - 1]) + [objs[|objs| - 1].id]
  }

  /** PurchaseTypes. */
  datatype PurchaseType = BuyBase | BuyShip | BuyDrone | BuyCore

  /** The BASE_BUYING_DISTANCE of the asteroid-collecting clients. */
  const BASE_BUYING_DISTANCE: real := 350.0

  /** The search-comparison clients search again once timeSincePlan has reached this count. */
  const REPLAN_AT: int := 20

  /** timeSincePlan after one chase: reset when a search runs, otherwise one more. */
  function NextTimeSincePlan(t: int): int
  {
    if t >= REPLAN_AT then 0 else t + 1
  }

  /** timeSincePlan after k chases from a starting count. */
  function TimeSincePlanAfter(start: int, k: nat): int
  {
    if k == 0 then start else NextTimeSincePlan(TimeSincePlanAfter(start, k - 1))
  }

  /**
   * The replanning schedule: from a count in range, the count after k chases
   * is (start + k) mod 21, so a search runs on chase k exactly when
   * start + k is 20 more than a multiple of 21 (the first chase when the
   * count starts at 20, and every 21st chase after that).
   */
  lemma {:induction false} ReplanSchedule(start: int, k: nat)
    requires 0 <= start <= REPLAN_AT
    ensures TimeSincePlanAfter(start, k) == (start + k) % (REPLAN_AT + 1)
    ensures TimeSincePlanAfter(start, k) >= REPLAN_AT <==> (start + k) % (REPLAN_AT + 1) == REPLAN_AT
  {
    if k > 0 {
      ReplanSchedule(start, k - 1);
      CountStep(start + k - 1);
    }
  }

  /** Counting one further modulo 21 wraps from 20 to 0. */
  lemma CountStep(n: nat)
    ensures (n + 1) % (REPLAN_AT + 1) == if n % (REPLAN_AT + 1) == REPLAN_AT then 0 else n % (REPLAN_AT + 1) + 1
  {
    var q := n / (REPLAN_AT + 1);
    var t := n % (REPLAN_AT + 1);
    assert n == q * (REPLAN_AT + 1) + t;
    if t == REPLAN_AT {
      assert n + 1 == (q + 1) * (REPLAN_AT + 1);
    } else {
      assert n + 1 == q * (REPLAN_AT + 1) + (t + 1);
    }
  }

  /** The asteroids no ship has claimed, in iteration order. */
  function Unclaimed(claims: map<Uuid, GameObject>, asteroids: seq<GameObject>): (r: seq<GameObject>)
    ensures forall a :: a in r <==> a in asteroids && a.id !in claims
  {
    if |asteroids| == 0 then []
    else
      var rest := Unclaimed(claims, asteroids[..|asteroids| - 1]);
      var a := asteroids[|asteroids| - 1];
      assert forall b :: b in asteroids <==> b in asteroids[..|asteroids| - 1] || b == a;
      if a.id in claims then rest else rest + [a]
  }

  /**
   * What pickHighestValueNearestFreeAsteroid promises: among the asteroids
   * not in the claim map, starting from Integer.MIN_VALUE money and
   * Double.MAX_VALUE distance, an asteroid replaces the best so far only if
   * it is mineable and both richer and closer. So the result is null exactly
   * when no unclaimed asteroid passes the starting bar, a result is a free
   * mineable asteroid that beat the best held before it, no later unclaimed
   * asteroid beats it, and it is exactly the fold BestSoFar over the
   * unclaimed asteroids.
   */
  predicate BestFree(claims: map<Uuid, GameObject>, asteroids: seq<GameObject>, ship: GameObject, dist: Distance,
                     r: Option<GameObject>)
  {
    var free := Unclaimed(claims, asteroids);
    var d := ToShip(dist, ship);
    (r.Some? ==>
       r.value in asteroids && r.value.id !in claims && r.value.mineable && d(r.value) < DOUBLE_MAX)
    && (r.None? <==>
          forall a :: a in asteroids && a.id !in claims ==> !Improves(a, d, DOUBLE_MAX, DOUBLE_MAX, INT_MIN as real))
    && (r.Some? ==>
          exists i :: 0 <= i < |free| && free[i] == r.value && ImprovedAt(free, d, DOUBLE_MAX, DOUBLE_MAX, i))
    && r == BestSoFar(free, d, DOUBLE_MAX, DOUBLE_MAX)
  }

  /** pickHighestValueNearestFreeAsteroid, over the claim map it reads. */
  method PickHighestValueNearestFreeAsteroid(claims: map<Uuid, GameObject>, asteroids: seq<GameObject>,
                                             ship: GameObject, dist: Distance)
    returns (r: Option<GameObject>)
    ensures BestFree(claims, asteroids, ship, dist, r)
  {
    var free := Unclaimed(claims, asteroids);
    r := BestAsteroidWithin(free, ToShip(dist, ship), DOUBLE_MAX, DOUBLE_MAX);
    BestSoFarAt(free, ToShip(dist, ship), DOUBLE_MAX, DOUBLE_MAX);
  }

  /**
   * What findNearestEnergySource promises: the nearest of the ship's team's
   * cores and the beacons, when it is nearer than every own base. A core
   * wins a tie with a beacon, and within each kind the first one found wins.
   * It is null exactly when no such source is nearer than the nearest own base.
   */
  ghost predicate EnergySource(sp: Space, ship: GameObject, e: Option<GameObject>)
  {
    (e.Some? ==>
       && e.value.kind != BaseKind
       && (e.value in sp.beacons || (e.value in sp.cores && SameTeamIgnoreCase(e.value, ship)))
       && sp.dist(ship.position, e.value.position) < DOUBLE_MAX
       && (forall b :: b in sp.bases && SameTeamIgnoreCase(b, ship) ==>
             sp.dist(ship.position, e.value.position) < sp.dist(ship.position, b.position))
       && (forall o :: (o in sp.cores && SameTeamIgnoreCase(o, ship)) || o in sp.beacons ==>
             sp.dist(ship.position, e.value.position) <= sp.dist(ship.position, o.position))
       && (e.value.kind == BeaconKind ==> forall c :: c in sp.cores && SameTeamIgnoreCase(c, ship) ==>
             sp.dist(ship.position, e.value.position) < sp.dist(ship.position, c.position))
       && (e.value.kind == AiCoreKind ==>
             exists i :: 0 <= i < |sp.cores| && sp.cores[i] == e.value &&
               forall j :: 0 <= j < i && SameTeamIgnoreCase(sp.cores[j], ship) ==>
                 sp.dist(ship.position, e.value.position) < sp.dist(ship.position, sp.cores[j].position))
       && (e.value.kind == BeaconKind ==>
             exists i :: 0 <= i < |sp.beacons| && sp.beacons[i] == e.value &&
               forall j :: 0 <= j < i ==>
                 sp.dist(ship.position, e.value.position) < sp.dist(ship.position, sp.beacons[j].position)))
    && (e.None? <==>
          forall o :: (o in sp.cores && SameTeamIgnoreCase(o, ship)) || o in sp.beacons ==>
            sp.dist(ship.position, o.position) >= DOUBLE_MAX ||
            exists b :: b in sp.bases && SameTeamIgnoreCase(b, ship) &&
              sp.dist(ship.position, b.position) <= sp.dist(ship.position, o.position))
  }

  /** findNearestEnergySource over the bases, cores and beacons of the space. */
  method NearestEnergySource(sp: Space, ship: GameObject) returns (e: Option<GameObject>)
    requires WellFormed(sp)
    ensures EnergySource(sp, ship, e)
  {
    e := FindNearestEnergySource(sp.bases, sp.cores, sp.beacons, ship, sp.dist);
  }

  /** What the refuelling rule of the collectors promises: a move (without leading) to the energy source, or null. */
  ghost predicate EnergyMove(sp: Space, ship: GameObject, r: Option<Action>)
  {
    (r.Some? ==> exists e: GameObject :: r.value == MoveToObject(Some(e.id), false) && EnergySource(sp, ship, Some(e)))
    && (r.None? ==> EnergySource(sp, ship, None))
  }

  /**
   * What the deposit rule promises: a move (without leading) to the nearest
   * base of the ship's team, or toward null when every own base is at
   * Double.MAX_VALUE or more.
   */
  ghost predicate DepositMove(sp: Space, ship: GameObject, r: Action)
  {
    r.MoveToObject? && !r.leading
    && (r.target.None? <==>
          forall b :: b in sp.bases && SameTeamIgnoreCase(b, ship) ==> sp.dist(ship.position, b.position) >= DOUBLE_MAX)
    && (r.target.Some? ==>
          exists b ::
            b in sp.bases && SameTeamIgnoreCase(b, ship) && b.id == r.target.value
            && forall c :: c in sp.bases && SameTeamIgnoreCase(c, ship) ==>
                 sp.dist(ship.position, b.position) <= sp.dist(ship.position, c.position))
  }

  /** The three maps every asteroid-collecting client keeps. */
  class ClaimBook {
    var asteroidToShipMap: map<Uuid, GameObject>
    var aimingForBase: map<Uuid, bool>
    var justHitBase: map<Uuid, bool>

    /** initialize: three empty maps. */
    constructor ()
      ensures asteroidToShipMap == map[] && aimingForBase == map[] && justHitBase == map[]
    {
      asteroidToShipMap := map[];
      aimingForBase := map[];
      justHitBase := map[];
    }

    /** The justHitBase test of the retarget rule: present and true. */
    predicate JustHit(id: Uuid)
      reads this
    {
      id in justHitBase && justHitBase[id]
    }

    /** asteroidToShipMap.put: the asteroid is claimed by the ship; other claims stay. */
    method Claim(asteroid: GameObject, ship: GameObject)
      modifies this`asteroidToShipMap
      ensures asteroidToShipMap == old(asteroidToShipMap)[asteroid.id := ship]
    {
      asteroidToShipMap := asteroidToShipMap[asteroid.id := ship];
    }

    /** The two puts of the retarget rule: neither just hit the base nor aiming for it. */
    method ClearFlags(id: Uuid)
      modifies this`aimingForBase, this`justHitBase
      ensures aimingForBase == old(aimingForBase)[id := false] && justHitBase == old(justHitBase)[id := false]
    {
      justHitBase := justHitBase[id := false];
      aimingForBase := aimingForBase[id := false];
    }

    /** aimingForBase.put(id, b). */
    method SetAiming(id: Uuid, b: bool)
      modifies this`aimingForBase
      ensures aimingForBase == old(aimingForBase)[id := b]
    {
      aimingForBase := aimingForBase[id := b];
    }

    /**
     * Rule 1 of the collectors (energy below the threshold): head for
     * findNearestEnergySource's answer, and when there is one record whether
     * it is a base, which it never is.
     */
    method SeekEnergy(sp: Space, ship: GameObject) returns (r: Option<Action>)
      requires WellFormed(sp)
      modifies this`aimingForBase
      ensures EnergyMove(sp, ship, r)
      ensures aimingForBase == if r.Some? then old(aimingForBase)[ship.id := false] else old(aimingForBase)
    {
      var energyTarget := NearestEnergySource(sp, ship);
      r := None;
      if energyTarget.Some? {
        r := Some(MoveTo(energyTarget, false));
        SetAiming(ship.id, energyTarget.value.kind == BaseKind);
      }
    }

    /** Rule 2 of the collectors (resources above the threshold): head for the nearest own base and aim for it. */
    method Deposit(sp: Space, ship: GameObject) returns (r: Action)
      modifies this`aimingForBase
      ensures DepositMove(sp, ship, r)
      ensures aimingForBase == old(aimingForBase)[ship.id := true]
    {
      var base := FindNearestBase(sp.bases, ship, sp.dist);
      r := MoveTo(base, false);
      SetAiming(ship.id, true);
    }

    /**
     * Rule 3 of the collectors: clear both flags, pick the best free
     * asteroid, and claim it for the ship when there is one.
     */
    method Retarget(sp: Space, ship: GameObject) returns (target: Option<GameObject>)
      modifies this
      ensures BestFree(old(asteroidToShipMap), sp.asteroids, ship, sp.dist, target)
      ensures aimingForBase == old(aimingForBase)[ship.id := false] && justHitBase == old(justHitBase)[ship.id := false]
      ensures asteroidToShipMap == if target.Some? then old(asteroidToShipMap)[target.value.id := ship] else old(asteroidToShipMap)
    {
      ClearFlags(ship.id);
      target := PickHighestValueNearestFreeAsteroid(asteroidToShipMap, sp.asteroids, ship, sp.dist);
      if target.Some? {
        Claim(target.value, ship);
      }
    }

    /**
     * Claim clean-up as written in getMovementEnd: every finished asteroid's
     * id is removed, which throws at the first null on finishedAsteroids,
     * that is whenever some claimed id no longer resolves to an object.
     * Without a null, exactly the dead and the moveable claims go.
     */
    method RemoveFinishedClaimsAsWritten(order: seq<Uuid>, objects: map<Uuid, GameObject>) returns (r: Access<()>)
      requires Indexed(objects)
      requires forall k :: k in order <==> k in asteroidToShipMap
      modifies this`asteroidToShipMap
      ensures r.Thrown? <==> exists k :: k in old(asteroidToShipMap) && k !in objects
      ensures r.Value? ==>
        forall k :: k in asteroidToShipMap <==> k in old(asteroidToShipMap) && objects[k].alive && !objects[k].moveable
      ensures r.Thrown? ==>
        forall k :: k in old(asteroidToShipMap) && (k !in objects || (objects[k].alive && !objects[k].moveable)) ==>
          k in asteroidToShipMap
      ensures forall k :: k in asteroidToShipMap ==> k in old(asteroidToShipMap) && asteroidToShipMap[k] == old(asteroidToShipMap)[k]
    {
      var fin := CollectFinished(order, objects);
      FinishedFacts(order, objects);
      var i := 0;
      while i < |fin|
        invariant 0 <= i <= |fin|
        invariant forall j :: 0 <= j < i ==> fin[j].Some?
        invariant SomeIds(fin[..i]) <= SomeIds(fin)
        invariant forall k :: k in asteroidToShipMap <==> k in old(asteroidToShipMap) && k !in SomeIds(fin[..i])
        invariant forall k :: k in asteroidToShipMap ==> asteroidToShipMap[k] == old(asteroidToShipMap)[k]
      {
        if fin[i].None? {
          return Thrown;
        }
        var asteroid := fin[i].value;
        assert fin[..i + 1] == fin[..i] + [fin[i]];
        SomeIdsAppend(fin[..i], fin[i]);
        asteroidToShipMap := asteroidToShipMap - {asteroid.id};
        i := i + 1;
      }
      assert fin[..|fin|] == fin;
      r := Value(());
    }

    /**
     * Claim clean-up as evidently intended: a claimed id that no longer
     * resolves to an object is dropped like a dead or moveable one, so that
     * exactly the claims on living, unmoveable asteroids remain.
     */
    method RemoveFinishedClaims(order: seq<Uuid>, objects: map<Uuid, GameObject>)
      requires forall k :: k in order <==> k in asteroidToShipMap
      modifies this`asteroidToShipMap
      ensures forall k :: k in asteroidToShipMap <==>
        k in old(asteroidToShipMap) && k in objects && objects[k].alive && !objects[k].moveable
      ensures forall k :: k in asteroidToShipMap ==> asteroidToShipMap[k] == old(asteroidToShipMap)[k]
    {
      var finished: seq<Uuid> := [];
      var i := 0;
      while i < |order|
        invariant 0 <= i <= |order|
        invariant forall k :: k in finished <==> k in order[..i] && !(k in objects && objects[k].alive && !objects[k].moveable)
      {
        var k := order[i];
        assert order[..i + 1] == order[..i] + [k];
        if k !in objects || !objects[k].alive || objects[k].moveable {
          finished := finished + [k];
        }
        i := i + 1;
      }
      assert order[..|order|] == order;
      var j := 0;
      while j < |finished|
        invariant 0 <= j <= |finished|
        invariant forall k :: k in asteroidToShipMap <==> k in old(asteroidToShipMap) && k !in finished[..j]
        invariant forall k :: k in asteroidToShipMap ==> asteroidToShipMap[k] == old(asteroidToShipMap)[k]
      {
        assert finished[..j + 1] == finished[..j] + [finished[j]];
        asteroidToShipMap := asteroidToShipMap - {finished[j]};
        j := j + 1;
      }
      assert finished[..|finished|] == finished;
    }

    /**
     * The bounce rule of getMovementEnd: every ship aiming for base (in key
     * order) is looked up, which throws when it is gone, and one that holds
     * no resources any more is no longer aiming for base and has just hit it.
     */
    method MarkBaseHits(order: seq<Uuid>, objects: map<Uuid, GameObject>) returns (r: Access<()>)
      requires Distinct(order) && forall k :: k in order <==> k in aimingForBase
      modifies this`aimingForBase, this`justHitBase
      ensures r.Thrown? <==> exists k :: k in old(aimingForBase) && old(aimingForBase)[k] && k !in objects
      ensures aimingForBase.Keys == old(aimingForBase).Keys
      ensures r.Value? ==> forall k :: k in aimingForBase ==>
        aimingForBase[k] == (old(aimingForBase)[k] && objects[k].resources != 0)
      ensures r.Value? ==> forall k :: k in justHitBase <==> k in old(justHitBase) || HitBase(old(aimingForBase), objects, k)
      ensures r.Value? ==> forall k :: k in justHitBase ==>
        justHitBase[k] == (HitBase(old(aimingForBase), objects, k) || old(justHitBase)[k])
      ensures OnlyClears(old(aimingForBase), aimingForBase) && OnlySets(old(justHitBase), justHitBase)
    {
      ghost var aim0, hit0 := aimingForBase, justHitBase;
      var i := 0;
      while i < |order|
        invariant 0 <= i <= |order|
        invariant HitMarked(aimingForBase, justHitBase, order[..i], objects, aim0, hit0)
      {
        r := MarkOne(order, i, objects, aim0, hit0);
        if r.Thrown? {
          assert order[i] in aim0 && aim0[order[i]] && order[i] !in objects;
          HitMarkedMonotone(aimingForBase, justHitBase, order[..i], objects, aim0, hit0);
          return;
        }
        i := i + 1;
      }
      assert order[..|order|] == order;
      HitMarkedAll(aimingForBase, justHitBase, order, objects, aim0, hit0);
      HitMarkedMonotone(aimingForBase, justHitBase, order, objects, aim0, hit0);
      r := Value(());
    }

    /** One turn of the bounce loop: the i-th id, looked up when it is aiming for base. */
    method MarkOne(order: seq<Uuid>, i: nat, objects: map<Uuid, GameObject>,
                   ghost aim0: map<Uuid, bool>, ghost hit0: map<Uuid, bool>)
      returns (r: Access<()>)
      requires Distinct(order) && i < |order| && order[i] in aim0
      requires HitMarked(aimingForBase, justHitBase, order[..i], objects, aim0, hit0)
      modifies this`aimingForBase, this`justHitBase
      ensures r.Thrown? <==> aim0[order[i]] && order[i] !in objects
      ensures r.Thrown? ==> HitMarked(aimingForBase, justHitBase, order[..i], objects, aim0, hit0)
      ensures r.Value? ==> HitMarked(aimingForBase, justHitBase, order[..i + 1], objects, aim0, hit0)
    {
      var id := order[i];
      assert order[..i + 1] == order[..i] + [id];
      NotYetVisited(order, i);
      HitMarkedUntouched(aimingForBase, justHitBase, order[..i], id, objects, aim0, hit0);
      if aimingForBase[id] {
        if id !in objects {
          return Thrown;
        }
        var ship := objects[id];
        if ship.resources == 0 {
          HitMarkedBounce(aimingForBase, justHitBase, order[..i], id, objects, aim0, hit0);
          aimingForBase := aimingForBase[id := false];
          justHitBase := justHitBase[id := true];
          return Value(());
        }
      }
      HitMarkedSkip(aimingForBase, justHitBase, order[..i], id, objects, aim0, hit0);
      r := Value(());
    }

    /**
     * getMovementEnd, with the claim clean-up corrected: stale claims go,
     * then the bounce rule runs.
     */
    method GetMovementEnd(claimOrder: seq<Uuid>, aimOrder: seq<Uuid>, objects: map<Uuid, GameObject>) returns (r: Access<()>)
      requires forall k :: k in claimOrder <==> k in asteroidToShipMap
      requires Distinct(aimOrder) && forall k :: k in aimOrder <==> k in aimingForBase
      modifies this
      ensures forall k :: k in asteroidToShipMap <==>
        k in old(asteroidToShipMap) && k in objects && objects[k].alive && !objects[k].moveable
      ensures r.Thrown? <==> exists k :: k in old(aimingForBase) && old(aimingForBase)[k] && k !in objects
      ensures r.Value? ==> aimingForBase.Keys == old(aimingForBase).Keys && forall k :: k in aimingForBase ==>
        aimingForBase[k] == (old(aimingForBase)[k] && objects[k].resources != 0)
      ensures r.Value? ==> forall k :: k in justHitBase <==> k in old(justHitBase) || HitBase(old(aimingForBase), objects, k)
      ensures r.Value? ==> forall k :: k in justHitBase ==>
        justHitBase[k] == (HitBase(old(aimingForBase), objects, k) || (k in old(justHitBase) && old(justHitBase)[k]))
    {
      RemoveFinishedClaims(claimOrder, objects);
      r := MarkBaseHits(aimOrder, objects);
    }
  }

  /**
   * The first loop of getMovementEnd as written: for each claimed id in key
   * order, the looked-up asteroid goes on finishedAsteroids when it is
   * null, dead or moveable.
   */
  method CollectFinished(order: seq<Uuid>, objects: map<Uuid, GameObject>) returns (fin: seq<Option<GameObject>>)
    ensures fin == Finished(order, objects)
  {
    fin := [];
    var i := 0;
    while i < |order|
      invariant 0 <= i <= |order|
      invariant fin == Finished(order[..i], objects)
    {
      assert order[..i + 1][..i] == order[..i];
      var k := order[i];
      if k !in objects {
        fin := fin + [None];
      } else if !objects[k].alive || objects[k].moveable {
        fin := fin + [Some(objects[k])];
      }
      i := i + 1;
    }
    assert order[..|order|] == order;
  }

  /** The bounce test: aiming for base, still there, and holding nothing. */
  predicate HitBase(aiming: map<Uuid, bool>, objects: map<Uuid, GameObject>, k: Uuid)
  {
    k in aiming && aiming[k] && k in objects && objects[k].resources == 0
  }

  /** In a list without repeats, the i-th id is not among those before it. */
  lemma NotYetVisited(order: seq<Uuid>, i: nat)
    requires Distinct(order) && i < |order|
    ensures order[i] !in order[..i]
  {
    assert forall j :: 0 <= j < i ==> order[..i][j] == order[j];
  }

  /**
   * The bounce rule after the ids of done: those of them that bounced are no
   * longer aiming for base and have just hit it; every other entry is as it
   * was; and every id of done that was aiming for base was found.
   */
  ghost predicate HitMarked(aim: map<Uuid, bool>, hit: map<Uuid, bool>, done: seq<Uuid>,
                            objects: map<Uuid, GameObject>, aim0: map<Uuid, bool>, hit0: map<Uuid, bool>)
  {
    && aim.Keys == aim0.Keys
    && (forall k :: k in aim0 && k in done && aim0[k] ==> k in objects)
    && (forall k :: k in aim ==> aim[k] == (if k in done && HitBase(aim0, objects, k) then false else aim0[k]))
    && (forall k :: k in hit <==> k in hit0 || (k in done && HitBase(aim0, objects, k)))
    && (forall k :: k in hit ==> hit[k] == ((k in done && HitBase(aim0, objects, k)) || hit0[k]))
  }

  /** An id not yet visited still has its first aiming entry. */
  lemma HitMarkedUntouched(aim: map<Uuid, bool>, hit: map<Uuid, bool>, done: seq<Uuid>, id: Uuid,
                           objects: map<Uuid, GameObject>, aim0: map<Uuid, bool>, hit0: map<Uuid, bool>)
    requires HitMarked(aim, hit, done, objects, aim0, hit0) && id in aim0 && id !in done
    ensures id in aim && aim[id] == aim0[id]
  {
  }

  /** Visiting an id that does not bounce (and was found if it was aiming) changes nothing. */
  lemma HitMarkedSkip(aim: map<Uuid, bool>, hit: map<Uuid, bool>, done: seq<Uuid>, id: Uuid,
                      objects: map<Uuid, GameObject>, aim0: map<Uuid, bool>, hit0: map<Uuid, bool>)
    requires HitMarked(aim, hit, done, objects, aim0, hit0) && id in aim0 && id !in done
    requires aim0[id] ==> id in objects && objects[id].resources != 0
    ensures HitMarked(aim, hit, done + [id], objects, aim0, hit0)
  {
    assert !HitBase(aim0, objects, id);
    assert forall k :: k in done + [id] <==> k in done || k == id;
  }

  /** Visiting an id that bounces clears its aim flag and sets its hit flag. */
  lemma HitMarkedBounce(aim: map<Uuid, bool>, hit: map<Uuid, bool>, done: seq<Uuid>, id: Uuid,
                        objects: map<Uuid, GameObject>, aim0: map<Uuid, bool>, hit0: map<Uuid, bool>)
    requires HitMarked(aim, hit, done, objects, aim0, hit0) && id in aim0 && id !in done
    requires aim0[id] && id in objects && objects[id].resources == 0
    ensures HitMarked(aim[id := false], hit[id := true], done + [id], objects, aim0, hit0)
  {
    assert HitBase(aim0, objects, id);
    assert forall k :: k in done + [id] <==> k in done || k == id;
  }

  /** Part-way or not, the rule only ever clears aim flags and sets hit flags. */
  lemma HitMarkedMonotone(aim: map<Uuid, bool>, hit: map<Uuid, bool>, done: seq<Uuid>,
                          objects: map<Uuid, GameObject>, aim0: map<Uuid, bool>, hit0: map<Uuid, bool>)
    requires HitMarked(aim, hit, done, objects, aim0, hit0)
    ensures aim.Keys == aim0.Keys && OnlyClears(aim0, aim) && OnlySets(hit0, hit)
  {
  }

  /** Every flag set in after was set in before, on the same keys. */
  predicate OnlyClears(before: map<Uuid, bool>, after: map<Uuid, bool>)
  {
    after.Keys == before.Keys && forall k :: k in after && after[k] ==> before[k]
  }

  /** Every key of before stays, and every flag set in before stays set. */
  predicate OnlySets(before: map<Uuid, bool>, after: map<Uuid, bool>)
  {
    forall k :: k in before ==> k in after && (before[k] ==> after[k])
  }

  /** Once every aiming id is visited, the bounce rule holds of each entry and nothing aiming was missing. */
  lemma HitMarkedAll(aim: map<Uuid, bool>, hit: map<Uuid, bool>, done: seq<Uuid>,
                     objects: map<Uuid, GameObject>, aim0: map<Uuid, bool>, hit0: map<Uuid, bool>)
    requires HitMarked(aim, hit, done, objects, aim0, hit0) && forall k :: k in aim0 ==> k in done
    ensures !exists k :: k in aim0 && aim0[k] && k !in objects
    ensures forall k :: k in aim ==> aim[k] == (aim0[k] && objects[k].resources != 0)
    ensures forall k :: k in hit <==> k in hit0 || HitBase(aim0, objects, k)
    ensures forall k :: k in hit ==> hit[k] == (HitBase(aim0, objects, k) || hit0[k])
  {
  }

  /** finishedAsteroids: the null, dead or moveable lookups of the claimed ids, in key order. */
  function Finished(order: seq<Uuid>, objects: map<Uuid, GameObject>): seq<Option<GameObject>>
  {
    if |order| == 0 then []
    else
      var rest := Finished(order[..|order| - 1], objects);
      var k := order[|order| - 1];
      if k !in objects then rest + [None]
      else if !objects[k].alive || objects[k].moveable then rest + [Some(objects[k])]
      else rest
  }

  /** The ids of the non-null entries of finishedAsteroids. */
  function SomeIds(fin: seq<Option<GameObject>>): set<Uuid>
  {
    set j | 0 <= j < |fin| && fin[j].Some? :: fin[j].value.id
  }

  /** Appending an entry adds its id when it is not null. */
  lemma SomeIdsAppend(fin: seq<Option<GameObject>>, x: Option<GameObject>)
    ensures SomeIds(fin + [x]) == SomeIds(fin) + (if x.Some? then {x.value.id} else {})
  {
    var ext := fin + [x];
    assert forall j :: 0 <= j < |fin| ==> ext[j] == fin[j];
    assert ext[|fin|] == x;
  }

  /**
   * finishedAsteroids holds a null exactly for a claimed id that does not
   * resolve, and the ids of its other entries are those of the dead and the
   * moveable claimed asteroids.
   */
  lemma {:induction false} FinishedFacts(order: seq<Uuid>, objects: map<Uuid, GameObject>)
    requires Indexed(objects)
    ensures None in Finished(order, objects) <==> exists k :: k in order && k !in objects
    ensures forall k :: k in SomeIds(Finished(order, objects)) <==>
      k in order && k in objects && (!objects[k].alive || objects[k].moveable)
    ensures forall j :: 0 <= j < |Finished(order, objects)| && Finished(order, objects)[j].Some? ==>
      var a := Finished(order, objects)[j].value;
      a.id in order && a.id in objects && objects[a.id] == a
  {
    if |order| > 0 {
      var n := |order| - 1;
      var rest := Finished(order[..n], objects);
      FinishedFacts(order[..n], objects);
      assert forall k :: k in order <==> k in order[..n] || k == order[n];
      var k := order[n];
      if k !in objects {
        SomeIdsAppend(rest, None);
      } else if !objects[k].alive || objects[k].moveable {
        SomeIdsAppend(rest, Some(objects[k]));
      }
    }
  }

  /** With the claimed ids distinct, no asteroid is on finishedAsteroids twice. */
  lemma {:induction false} FinishedDistinct(order: seq<Uuid>, objects: map<Uuid, GameObject>)
    requires Indexed(objects) && Distinct(order)
    ensures var fin := Finished(order, objects);
      forall i, j :: 0 <= i < j < |fin| && fin[i].Some? && fin[j].Some? ==> fin[i].value.id != fin[j].value.id
  {
    if |order| > 0 {
      var n := |order| - 1;
      var rest := Finished(order[..n], objects);
      assert Distinct(order[..n]);
      FinishedDistinct(order[..n], objects);
      FinishedFacts(order[..n], objects);
      assert order[n] !in order[..n];
      var fin := Finished(order, objects);
      assert fin[..|rest|] == rest;
      forall j | 0 <= j < |rest| && rest[j].Some?
        ensures rest[j].value.id != order[n]
      {
        assert rest[j].value.id in order[..n];
      }
    }
  }

  /** A ship with no own-team base (team compared case-insensitively) closer than the limit. */
  predicate FarFromOwnBases(ship: GameObject, bases: seq<GameObject>, team: string, dist: Distance, limit: real)
  {
    forall b :: b in bases && EqualsIgnoreCase(b.team, team) ==> !(dist(ship.position, b.position) < limit)
  }

  /** The inner loop of getTeamPurchases: buyBase stays true unless some own-team base is closer than the limit. */
  method FarFromBases(ship: GameObject, bases: seq<GameObject>, team: string, dist: Distance, limit: real)
    returns (buyBase: bool)
    ensures buyBase <==> FarFromOwnBases(ship, bases, team, dist, limit)
  {
    buyBase := true;
    var i := 0;
    while i < |bases|
      invariant 0 <= i <= |bases|
      invariant buyBase <==> FarFromOwnBases(ship, bases[..i], team, dist, limit)
    {
      assert bases[..i + 1] == bases[..i] + [bases[i]];
      var base := bases[i];
      if EqualsIgnoreCase(base.team, team) {
        if dist(ship.position, base.position) < limit {
          buyBase := false;
        }
      }
      i := i + 1;
    }
    assert bases[..|bases|] == bases;
  }

  /** A ship of the actionable objects where a base may be bought. */
  predicate IsBaseSite(o: GameObject, bases: seq<GameObject>, team: string, dist: Distance, limit: real)
  {
    o.kind == ShipKind && FarFromOwnBases(o, bases, team, dist, limit)
  }

  /** The base-buying loop: the first ship, in iteration order, far from every own-team base. */
  method FirstBaseSite(actionable: seq<GameObject>, bases: seq<GameObject>, team: string, dist: Distance, limit: real)
    returns (r: Option<GameObject>)
    ensures r.None? <==> forall o :: o in actionable ==> !IsBaseSite(o, bases, team, dist, limit)
    ensures r.Some? ==>
      exists i :: 0 <= i < |actionable| && actionable[i] == r.value && IsBaseSite(r.value, bases, team, dist, limit)
        && forall j :: 0 <= j < i ==> !IsBaseSite(actionable[j], bases, team, dist, limit)
  {
    var i := 0;
    while i < |actionable|
      invariant 0 <= i <= |actionable|
      invariant forall j :: 0 <= j < i ==> !IsBaseSite(actionable[j], bases, team, dist, limit)
    {
      var o := actionable[i];
      if o.kind == ShipKind {
        var buyBase := FarFromBases(o, bases, team, dist, limit);
        if buyBase {
          return Some(o);
        }
      }
      i := i + 1;
    }
    r := None;
  }

  /** The ship-buying loop: the first base among the actionable objects. */
  method FirstOfKind(actionable: seq<GameObject>, k: Kind) returns (r: Option<GameObject>)
    ensures r.None? <==> forall o :: o in actionable ==> o.kind != k
    ensures r.Some? ==>
      exists i :: 0 <= i < |actionable| && actionable[i] == r.value && r.value.kind == k
        && forall j :: 0 <= j < i ==> actionable[j].kind != k
  {
    var i := 0;
    while i < |actionable|
      invariant 0 <= i <= |actionable|
      invariant forall j :: 0 <= j < i ==> actionable[j].kind != k
    {
      if actionable[i].kind == k {
        return Some(actionable[i]);
      }
      i := i + 1;
    }
    r := None;
  }

  /**
   * getTeamPurchases of the asteroid collectors: when a base is affordable,
   * the first ship with no own-team base within BASE_BUYING_DISTANCE buys
   * one; only if no base was bought and a ship is affordable does the first
   * base buy a ship. At most one purchase is made.
   */
  method GetTeamPurchases(actionable: seq<GameObject>, bases: seq<GameObject>, team: string, dist: Distance,
                          canAffordBase: bool, canAffordShip: bool)
    returns (p: map<Uuid, PurchaseType>)
    ensures |p| <= 1
    ensures (exists k :: k in p && p[k] == BuyBase) <==>
      canAffordBase && exists o :: o in actionable && IsBaseSite(o, bases, team, dist, BASE_BUYING_DISTANCE)
    ensures forall k :: k in p && p[k] == BuyBase ==>
      exists o :: o in actionable && o.id == k && IsBaseSite(o, bases, team, dist, BASE_BUYING_DISTANCE)
    ensures forall k :: k in p && p[k] == BuyShip ==>
      canAffordShip && exists o :: o in actionable && o.id == k && o.kind == BaseKind
    ensures (exists k :: k in p && p[k] == BuyShip) <==>
      canAffordShip && !(exists k :: k in p && p[k] == BuyBase) && exists o :: o in actionable && o.kind == BaseKind
    ensures forall k :: k in p ==> p[k] == BuyBase || p[k] == BuyShip
    ensures forall k :: k in p && p[k] == BuyBase ==>
      exists i :: 0 <= i < |actionable| && actionable[i].id == k && IsBaseSite(actionable[i], bases, team, dist, BASE_BUYING_DISTANCE)
        && forall j :: 0 <= j < i ==> !IsBaseSite(actionable[j], bases, team, dist, BASE_BUYING_DISTANCE)
    ensures forall k :: k in p && p[k] == BuyShip ==>
      exists i :: 0 <= i < |actionable| && actionable[i].id == k && actionable[i].kind == BaseKind
        && forall j :: 0 <= j < i ==> actionable[j].kind != BaseKind
  {
    p := map[];
    var boughtBase := false;
    if canAffordBase {
      var site := FirstBaseSite(actionable, bases, team, dist, BASE_BUYING_DISTANCE);
      if site.Some? {
        p := map[site.value.id := BuyBase];
        boughtBase := true;
      }
    }
    if !boughtBase && canAffordShip {
      var base := FirstOfKind(actionable, BaseKind);
      if base.Some? {
        p := map[base.value.id := BuyShip];
      }
    }
  }
}
