/**
 * spacesettlers.bost7517.BDSMFriendyModelBasedAgent: a collector that keeps
 * a ShipState object per ship (its target, the base flags, the energy seen
 * last step and its change, the last action) and drives each ship from that
 * state: refuel, deposit, pursue a new asteroid when idle, back from the base
 * or after its target died, otherwise continue.
 */
module ModelBasedAgents {
  import opened Wrappers
  import opened JavaNum
  import opened GameObjects
  import opened AgentUtils
  import opened TeamClients

  /** NO_TARGET, new UUID(0, 0). */
  const NO_TARGET: Uuid := Uuid(0)

  /** This client's LOW_ENERGY_THRESHOLD and RESOURCE_THRESHOLD. */
  const MODEL_LOW_ENERGY: real := 1500.0
  const MODEL_RESOURCE_LIMIT: real := 2000.0

  /** The fields of a ShipState at one moment. */
  datatype StateValue = StateValue(
    target: Uuid,
    aimingForBase: bool,
    justHitBase: bool,
    energy: real,
    energyDiff: real,
    isRunning: bool,
    runningFrom: Uuid,
    previousAction: Option<Action>)

  /** The field initialisers of ShipState. */
  const FRESH_STATE: StateValue := StateValue(NO_TARGET, false, false, 0.0, 0.0, false, NO_TARGET, None)

  /**
   * The observation update of getMovementStart: the energy seen now, and its
   * change since the last observation when one with positive energy was made
   * (zero otherwise).
   */
  function Observe(s: StateValue, currentEnergy: real): (t: StateValue)
    ensures t.energy == currentEnergy
    ensures s.energy > 0.0 ==> s.energy + t.energyDiff == currentEnergy
    ensures s.energy <= 0.0 ==> t.energyDiff == 0.0
    ensures t.(energy := s.energy, energyDiff := s.energyDiff) == s
  {
    s.(energy := currentEnergy, energyDiff := if s.energy > 0.0 then currentEnergy - s.energy else 0.0)
  }

  /** ShipState, the inner class. */
  class ShipState {
    /** The ship whose state this is. */
    ghost const owner: Uuid
    var target: Uuid
    var aimingForBase: bool
    var justHitBase: bool
    var energy: real
    var energyDiff: real
    var isRunning: bool
    var runningFrom: Uuid
    var previousAction: Option<Action>

    constructor (ghost ship: Uuid)
      ensures Snap() == FRESH_STATE && owner == ship
    {
      owner := ship;
      target := NO_TARGET;
      aimingForBase := false;
      justHitBase := false;
      energy := 0.0;
      energyDiff := 0.0;
      isRunning := false;
      runningFrom := NO_TARGET;
      previousAction := None;
    }

    function Snap(): StateValue
      reads this
    {
      StateValue(target, aimingForBase, justHitBase, energy, energyDiff, isRunning, runningFrom, previousAction)
    }
  }

  /** A ship's target is reset by the claim clean-up: it claimed an asteroid that is there and dead. */
  predicate KilledTargetOf(claims: map<Uuid, GameObject>, objects: map<Uuid, GameObject>, sid: Uuid)
  {
    exists a :: a in claims && a in objects && !objects[a].alive && claims[a].id == sid
  }

  /** The claim clean-up's effect on one ship's state: a killed target is forgotten. */
  function Cleared(s: StateValue, killed: bool): StateValue
  {
    if killed then s.(target := NO_TARGET) else s
  }

  /**
   * The state loop of getMovementEnd for one ship's state. A ship aiming for
   * base is looked up, which throws when it is gone, and when it holds no
   * resources it is no longer aiming for base and has just hit it. Then a
   * target other than NO_TARGET is looked up, which throws when it is gone,
   * and when it is dead it is forgotten together with the previous action.
   */
  function UpdateState(s: StateValue, id: Uuid, objects: map<Uuid, GameObject>): Access<StateValue>
  {
    if s.aimingForBase && id !in objects then Thrown
    else
      var s1 := if s.aimingForBase && objects[id].resources == 0 then s.(aimingForBase := false, justHitBase := true) else s;
      if s1.target == NO_TARGET then Value(s1)
      else if s1.target !in objects then Thrown
      else if !objects[s1.target].alive then Value(s1.(target := NO_TARGET, previousAction := None))
      else Value(s1)
  }

  /**
   * The update throws exactly when a lookup it makes finds nothing. Otherwise
   * the state keeps no dead target, a ship still aiming for base holds
   * something, the bounce sets justHitBase, and no other field changes.
   */
  lemma UpdateStateFacts(s: StateValue, id: Uuid, objects: map<Uuid, GameObject>)
    ensures UpdateState(s, id, objects).Thrown? <==>
      (s.aimingForBase && id !in objects) || (s.target != NO_TARGET && s.target !in objects)
    ensures UpdateState(s, id, objects).Value? ==>
      var t := UpdateState(s, id, objects).value;
      (t.target == NO_TARGET || (t.target in objects && objects[t.target].alive))
      && (t.aimingForBase ==> s.aimingForBase && objects[id].resources != 0)
      && (t.justHitBase <==> s.justHitBase || (s.aimingForBase && objects[id].resources == 0))
      && (t.target == s.target || (t.target == NO_TARGET && !objects[s.target].alive && t.previousAction.None?))
      && t.(aimingForBase := s.aimingForBase, justHitBase := s.justHitBase, target := s.target,
            previousAction := s.previousAction) == s
  {
  }

  /** A second pass of the state loop over the same objects changes nothing. */
  lemma UpdateStateIdempotent(s: StateValue, id: Uuid, objects: map<Uuid, GameObject>)
    requires UpdateState(s, id, objects).Value?
    ensures UpdateState(UpdateState(s, id, objects).value, id, objects) == UpdateState(s, id, objects)
  {
  }

  /** A ship's state after getMovementEnd: the claim clean-up, then the state loop. */
  function EndState(s: StateValue, id: Uuid, claims: map<Uuid, GameObject>, objects: map<Uuid, GameObject>): Access<StateValue>
  {
    UpdateState(Cleared(s, KilledTargetOf(claims, objects, id)), id, objects)
  }

  /** After getMovementEnd no state is left with a dead target, and a ship whose claimed asteroid died has none. */
  lemma EndStateFacts(s: StateValue, id: Uuid, claims: map<Uuid, GameObject>, objects: map<Uuid, GameObject>)
    ensures EndState(s, id, claims, objects).Value? ==>
      var t := EndState(s, id, claims, objects).value;
      (t.target == NO_TARGET || (t.target in objects && objects[t.target].alive))
      && (KilledTargetOf(claims, objects, id) ==> t.target == NO_TARGET)
  {
    UpdateStateFacts(Cleared(s, KilledTargetOf(claims, objects, id)), id, objects);
  }

  /** Some dead asteroid among the first entries of finishedAsteroids was claimed by the ship sid. */
  ghost predicate KilledIn(claims: map<Uuid, GameObject>, fin: seq<Option<GameObject>>, sid: Uuid)
  {
    exists j :: 0 <= j < |fin| && fin[j].Some? && !fin[j].value.alive && fin[j].value.id in claims
      && claims[fin[j].value.id].id == sid
  }

  /** The recorded states after the claim loop has handled some entries of finishedAsteroids. */
  ghost function ClearedAll(snaps: map<Uuid, StateValue>, claims: map<Uuid, GameObject>, fin: seq<Option<GameObject>>): map<Uuid, StateValue>
  {
    map k | k in snaps :: Cleared(snaps[k], KilledIn(claims, fin, k))
  }

  /** Handling one more asteroid: a dead one makes its claimant forget the target, a living one changes no state. */
  lemma ClearedAllStep(snaps: map<Uuid, StateValue>, claims: map<Uuid, GameObject>, fin: seq<Option<GameObject>>, a: GameObject)
    requires a.id in claims && claims[a.id].id in snaps
    ensures var before := ClearedAll(snaps, claims, fin);
      var sid := claims[a.id].id;
      ClearedAll(snaps, claims, fin + [Some(a)]) ==
        if a.alive then before else before[sid := before[sid].(target := NO_TARGET)]
  {
    var ext := fin + [Some(a)];
    assert forall j :: 0 <= j < |fin| ==> ext[j] == fin[j];
    assert ext[|fin|] == Some(a);
    forall k | k in snaps
      ensures KilledIn(claims, ext, k) <==> KilledIn(claims, fin, k) || (!a.alive && claims[a.id].id == k)
    {
      if KilledIn(claims, ext, k) && !KilledIn(claims, fin, k) {
        var j :| 0 <= j < |ext| && ext[j].Some? && !ext[j].value.alive && ext[j].value.id in claims
          && claims[ext[j].value.id].id == k;
        assert j == |fin|;
      }
      if !a.alive && claims[a.id].id == k {
        assert ext[|fin|].Some?;
      }
    }
  }

  /** Over the whole of finishedAsteroids, that is exactly KilledTargetOf. */
  lemma KilledInFinished(order: seq<Uuid>, objects: map<Uuid, GameObject>, claims: map<Uuid, GameObject>, sid: Uuid)
    requires Indexed(objects) && forall k :: k in order <==> k in claims
    ensures KilledIn(claims, Finished(order, objects), sid) <==> KilledTargetOf(claims, objects, sid)
  {
    var fin := Finished(order, objects);
    FinishedFacts(order, objects);
    if KilledTargetOf(claims, objects, sid) {
      var a :| a in claims && a in objects && !objects[a].alive && claims[a].id == sid;
      assert a in SomeIds(fin);
      var j :| 0 <= j < |fin| && fin[j].Some? && fin[j].value.id == a;
      assert fin[j].value == objects[a];
    }
    if KilledIn(claims, fin, sid) {
      var j :| 0 <= j < |fin| && fin[j].Some? && !fin[j].value.alive && fin[j].value.id in claims
        && claims[fin[j].value.id].id == sid;
      var a := fin[j].value;
      assert a.id in objects && objects[a.id] == a;
    }
  }

  /** This client's BASE_BUYING_DISTANCE. */
  const MODEL_BASE_BUYING_DISTANCE: real := 350.0

  /**
   * getTeamPurchases: when a base is affordable, the first ship with no
   * own-team base within MODEL_BASE_BUYING_DISTANCE buys one; nothing else
   * is ever bought.
   */
  method GetTeamPurchases(actionable: seq<GameObject>, bases: seq<GameObject>, team: string, dist: Distance,
                          canAffordBase: bool)
    returns (p: map<Uuid, PurchaseType>)
    ensures |p| <= 1 && forall k :: k in p ==> p[k] == BuyBase
    ensures p != map[] <==>
      canAffordBase && exists o :: o in actionable && IsBaseSite(o, bases, team, dist, MODEL_BASE_BUYING_DISTANCE)
    ensures forall k :: k in p ==>
      exists i :: 0 <= i < |actionable| && actionable[i].id == k
        && IsBaseSite(actionable[i], bases, team, dist, MODEL_BASE_BUYING_DISTANCE)
        && forall j :: 0 <= j < i ==> !IsBaseSite(actionable[j], bases, team, dist, MODEL_BASE_BUYING_DISTANCE)
  {
    p := map[];
    if canAffordBase {
      var site := FirstBaseSite(actionable, bases, team, dist, MODEL_BASE_BUYING_DISTANCE);
      if site.Some? {
        p := map[site.value.id := BuyBase];
      }
    }
  }

  /**
   * The rules of getBDSMShipAction, relating the ship's state before and
   * after and the claim map before and after to the result:
   *  1. energy below MODEL_LOW_ENERGY: getNewObtainEnergyAction (the energy
   *     source is source);
   *  2. resources above MODEL_RESOURCE_LIMIT: the current action when already
   *     aiming for base, otherwise getNewDepositResourcesAction;
   *  3. no current action, a finished one, just back from the base, or a
   *     target that getObjectById reports dead: getNewPursueTargetAction (the
   *     asteroid chosen is picked); a target that does not resolve is
   *     dereferenced, Thrown, with nothing changed;
   *  4. otherwise the current action is continued.
   * The chosen action becomes previousAction except on the kept-deposit path.
   */
  ghost predicate ShipRules(sp: Space, ship: GameObject, cur: Current, before: StateValue, after: StateValue,
                            claims: map<Uuid, GameObject>, claims': map<Uuid, GameObject>,
                            r: Access<Option<Action>>, source: Option<GameObject>, picked: Option<GameObject>)
  {
    var rule3 := !(ship.energy < MODEL_LOW_ENERGY) && !(ship.resources as real > MODEL_RESOURCE_LIMIT);
    var early := Idle(cur) || before.justHitBase;
    && (ship.energy < MODEL_LOW_ENERGY ==>
          var seek := source.Some? && source.value.id != before.target;
          var a := if seek then MoveTo(source, false) else DoNothing;
          EnergySource(sp, ship, source) && r == Value(Some(a)) && claims' == claims
          && after == before.(target := if seek then source.value.id else NO_TARGET,
                              aimingForBase := if seek then false else before.aimingForBase,
                              previousAction := Some(a)))
    && (!(ship.energy < MODEL_LOW_ENERGY) && ship.resources as real > MODEL_RESOURCE_LIMIT ==>
          claims' == claims
          && (before.aimingForBase ==> r == Value(cur.action) && after == before)
          && (!before.aimingForBase ==>
                r.Value? && r.value.Some? && DepositMove(sp, ship, r.value.value)
                && after == before.(aimingForBase := true, previousAction := r.value)))
    && (rule3 ==>
          (r.Thrown? <==> !early && before.target !in sp.objects)
          && (r.Thrown? ==> after == before && claims' == claims))
    && (rule3 && (early || (before.target in sp.objects && !sp.objects[before.target].alive)) ==>
          var a := if picked.Some? then MoveTo(picked, true) else DoNothing;
          BestFree(claims, sp.asteroids, ship, sp.dist, picked)
          && r == Value(Some(a))
          && claims' == (if picked.Some? then claims[picked.value.id := ship] else claims)
          && after == before.(justHitBase := false, aimingForBase := false,
                              target := if picked.Some? then picked.value.id else before.target,
                              previousAction := Some(a)))
    && (rule3 && !early && before.target in sp.objects && sp.objects[before.target].alive ==>
          r == Value(cur.action) && claims' == claims && after == before.(previousAction := cur.action))
  }

  /** The ids of the ships among some objects. */
  function ShipIdsOf(objs: seq<GameObject>): (ids: set<Uuid>)
    ensures forall o :: o in objs && o.kind == ShipKind ==> o.id in ids
    ensures forall k :: k in ids ==> exists o :: o in objs && o.kind == ShipKind && o.id == k
  {
    set o | o in objs && o.kind == ShipKind :: o.id
  }

  /** A ship's recorded state, or a new ShipState's when it has none. */
  function StateIn(snaps: map<Uuid, StateValue>, id: Uuid): StateValue
  {
    if id in snaps then snaps[id] else FRESH_STATE
  }

  /**
   * The first loop of getMovementStart on the recorded states: each ship in
   * turn gets a state if it has none and has its energy observed.
   */
  function ObserveAll(snaps: map<Uuid, StateValue>, objs: seq<GameObject>): map<Uuid, StateValue>
  {
    if objs == [] then snaps
    else
      ObserveStep(ObserveAll(snaps, objs[..|objs| - 1]), objs[|objs| - 1])
  }

  /** One object of that loop: a ship gets its energy observed, anything else changes nothing. */
  function ObserveStep(m: map<Uuid, StateValue>, o: GameObject): map<Uuid, StateValue>
  {
    if o.kind == ShipKind then m[o.id := Observe(StateIn(m, o.id), o.energy)] else m
  }

  lemma {:induction false} ShipIdsOfSnoc(objs: seq<GameObject>, o: GameObject)
    ensures ShipIdsOf(objs + [o]) == ShipIdsOf(objs) + (if o.kind == ShipKind then {o.id} else {})
  {
  }

  /** The loop gives states to exactly the ships that had none. */
  lemma {:induction false} ObserveAllKeys(snaps: map<Uuid, StateValue>, objs: seq<GameObject>)
    ensures ObserveAll(snaps, objs).Keys == snaps.Keys + ShipIdsOf(objs)
  {
    if objs != [] {
      var init := objs[..|objs| - 1];
      ObserveAllKeys(snaps, init);
      assert objs == init + [objs[|objs| - 1]];
      ShipIdsOfSnoc(init, objs[|objs| - 1]);
    }
  }

  /** The loop leaves the state of every id that is not a ship's alone. */
  lemma {:induction false} ObserveAllUntouched(snaps: map<Uuid, StateValue>, objs: seq<GameObject>, k: Uuid)
    requires k !in ShipIdsOf(objs)
    ensures StateIn(ObserveAll(snaps, objs), k) == StateIn(snaps, k)
    ensures k in ObserveAll(snaps, objs) <==> k in snaps
  {
    if objs != [] {
      var init := objs[..|objs| - 1];
      assert objs == init + [objs[|objs| - 1]];
      ShipIdsOfSnoc(init, objs[|objs| - 1]);
      ObserveAllUntouched(snaps, init, k);
    }
  }

  /**
   * With distinct ids, each ship's state after the loop is its earlier one
   * (or a fresh one) with the energy observed exactly once.
   */
  lemma {:induction false} ObserveAllShips(snaps: map<Uuid, StateValue>, objs: seq<GameObject>)
    requires Distinct(Ids(objs))
    ensures forall i :: 0 <= i < |objs| && objs[i].kind == ShipKind ==>
      objs[i].id in ObserveAll(snaps, objs) && ObserveAll(snaps, objs)[objs[i].id] == Observe(StateIn(snaps, objs[i].id), objs[i].energy)
  {
    if objs != [] {
      var n := |objs| - 1;
      var init := objs[..n];
      assert Ids(init) == Ids(objs)[..n];
      ObserveAllShips(snaps, init);
      assert forall i :: 0 <= i < n ==> objs[i].id != objs[n].id by {
        assert forall i :: 0 <= i < n ==> Ids(objs)[i] != Ids(objs)[n];
      }
      if objs[n].kind == ShipKind {
        ObserveAllUntouched(snaps, init, objs[n].id);
      }
    }
  }

  /** getMovementStart gives ships and bases an entry and nothing else. */
  predicate GetsAction(o: GameObject)
  {
    o.kind == ShipKind || o.kind == BaseKind
  }

  /**
   * The action map after the first i actionable objects: exactly the ships
   * and bases among them have an entry, and each base's is do-nothing.
   */
  ghost predicate DecidedUpTo(actions: map<Uuid, Option<Action>>, actionable: seq<GameObject>, i: int)
    requires 0 <= i <= |actionable|
  {
    && (forall j :: 0 <= j < i && GetsAction(actionable[j]) ==> actionable[j].id in actions)
    && (forall k :: k in actions ==> exists j :: 0 <= j < i && actionable[j].id == k && GetsAction(actionable[j]))
    && (forall j :: 0 <= j < i && actionable[j].kind == BaseKind ==>
          actionable[j].id in actions && actions[actionable[j].id] == Some(DoNothing))
  }

  /** One more ship or base, with an id unlike the earlier ones: it gets its entry, a base do-nothing. */
  lemma DecidedStep(actions: map<Uuid, Option<Action>>, actionable: seq<GameObject>, i: int, entry: Option<Action>)
    requires 0 <= i < |actionable| && DecidedUpTo(actions, actionable, i)
    requires forall j :: 0 <= j < i ==> actionable[j].id != actionable[i].id
    requires GetsAction(actionable[i]) && (actionable[i].kind == BaseKind ==> entry == Some(DoNothing))
    ensures DecidedUpTo(actions[actionable[i].id := entry], actionable, i + 1)
  {
    var next := actions[actionable[i].id := entry];
    forall k | k in next
      ensures exists j :: 0 <= j < i + 1 && actionable[j].id == k && GetsAction(actionable[j])
    {
      if k != actionable[i].id {
        var j :| 0 <= j < i && actionable[j].id == k && GetsAction(actionable[j]);
      }
    }
  }

  /** One more object that is neither ship nor base: the map is kept. */
  lemma DecidedSkip(actions: map<Uuid, Option<Action>>, actionable: seq<GameObject>, i: int)
    requires 0 <= i < |actionable| && DecidedUpTo(actions, actionable, i) && !GetsAction(actionable[i])
    ensures DecidedUpTo(actions, actionable, i + 1)
  {
  }

  /** After every object, the keys are exactly the ships' and bases' ids. */
  lemma DecidedAll(actions: map<Uuid, Option<Action>>, actionable: seq<GameObject>)
    requires DecidedUpTo(actions, actionable, |actionable|)
    ensures forall k :: k in actions <==> exists o :: o in actionable && o.id == k && GetsAction(o)
    ensures forall o :: o in actionable && o.kind == BaseKind ==> o.id in actions && actions[o.id] == Some(DoNothing)
  {
    assert forall o :: o in actionable ==> exists j :: 0 <= j < |actionable| && actionable[j] == o;
  }

  /** The recorded states after getMovementEnd's state loop has updated the ships in done without an exception. */
  function UpdatedFor(snaps: map<Uuid, StateValue>, objects: map<Uuid, GameObject>, done: seq<Uuid>): map<Uuid, StateValue>
  {
    map k | k in snaps :: if k in done && UpdateState(snaps[k], k, objects).Value? then UpdateState(snaps[k], k, objects).value else snaps[k]
  }

  /** Updating one more ship changes its entry alone. */
  lemma UpdatedForStep(snaps: map<Uuid, StateValue>, objects: map<Uuid, GameObject>, done: seq<Uuid>, id: Uuid)
    requires id in snaps && id !in done && UpdateState(snaps[id], id, objects).Value?
    ensures UpdatedFor(snaps, objects, done + [id]) == UpdatedFor(snaps, objects, done)[id := UpdateState(snaps[id], id, objects).value]
  {
    assert forall k :: k in done + [id] <==> k in done || k == id;
  }

  /** Once every ship in the iteration order is updated without an exception, none throws and each state is its UpdateState. */
  lemma UpdatedForAll(snaps: map<Uuid, StateValue>, now: map<Uuid, StateValue>, objects: map<Uuid, GameObject>, order: seq<Uuid>)
    requires forall k :: k in snaps ==> k in order
    requires forall j :: 0 <= j < |order| && order[j] in snaps ==> UpdateState(snaps[order[j]], order[j], objects).Value?
    requires now == UpdatedFor(snaps, objects, order)
    ensures !exists k :: k in snaps && UpdateState(snaps[k], k, objects).Thrown?
    ensures forall k :: k in snaps ==> k in now && UpdateState(snaps[k], k, objects) == Value(now[k])
  {
    forall k | k in snaps
      ensures UpdateState(snaps[k], k, objects).Value?
    {
      var j :| 0 <= j < |order| && order[j] == k;
    }
  }

  /** The body of getMovementEnd's state loop on the state object of the ship id. */
  method UpdateStateObject(state: ShipState, id: Uuid, objects: map<Uuid, GameObject>) returns (r: Access<()>)
    modifies state
    ensures r.Thrown? <==> UpdateState(old(state.Snap()), id, objects).Thrown?
    ensures r.Value? ==> UpdateState(old(state.Snap()), id, objects) == Value(state.Snap())
  {
    if state.aimingForBase {
      if id !in objects {
        return Thrown;
      }
      var ship := objects[id];
      if ship.resources == 0 {
        state.aimingForBase := false;
        state.justHitBase := true;
      }
    }
    if state.target != NO_TARGET {
      if state.target !in objects {
        return Thrown;
      }
      if !objects[state.target].alive {
        state.target := NO_TARGET;
        state.previousAction := None;
      }
    }
    r := Value(());
  }

  /** BDSMFriendyModelBasedAgent. */
  class BDSMFriendyModelBasedAgent {
    var asteroidToShipMap: map<Uuid, GameObject>
    var shipStateMap: map<Uuid, ShipState>

    /**
     * Every ship has its own state object, and every claiming ship has one
     * (claims are made only while a ship's state is in hand).
     */
    ghost predicate Valid()
      reads this
    {
      (forall k :: k in shipStateMap ==> shipStateMap[k].owner == k)
      && forall k :: k in asteroidToShipMap ==> asteroidToShipMap[k].id in shipStateMap
    }

    /** initialize: both maps empty. */
    constructor ()
      ensures Valid() && asteroidToShipMap == map[] && shipStateMap == map[]
    {
      asteroidToShipMap := map[];
      shipStateMap := map[];
    }

    /** The fields of a ship's state object, or a new ShipState's when it has none. */
    ghost function PriorOf(id: Uuid): StateValue
      reads this, shipStateMap.Values
    {
      if id in shipStateMap then shipStateMap[id].Snap() else FRESH_STATE
    }

    /** The containsKey / put(new ShipState()) / get idiom: a ship's state, created on first sight. */
    method StateOf(id: Uuid) returns (state: ShipState)
      requires Valid()
      modifies this`shipStateMap
      ensures Valid()
      ensures shipStateMap.Keys == old(shipStateMap).Keys + {id} && shipStateMap[id] == state
      ensures forall k :: k in old(shipStateMap) ==> shipStateMap[k] == old(shipStateMap)[k]
      ensures id in old(shipStateMap) || (fresh(state) && state.Snap() == FRESH_STATE)
    {
      if id !in shipStateMap {
        var s := new ShipState(id);
        shipStateMap := shipStateMap[id := s];
      }
      state := shipStateMap[id];
    }

    /** The recorded fields of every ship's state object. */
    ghost function Snaps(): map<Uuid, StateValue>
      reads this, shipStateMap.Values
    {
      map k | k in shipStateMap :: shipStateMap[k].Snap()
    }

    /** The first loop of getMovementStart for one ship: record its energy and the change. */
    method ObserveEnergy(ship: GameObject)
      requires Valid()
      modifies this`shipStateMap, shipStateMap.Values
      ensures Valid()
      ensures shipStateMap.Keys == old(shipStateMap).Keys + {ship.id}
      ensures forall k :: k in old(shipStateMap) ==> shipStateMap[k] == old(shipStateMap)[k]
      ensures ship.id !in old(shipStateMap) ==> fresh(shipStateMap[ship.id])
      ensures Snaps() == old(Snaps())[ship.id := Observe(StateIn(old(Snaps()), ship.id), ship.energy)]
    {
      var state := StateOf(ship.id);
      var prevEnergy := state.energy;
      var currentEnergy := ship.energy;
      var diff := if prevEnergy > 0.0 then ship.energy - prevEnergy else 0.0;
      state.energy := currentEnergy;
      state.energyDiff := diff;
    }

    /** The loop body of getMovementStart's first loop: ships have their energy observed. */
    method ObserveObject(o: GameObject)
      requires Valid()
      modifies this`shipStateMap, shipStateMap.Values
      ensures Valid()
      ensures forall k :: k in shipStateMap ==> shipStateMap[k] in old(shipStateMap.Values) || fresh(shipStateMap[k])
      ensures Snaps() == ObserveStep(old(Snaps()), o)
    {
      if o.kind == ShipKind {
        ObserveEnergy(o);
      }
    }

    /**
     * getNewObtainEnergyAction: head for findNearestEnergySource's answer
     * unless it is null or already the target, in which case do nothing and
     * forget the target. The action is recorded as previousAction.
     */
    method ObtainEnergy(sp: Space, ship: GameObject, state: ShipState) returns (a: Action, ghost source: Option<GameObject>)
      requires WellFormed(sp)
      modifies state
      ensures EnergySource(sp, ship, source)
      ensures var seek := source.Some? && source.value.id != old(state.target);
        a == (if seek then MoveTo(source, false) else DoNothing)
        && state.Snap() == old(state.Snap()).(target := if seek then source.value.id else NO_TARGET,
                                              aimingForBase := if seek then false else old(state.aimingForBase),
                                              previousAction := Some(a))
    {
      var energyTarget := NearestEnergySource(sp, ship);
      source := energyTarget;
      if energyTarget.Some? && energyTarget.value.id != state.target {
        state.target := energyTarget.value.id;
        a := MoveTo(energyTarget, false);
        state.aimingForBase := energyTarget.value.kind == BaseKind;
      } else {
        a := DoNothing;
        state.target := NO_TARGET;
      }
      state.previousAction := Some(a);
    }

    /** getNewDepositResourcesAction: head for the nearest own base and aim for it. */
    method DepositResources(sp: Space, ship: GameObject, state: ShipState) returns (a: Action)
      modifies state
      ensures DepositMove(sp, ship, a)
      ensures state.Snap() == old(state.Snap()).(aimingForBase := true)
    {
      var base := FindNearestBase(sp.bases, ship, sp.dist);
      a := MoveTo(base, false);
      state.aimingForBase := true;
    }

    /**
     * getNewPursueTargetAction: clear both flags, pick the best free
     * asteroid, and when there is one claim it, make it the target and chase
     * it; otherwise do nothing.
     */
    method PursueTarget(sp: Space, ship: GameObject, state: ShipState) returns (a: Action, ghost picked: Option<GameObject>)
      requires Valid() && ship.id in shipStateMap
      modifies this`asteroidToShipMap, state
      ensures Valid()
      ensures BestFree(old(asteroidToShipMap), sp.asteroids, ship, sp.dist, picked)
      ensures asteroidToShipMap == if picked.Some? then old(asteroidToShipMap)[picked.value.id := ship] else old(asteroidToShipMap)
      ensures a == if picked.Some? then MoveTo(picked, true) else DoNothing
      ensures state.Snap() == old(state.Snap()).(justHitBase := false, aimingForBase := false,
                                                 target := if picked.Some? then picked.value.id else old(state.target))
    {
      state.justHitBase := false;
      state.aimingForBase := false;
      var targetAsteroid := PickHighestValueNearestFreeAsteroid(asteroidToShipMap, sp.asteroids, ship, sp.dist);
      picked := targetAsteroid;
      if targetAsteroid.Some? {
        asteroidToShipMap := asteroidToShipMap[targetAsteroid.value.id := ship];
        state.target := targetAsteroid.value.id;
        a := MoveTo(targetAsteroid, true);
      } else {
        a := DoNothing;
      }
    }

    /**
     * getBDSMShipAction once the ship's state is in hand: the rules of
     * ShipRules, with the claim map and that one state object changed.
     */
    method ShipAction(sp: Space, ship: GameObject, cur: Current, state: ShipState)
      returns (r: Access<Option<Action>>, ghost source: Option<GameObject>, ghost picked: Option<GameObject>)
      requires WellFormed(sp) && Valid() && ship.id in shipStateMap
      modifies this`asteroidToShipMap, state
      ensures Valid()
      ensures ShipRules(sp, ship, cur, old(state.Snap()), state.Snap(), old(asteroidToShipMap), asteroidToShipMap, r, source, picked)
    {
      source := None;
      picked := None;
      if ship.energy < MODEL_LOW_ENERGY {
        var a;
        a, source := ObtainEnergy(sp, ship, state);
        return Value(Some(a)), source, picked;
      }
      if ship.resources as real > MODEL_RESOURCE_LIMIT {
        if state.aimingForBase {
          return Value(cur.action), source, picked;
        }
        var a := DepositResources(sp, ship, state);
        state.previousAction := Some(a);
        return Value(Some(a)), source, picked;
      }
      var retarget := Idle(cur) || state.justHitBase;
      if !retarget {
        if state.target !in sp.objects {
          return Thrown, source, picked;
        }
        retarget := !sp.objects[state.target].alive;
      }
      if retarget {
        var a;
        a, picked := PursueTarget(sp, ship, state);
        state.previousAction := Some(a);
        return Value(Some(a)), source, picked;
      }
      state.previousAction := cur.action;
      r := Value(cur.action);
    }

    /**
     * getBDSMShipAction: the ship's state is created on first sight, then
     * ShipRules decide the action and the state's new fields; no other
     * ship's state changes.
     */
    method GetBDSMShipAction(sp: Space, ship: GameObject, cur: Current)
      returns (r: Access<Option<Action>>, ghost source: Option<GameObject>, ghost picked: Option<GameObject>)
      requires WellFormed(sp) && Valid()
      modifies this, shipStateMap.Values
      ensures Valid()
      ensures shipStateMap.Keys == old(shipStateMap).Keys + {ship.id}
      ensures forall k :: k in old(shipStateMap) ==> shipStateMap[k] == old(shipStateMap)[k]
      ensures ship.id !in old(shipStateMap) ==> fresh(shipStateMap[ship.id])
      ensures forall k :: k in old(shipStateMap) && k != ship.id ==> shipStateMap[k].Snap() == old(shipStateMap[k].Snap())
      ensures ShipRules(sp, ship, cur, old(PriorOf(ship.id)), shipStateMap[ship.id].Snap(),
                        old(asteroidToShipMap), asteroidToShipMap, r, source, picked)
    {
      var state := StateOf(ship.id);
      r, source, picked := ShipAction(sp, ship, cur, state);
    }

    /**
     * One step of getMovementStart's action loop: getBDSMShipAction, seen
     * from the loop, which needs only that the ship has its state and that
     * no state object other than a new one appears.
     */
    method ShipStep(sp: Space, ship: GameObject, cur: Current) returns (r: Access<Option<Action>>)
      requires WellFormed(sp) && Valid()
      modifies this, shipStateMap.Values
      ensures Valid()
      ensures shipStateMap.Keys == old(shipStateMap).Keys + {ship.id}
      ensures forall k :: k in shipStateMap ==> shipStateMap[k] in old(shipStateMap.Values) || fresh(shipStateMap[k])
    {
      var action, _, _ := GetBDSMShipAction(sp, ship, cur);
      r := action;
    }

    /**
     * getMovementStart: first every ship's energy is observed, then the
     * actions are decided.
     */
    method GetMovementStart(sp: Space, actionable: seq<GameObject>, currentOf: Uuid -> Current)
      returns (r: Access<map<Uuid, Option<Action>>>)
      requires WellFormed(sp) && Valid() && Distinct(Ids(actionable))
      modifies this, shipStateMap.Values
      ensures Valid()
      ensures forall o :: o in actionable && o.kind == ShipKind ==> o.id in shipStateMap
      ensures r.Value? ==> forall k :: k in r.value <==>
        exists o :: o in actionable && o.id == k && (o.kind == ShipKind || o.kind == BaseKind)
      ensures r.Value? ==> forall o :: o in actionable && o.kind == BaseKind ==> o.id in r.value && r.value[o.id] == Some(DoNothing)
    {
      ObserveEnergies(actionable);
      r := DecideActions(sp, actionable, currentOf);
    }

    /**
     * The second loop of getMovementStart: ships get getBDSMShipAction,
     * bases do nothing and other actionable objects get no entry. An
     * exception from any ship's rules ends the call.
     */
    method DecideActions(sp: Space, actionable: seq<GameObject>, currentOf: Uuid -> Current)
      returns (r: Access<map<Uuid, Option<Action>>>)
      requires WellFormed(sp) && Valid() && Distinct(Ids(actionable))
      modifies this, shipStateMap.Values
      ensures Valid()
      ensures forall k :: k in old(shipStateMap) ==> k in shipStateMap
      ensures forall k :: k in shipStateMap ==> shipStateMap[k] in old(shipStateMap.Values) || fresh(shipStateMap[k])
      ensures r.Value? ==> forall k :: k in r.value <==> exists o :: o in actionable && o.id == k && GetsAction(o)
      ensures r.Value? ==> forall o :: o in actionable && o.kind == BaseKind ==> o.id in r.value && r.value[o.id] == Some(DoNothing)
    {
      var actions := map[];
      var i := 0;
      while i < |actionable|
        invariant 0 <= i <= |actionable|
        invariant Valid()
        invariant forall k :: k in old(shipStateMap) ==> k in shipStateMap
        invariant DecidedUpTo(actions, actionable, i)
        invariant forall k :: k in shipStateMap ==> shipStateMap[k] in old(shipStateMap.Values) || fresh(shipStateMap[k])
      {
        var o := actionable[i];
        EarlierIdsDiffer(actionable, i);
        if o.kind == ShipKind {
          var action := ShipStep(sp, o, currentOf(o.id));
          if action.Thrown? {
            return Thrown;
          }
          DecidedStep(actions, actionable, i, action.value);
          actions := actions[o.id := action.value];
        } else if o.kind == BaseKind {
          DecidedStep(actions, actionable, i, Some(DoNothing));
          actions := actions[o.id := Some(DoNothing)];
        } else {
          DecidedSkip(actions, actionable, i);
        }
        i := i + 1;
      }
      DecidedAll(actions, actionable);
      r := Value(actions);
    }

    /**
     * The first loop of getMovementStart: every ship gets a state if it has
     * none, and the states record ObserveAll.
     */
    method ObserveEnergies(actionable: seq<GameObject>)
      requires Valid()
      modifies this`shipStateMap, shipStateMap.Values
      ensures Valid()
      ensures forall k :: k in shipStateMap ==> shipStateMap[k] in old(shipStateMap.Values) || fresh(shipStateMap[k])
      ensures Snaps() == ObserveAll(old(Snaps()), actionable)
      ensures shipStateMap.Keys == old(shipStateMap).Keys + ShipIdsOf(actionable)
    {
      var i := 0;
      while i < |actionable|
        invariant 0 <= i <= |actionable|
        invariant Valid()
        invariant forall k :: k in shipStateMap ==> shipStateMap[k] in old(shipStateMap.Values) || fresh(shipStateMap[k])
        invariant Snaps() == ObserveAll(old(Snaps()), actionable[..i])
      {
        assert actionable[..i + 1][..i] == actionable[..i];
        ObserveObject(actionable[i]);
        i := i + 1;
      }
      assert actionable[..i] == actionable;
      ObserveAllKeys(old(Snaps()), actionable);
      assert Snaps().Keys == shipStateMap.Keys;
    }

    /**
     * The second loop of getMovementEnd for one finished asteroid: the claim
     * goes, and the claiming ship forgets its target when the asteroid is dead.
     */
    method DropClaim(asteroid: GameObject)
      requires Valid() && asteroid.id in asteroidToShipMap
      modifies this`asteroidToShipMap, shipStateMap.Values
      ensures Valid()
      ensures asteroidToShipMap == old(asteroidToShipMap) - {asteroid.id}
      ensures var sid := old(asteroidToShipMap)[asteroid.id].id;
        Snaps() == if asteroid.alive then old(Snaps()) else old(Snaps())[sid := old(Snaps())[sid].(target := NO_TARGET)]
    {
      var assailant := asteroidToShipMap[asteroid.id];
      var state := shipStateMap[assailant.id];
      asteroidToShipMap := asteroidToShipMap - {asteroid.id};
      if !asteroid.alive {
        state.target := NO_TARGET;
      }
    }

    /** One turn of that loop, after the entries in done: the next claim goes. */
    method DropNext(done: seq<Option<GameObject>>, asteroid: GameObject,
                    ghost claims: map<Uuid, GameObject>, ghost snaps: map<Uuid, StateValue>)
      requires Valid() && asteroid.id in claims && asteroid.id !in SomeIds(done)
      requires asteroidToShipMap == claims - SomeIds(done)
      requires Snaps() == ClearedAll(snaps, claims, done)
      modifies this`asteroidToShipMap, shipStateMap.Values
      ensures Valid()
      ensures asteroidToShipMap == claims - SomeIds(done + [Some(asteroid)])
      ensures Snaps() == ClearedAll(snaps, claims, done + [Some(asteroid)])
    {
      SomeIdsAppend(done, Some(asteroid));
      assert asteroidToShipMap[asteroid.id] == claims[asteroid.id];
      assert claims[asteroid.id].id in Snaps();
      ClearedAllStep(snaps, claims, done, asteroid);
      DropClaim(asteroid);
      assert asteroidToShipMap == claims - SomeIds(done + [Some(asteroid)]);
    }

    /**
     * The loop of getMovementEnd over finishedAsteroids: each claim goes in
     * turn, throwing at the first null entry.
     */
    method DropAll(fin: seq<Option<GameObject>>) returns (r: Access<()>)
      requires Valid()
      requires forall j :: 0 <= j < |fin| && fin[j].Some? ==> fin[j].value.id in asteroidToShipMap
      requires forall i, j :: 0 <= i < j < |fin| && fin[i].Some? && fin[j].Some? ==> fin[i].value.id != fin[j].value.id
      modifies this`asteroidToShipMap, shipStateMap.Values
      ensures Valid()
      ensures r.Thrown? <==> None in fin
      ensures forall k :: k in asteroidToShipMap ==> k in old(asteroidToShipMap) && asteroidToShipMap[k] == old(asteroidToShipMap)[k]
      ensures r.Value? ==> asteroidToShipMap == old(asteroidToShipMap) - SomeIds(fin)
      ensures r.Value? ==> Snaps() == ClearedAll(old(Snaps()), old(asteroidToShipMap), fin)
    {
      var i := 0;
      while i < |fin|
        invariant 0 <= i <= |fin|
        invariant Valid()
        invariant forall j :: 0 <= j < i ==> fin[j].Some?
        invariant asteroidToShipMap == old(asteroidToShipMap) - SomeIds(fin[..i])
        invariant Snaps() == ClearedAll(old(Snaps()), old(asteroidToShipMap), fin[..i])
      {
        if fin[i].None? {
          return Thrown;
        }
        assert fin[i].value.id !in SomeIds(fin[..i]) by {
          forall j | 0 <= j < i && fin[j].Some? ensures fin[j].value.id != fin[i].value.id {
          }
        }
        assert fin[..i + 1] == fin[..i] + [fin[i]];
        DropNext(fin[..i], fin[i].value, old(asteroidToShipMap), old(Snaps()));
        i := i + 1;
      }
      assert fin[..|fin|] == fin;
      r := Value(());
    }

    /**
     * The claim clean-up of getMovementEnd as written: the claimed ids whose
     * lookup is null, dead or moveable are collected, and the loop over them
     * throws at the first null. Without a null, exactly the claims on living,
     * unmoveable asteroids remain and each ship whose claimed asteroid died
     * forgets its target.
     */
    method ClearFinishedClaims(order: seq<Uuid>, objects: map<Uuid, GameObject>) returns (r: Access<()>)
      requires Valid() && Indexed(objects) && Distinct(order)
      requires forall k :: k in order <==> k in asteroidToShipMap
      modifies this`asteroidToShipMap, shipStateMap.Values
      ensures Valid()
      ensures r.Thrown? <==> exists k :: k in old(asteroidToShipMap) && k !in objects
      ensures r.Value? ==>
        forall k :: k in asteroidToShipMap <==> k in old(asteroidToShipMap) && objects[k].alive && !objects[k].moveable
      ensures forall k :: k in asteroidToShipMap ==> k in old(asteroidToShipMap) && asteroidToShipMap[k] == old(asteroidToShipMap)[k]
      ensures r.Value? ==> forall k :: k in old(Snaps()) ==>
        k in Snaps() && Snaps()[k] == Cleared(old(Snaps())[k], KilledTargetOf(old(asteroidToShipMap), objects, k))
    {
      var fin := CollectFinished(order, objects);
      FinishedFacts(order, objects);
      FinishedDistinct(order, objects);
      r := DropAll(fin);
      if r.Value? {
        forall k | k in old(Snaps()) {
          KilledInFinished(order, objects, old(asteroidToShipMap), k);
        }
      }
    }

    /** The state loop of getMovementEnd for one ship: UpdateState on its state object. */
    method UpdateShipState(id: Uuid, objects: map<Uuid, GameObject>) returns (r: Access<()>)
      requires Valid() && id in shipStateMap
      modifies shipStateMap[id]
      ensures r.Thrown? <==> UpdateState(old(Snaps())[id], id, objects).Thrown?
      ensures r.Value? ==> Snaps() == old(Snaps())[id := UpdateState(old(Snaps())[id], id, objects).value]
    {
      r := UpdateStateObject(shipStateMap[id], id, objects);
    }

    /** The state loop of getMovementEnd, over the state map's keys in iteration order. */
    method UpdateShipStates(order: seq<Uuid>, objects: map<Uuid, GameObject>) returns (r: Access<()>)
      requires Valid() && Distinct(order) && forall k :: k in order <==> k in shipStateMap
      modifies shipStateMap.Values
      ensures r.Thrown? <==> exists k :: k in old(Snaps()) && UpdateState(old(Snaps())[k], k, objects).Thrown?
      ensures r.Value? ==> forall k :: k in old(Snaps()) ==>
        k in Snaps() && UpdateState(old(Snaps())[k], k, objects) == Value(Snaps()[k])
    {
      ghost var snaps := Snaps();
      ghost var failed;
      r, failed := UpdateLoop(order, objects, snaps);
      if r.Thrown? {
        assert order[failed] in snaps;
      } else {
        UpdatedForAll(snaps, Snaps(), objects, order);
      }
    }

    /** That loop, stated over the iteration order and the states snaps it starts from: it stops at the first ship whose update throws. */
    method UpdateLoop(order: seq<Uuid>, objects: map<Uuid, GameObject>, ghost snaps: map<Uuid, StateValue>)
      returns (r: Access<()>, ghost failed: nat)
      requires Valid() && Distinct(order) && forall k :: k in order <==> k in shipStateMap
      requires Snaps() == snaps
      modifies shipStateMap.Values
      ensures r.Thrown? ==> failed < |order| && UpdateState(snaps[order[failed]], order[failed], objects).Thrown?
      ensures r.Value? ==> forall j :: 0 <= j < |order| ==> UpdateState(snaps[order[j]], order[j], objects).Value?
      ensures r.Value? ==> Snaps() == UpdatedFor(snaps, objects, order)
    {
      var i := 0;
      while i < |order|
        invariant 0 <= i <= |order|
        invariant Valid()
        invariant forall j :: 0 <= j < i ==> UpdateState(snaps[order[j]], order[j], objects).Value?
        invariant Snaps() == UpdatedFor(snaps, objects, order[..i])
      {
        var step := UpdateNext(order, i, objects, snaps);
        if step.Thrown? {
          return Thrown, i;
        }
        i := i + 1;
      }
      assert order[..|order|] == order;
      r, failed := Value(()), 0;
    }

    /** One turn of that loop, after the first i ships of the iteration order: the next ship's state is updated. */
    method UpdateNext(order: seq<Uuid>, i: nat, objects: map<Uuid, GameObject>, ghost snaps: map<Uuid, StateValue>)
      returns (r: Access<()>)
      requires Valid() && Distinct(order) && i < |order| && order[i] in shipStateMap && order[i] in snaps
      requires Snaps() == UpdatedFor(snaps, objects, order[..i])
      modifies shipStateMap[order[i]]
      ensures r.Thrown? <==> UpdateState(snaps[order[i]], order[i], objects).Thrown?
      ensures r.Value? ==> Snaps() == UpdatedFor(snaps, objects, order[..i + 1])
    {
      var id := order[i];
      assert id !in order[..i] by {
        assert forall j :: 0 <= j < i ==> order[..i][j] != id;
      }
      assert order[..i + 1] == order[..i] + [id];
      assert Snaps()[id] == snaps[id];
      r := UpdateShipState(id, objects);
      if r.Value? {
        UpdatedForStep(snaps, objects, order[..i], id);
      }
    }

    /**
     * getMovementEnd: the claim clean-up as written, then the state loop.
     * Each ship's state ends as EndState says; an exception from either loop
     * ends the call.
     */
    method GetMovementEnd(claimOrder: seq<Uuid>, stateOrder: seq<Uuid>, objects: map<Uuid, GameObject>) returns (r: Access<()>)
      requires Valid() && Indexed(objects)
      requires Distinct(claimOrder) && forall k :: k in claimOrder <==> k in asteroidToShipMap
      requires Distinct(stateOrder) && forall k :: k in stateOrder <==> k in shipStateMap
      modifies this`asteroidToShipMap, shipStateMap.Values
      ensures Valid()
      ensures r.Thrown? <==>
        (exists k :: k in old(asteroidToShipMap) && k !in objects)
        || exists k :: k in old(Snaps()) && EndState(old(Snaps())[k], k, old(asteroidToShipMap), objects).Thrown?
      ensures r.Value? ==>
        forall k :: k in asteroidToShipMap <==> k in old(asteroidToShipMap) && objects[k].alive && !objects[k].moveable
      ensures r.Value? ==> forall k :: k in old(Snaps()) ==>
        k in Snaps() && EndState(old(Snaps())[k], k, old(asteroidToShipMap), objects) == Value(Snaps()[k])
    {
      r := ClearFinishedClaims(claimOrder, objects);
      if r.Thrown? {
        return;
      }
      r := UpdateShipStates(stateOrder, objects);
    }
  }
}
