/**
 * spacesettlers.bost7517.FriendyAgentBDSM: every ship collects asteroids by
 * a fixed rule priority (refuel when low on energy, deposit when loaded,
 * retarget when idle or just back from the base, otherwise carry on), with
 * the claim map keeping two ships off the same asteroid.
 */
module FriendyAgents {
  import opened Wrappers
  import opened JavaNum
  import opened GameObjects
  import opened AgentUtils
  import opened TeamClients

  /** This client's LOW_ENERGY_THRESHOLD and RESOURCE_THRESHOLD. */
  const OWN_LOW_ENERGY: real := 1500.0
  const OWN_RESOURCE_LIMIT: real := 1500.0

  /** The test of pickNearestFreeAsteroid: unclaimed and mineable. */
  function FreeAndMineable(claims: map<Uuid, GameObject>): GameObject -> bool
  {
    (a: GameObject) => a.id !in claims && a.mineable
  }

  /** FriendyAgentBDSM, over its three maps and the previousAction field. */
  class FriendyAgentBDSM {
    const book: ClaimBook
    var previousAction: Option<Action>

    /** initialize: the maps start empty. */
    constructor ()
      ensures fresh(book) && book.asteroidToShipMap == map[] && book.aimingForBase == map[] && book.justHitBase == map[]
      ensures previousAction.None?
    {
      book := new ClaimBook();
      previousAction := None;
    }

    /**
     * getAsteroidCollectorAction. The rules are tried in order and the first
     * that applies decides:
     *  1. energy below OWN_LOW_ENERGY: move to the energy source, or null
     *     when there is none;
     *  2. resources above OWN_RESOURCE_LIMIT: move to the nearest own base and
     *     aim for it;
     *  3. no current action, a finished one, or just back from the base: clear
     *     both flags and chase the best free asteroid (picked), claiming it,
     *     or return null;
     *  4. otherwise keep the current action.
     */
    method GetAsteroidCollectorAction(sp: Space, ship: GameObject, cur: Current)
      returns (r: Option<Action>, ghost picked: Option<GameObject>)
      requires WellFormed(sp)
      modifies this, book
      ensures previousAction == cur.action
      ensures ship.energy < OWN_LOW_ENERGY ==>
        EnergyMove(sp, ship, r)
        && book.aimingForBase == (if r.Some? then old(book.aimingForBase)[ship.id := false] else old(book.aimingForBase))
        && book.asteroidToShipMap == old(book.asteroidToShipMap) && book.justHitBase == old(book.justHitBase)
      ensures !(ship.energy < OWN_LOW_ENERGY) && ship.resources as real > OWN_RESOURCE_LIMIT ==>
        r.Some? && DepositMove(sp, ship, r.value)
        && book.aimingForBase == old(book.aimingForBase)[ship.id := true]
        && book.asteroidToShipMap == old(book.asteroidToShipMap) && book.justHitBase == old(book.justHitBase)
      ensures !(ship.energy < OWN_LOW_ENERGY) && !(ship.resources as real > OWN_RESOURCE_LIMIT)
              && (Idle(cur) || old(book.JustHit(ship.id))) ==>
        BestFree(old(book.asteroidToShipMap), sp.asteroids, ship, sp.dist, picked)
        && r == (if picked.Some? then Some(MoveTo(picked, true)) else None)
        && book.asteroidToShipMap == (if picked.Some? then old(book.asteroidToShipMap)[picked.value.id := ship]
                                      else old(book.asteroidToShipMap))
        && book.aimingForBase == old(book.aimingForBase)[ship.id := false]
        && book.justHitBase == old(book.justHitBase)[ship.id := false]
      ensures !(ship.energy < OWN_LOW_ENERGY) && !(ship.resources as real > OWN_RESOURCE_LIMIT)
              && !(Idle(cur) || old(book.JustHit(ship.id))) ==>
        r == cur.action && book.asteroidToShipMap == old(book.asteroidToShipMap)
        && book.aimingForBase == old(book.aimingForBase) && book.justHitBase == old(book.justHitBase)
    {
      previousAction := cur.action;
      picked := None;
      if ship.energy < OWN_LOW_ENERGY {
        r := book.SeekEnergy(sp, ship);
        return;
      }
      if ship.resources as real > OWN_RESOURCE_LIMIT {
        var move := book.Deposit(sp, ship);
        r := Some(move);
        return;
      }
      if Idle(cur) || book.JustHit(ship.id) {
        var asteroid := book.Retarget(sp, ship);
        picked := asteroid;
        r := if asteroid.Some? then Some(MoveTo(asteroid, true)) else None;
        return;
      }
      r := cur.action;
    }

    /**
     * pickNearestFreeAsteroid (not called by the rules): the unclaimed,
     * mineable asteroid at strictly least distance below Double.MAX_VALUE,
     * the first one found winning ties.
     */
    method PickNearestFreeAsteroid(sp: Space, ship: GameObject) returns (r: Option<GameObject>)
      ensures r.Some? ==> r.value in sp.asteroids && r.value.id !in book.asteroidToShipMap && r.value.mineable
      ensures r.Some? ==> forall a :: a in sp.asteroids && a.id !in book.asteroidToShipMap && a.mineable ==>
        sp.dist(r.value.position, ship.position) <= sp.dist(a.position, ship.position)
      ensures r.None? <==> forall a :: a in sp.asteroids && a.id !in book.asteroidToShipMap && a.mineable ==>
        sp.dist(a.position, ship.position) >= DOUBLE_MAX
      ensures r.Some? ==>
        exists i :: 0 <= i < |sp.asteroids| && sp.asteroids[i] == r.value &&
          forall j :: 0 <= j < i && sp.asteroids[j].id !in book.asteroidToShipMap && sp.asteroids[j].mineable ==>
            sp.dist(r.value.position, ship.position) < sp.dist(sp.asteroids[j].position, ship.position)
    {
      r := ArgMin(sp.asteroids, FreeAndMineable(book.asteroidToShipMap), ToShip(sp.dist, ship), Some(DOUBLE_MAX));
    }

    /**
     * getMovementStart: one entry per actionable object, the collector
     * action for each ship and a do-nothing action for everything else.
     */
    method GetMovementStart(sp: Space, actionable: seq<GameObject>, currentOf: Uuid -> Current)
      returns (actions: map<Uuid, Option<Action>>)
      requires WellFormed(sp) && Distinct(Ids(actionable))
      modifies this, book
      ensures forall k :: k in actions <==> exists o :: o in actionable && o.id == k
      ensures forall o :: o in actionable && o.kind != ShipKind ==> actions[o.id] == Some(DoNothing)
    {
      actions := map[];
      var i := 0;
      while i < |actionable|
        invariant 0 <= i <= |actionable|
        invariant forall k :: k in actions <==> exists j :: 0 <= j < i && actionable[j].id == k
        invariant forall j :: 0 <= j < i && actionable[j].kind != ShipKind ==> actions[actionable[j].id] == Some(DoNothing)
      {
        var o := actionable[i];
        EarlierIdsDiffer(actionable, i);
        if o.kind == ShipKind {
          var action, _ := GetAsteroidCollectorAction(sp, o, currentOf(o.id));
          actions := actions[o.id := action];
        } else {
          actions := actions[o.id := Some(DoNothing)];
        }
        i := i + 1;
      }
      assert forall o :: o in actionable ==> exists j :: 0 <= j < |actionable| && actionable[j] == o;
    }
  }
}
