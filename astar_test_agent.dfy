/**
 * spacesettlers.bost7517.BDSM_AStarTestAgent: the asteroid collector of
 * FriendyAgentBDSM with other thresholds, which also compares the two
 * searches of the v0.3 graph. Every time it chases an asteroid and its
 * replanning count has reached 20, it asks for both an A* path and a greedy
 * best-first path to the asteroid and appends a row of the straight-line
 * distance and the two path costs to search_compare_data.txt.
 */
module AStarTestAgents {
  import opened Wrappers
  import opened JavaNum
  import opened GameObjects
  import opened AgentUtils
  import opened TeamClients
  import opened CsvRows

  /** The columns of the data file: the distance, the A* cost, the greedy cost. */
  const COLUMNS: seq<string> := ["minCost", "astarCost", "gbfsCost"]

  /** The header line of the data file: minCost,astarCost,gbfsCost. */
  const FILE_HEADER: string := Join(COLUMNS)

  /** This client's LOW_ENERGY_THRESHOLD and RESOURCE_THRESHOLD. */
  const TEST_LOW_ENERGY: real := 1500.0
  const TEST_RESOURCE_LIMIT: real := 2500.0

  /**
   * What the graph answers for one search pair: the getTotalCost of the A*
   * path and of the greedy best-first path, None where the path is null.
   */
  datatype SearchCosts = SearchCosts(astar: Option<int>, gbfs: Option<int>)

  /** BDSM_AStarTestAgent, with the data file as the lines written to it so far. */
  class BDSMAStarTestAgent {
    const book: ClaimBook
    var previousAction: Option<Action>
    var timeSincePlan: int
    var stepCount: int
    /** The lines of search_compare_data.txt. */
    var dataOut: seq<string>
    /** The rows those lines hold, in the order written. */
    ghost var exported: seq<seq<int>>

    /**
     * The file is the header and then one formatted row of three numbers
     * per export, and the replanning count stays in 0..20.
     */
    ghost predicate Valid()
      reads this`timeSincePlan, this`dataOut, this`exported
    {
      0 <= timeSincePlan <= REPLAN_AT
      && dataOut == [FILE_HEADER] + FormatRows(exported)
      && forall i :: 0 <= i < |exported| ==> |exported[i]| == 3
    }

    /** The field initialisers and initialize: empty maps, a count of 20, the header written. */
    constructor ()
      ensures Valid()
      ensures fresh(book) && book.asteroidToShipMap == map[] && book.aimingForBase == map[] && book.justHitBase == map[]
      ensures previousAction.None? && timeSincePlan == REPLAN_AT && stepCount == 0
      ensures dataOut == [FILE_HEADER] && exported == []
    {
      book := new ClaimBook();
      previousAction := None;
      timeSincePlan := REPLAN_AT;
      stepCount := 0;
      dataOut := [FILE_HEADER];
      exported := [];
    }

    /** exportData: one line, String.format("%d,%d,%d") of the three numbers. */
    method ExportData(minCost: int, astarCost: int, gbfsCost: int)
      requires Valid()
      modifies this`dataOut, this`exported
      ensures Valid()
      ensures exported == old(exported) + [[minCost, astarCost, gbfsCost]]
      ensures dataOut == old(dataOut) + [FormatRow([minCost, astarCost, gbfsCost])]
    {
      dataOut := dataOut + [FormatRow([minCost, astarCost, gbfsCost])];
      exported := exported + [[minCost, astarCost, gbfsCost]];
      assert exported[..|exported| - 1] == old(exported);
    }

    /**
     * Rule 3 of getAsteroidCollectorAction: clear both flags and claim the
     * best free asteroid; with none the current action is kept. A chase with
     * the count at 20 resets it, searches both ways and exports a row (a null
     * path is dereferenced: Thrown); a chase below 20 counts up.
     */
    method ChaseAsteroid(sp: Space, ship: GameObject, cur: Current, costs: GameObject -> SearchCosts)
      returns (r: Access<Option<Action>>, ghost picked: Option<GameObject>)
      requires Valid()
      modifies this`timeSincePlan, this`dataOut, this`exported, book
      ensures Valid()
      ensures BestFree(old(book.asteroidToShipMap), sp.asteroids, ship, sp.dist, picked)
      ensures book.asteroidToShipMap == (if picked.Some? then old(book.asteroidToShipMap)[picked.value.id := ship]
                                         else old(book.asteroidToShipMap))
      ensures book.aimingForBase == old(book.aimingForBase)[ship.id := false]
      ensures book.justHitBase == old(book.justHitBase)[ship.id := false]
      ensures picked.None? ==> r == Value(cur.action) && timeSincePlan == old(timeSincePlan) && dataOut == old(dataOut)
      ensures picked.Some? ==>
        timeSincePlan == NextTimeSincePlan(old(timeSincePlan))
        && (old(timeSincePlan) < REPLAN_AT ==> r == Value(Some(MoveTo(picked, true))) && dataOut == old(dataOut))
        && (old(timeSincePlan) >= REPLAN_AT ==>
              var c := costs(picked.value);
              (r.Thrown? <==> c.astar.None? || c.gbfs.None?)
              && (r.Thrown? ==> dataOut == old(dataOut))
              && (r.Value? ==>
                    r.value == Some(MoveTo(picked, true))
                    && exported == old(exported)
                                   + [[IntCast(sp.dist(ship.position, picked.value.position)), c.astar.value, c.gbfs.value]]))
    {
      var asteroid := book.Retarget(sp, ship);
      picked := asteroid;
      if asteroid.None? {
        return Value(cur.action), picked;
      }
      if timeSincePlan >= REPLAN_AT {
        timeSincePlan := 0;
        var c := costs(asteroid.value);
        if c.astar.None? || c.gbfs.None? {
          return Thrown, picked;
        }
        ExportData(IntCast(sp.dist(ship.position, asteroid.value.position)), c.astar.value, c.gbfs.value);
      } else {
        timeSincePlan := timeSincePlan + 1;
      }
      r := Value(Some(MoveTo(asteroid, true)));
    }

    /**
     * getAsteroidCollectorAction. The rules of FriendyAgentBDSM with this
     * client's thresholds, and two differences in rule 3: when no asteroid
     * is free the ship keeps its current action, and a chase with the count
     * at 20 resets it, searches both ways and exports a row (a null path is
     * dereferenced: Thrown). Every path that returns counts a step.
     */
    method GetAsteroidCollectorAction(sp: Space, ship: GameObject, cur: Current, costs: GameObject -> SearchCosts)
      returns (r: Access<Option<Action>>, ghost picked: Option<GameObject>)
      requires WellFormed(sp) && Valid()
      modifies this`previousAction, this`stepCount, this`timeSincePlan, this`dataOut, this`exported, book
      ensures Valid()
      ensures previousAction == cur.action
      ensures r.Value? ==> stepCount == old(stepCount) + 1
      ensures ship.energy < TEST_LOW_ENERGY ==>
        r.Value? && EnergyMove(sp, ship, r.value)
        && book.aimingForBase == (if r.value.Some? then old(book.aimingForBase)[ship.id := false] else old(book.aimingForBase))
        && book.asteroidToShipMap == old(book.asteroidToShipMap) && book.justHitBase == old(book.justHitBase)
        && timeSincePlan == old(timeSincePlan) && dataOut == old(dataOut)
      ensures !(ship.energy < TEST_LOW_ENERGY) && ship.resources as real > TEST_RESOURCE_LIMIT ==>
        r.Value? && r.value.Some? && DepositMove(sp, ship, r.value.value)
        && book.aimingForBase == old(book.aimingForBase)[ship.id := true]
        && book.asteroidToShipMap == old(book.asteroidToShipMap) && book.justHitBase == old(book.justHitBase)
        && timeSincePlan == old(timeSincePlan) && dataOut == old(dataOut)
      ensures !(ship.energy < TEST_LOW_ENERGY) && !(ship.resources as real > TEST_RESOURCE_LIMIT)
              && (Idle(cur) || old(book.JustHit(ship.id))) ==>
        BestFree(old(book.asteroidToShipMap), sp.asteroids, ship, sp.dist, picked)
        && book.asteroidToShipMap == (if picked.Some? then old(book.asteroidToShipMap)[picked.value.id := ship]
                                      else old(book.asteroidToShipMap))
        && book.aimingForBase == old(book.aimingForBase)[ship.id := false]
        && book.justHitBase == old(book.justHitBase)[ship.id := false]
      ensures !(ship.energy < TEST_LOW_ENERGY) && !(ship.resources as real > TEST_RESOURCE_LIMIT)
              && (Idle(cur) || old(book.JustHit(ship.id))) && picked.None? ==>
        r == Value(cur.action) && timeSincePlan == old(timeSincePlan) && dataOut == old(dataOut)
      ensures !(ship.energy < TEST_LOW_ENERGY) && !(ship.resources as real > TEST_RESOURCE_LIMIT)
              && (Idle(cur) || old(book.JustHit(ship.id))) && picked.Some? ==>
        timeSincePlan == NextTimeSincePlan(old(timeSincePlan))
        && (old(timeSincePlan) < REPLAN_AT ==> r == Value(Some(MoveTo(picked, true))) && dataOut == old(dataOut))
        && (old(timeSincePlan) >= REPLAN_AT ==>
              var c := costs(picked.value);
              (r.Thrown? <==> c.astar.None? || c.gbfs.None?)
              && (r.Thrown? ==> dataOut == old(dataOut))
              && (r.Value? ==>
                    r.value == Some(MoveTo(picked, true))
                    && exported == old(exported)
                                   + [[IntCast(sp.dist(ship.position, picked.value.position)), c.astar.value, c.gbfs.value]]))
      ensures !(ship.energy < TEST_LOW_ENERGY) && !(ship.resources as real > TEST_RESOURCE_LIMIT)
              && !(Idle(cur) || old(book.JustHit(ship.id))) ==>
        r == Value(cur.action) && book.asteroidToShipMap == old(book.asteroidToShipMap)
        && book.aimingForBase == old(book.aimingForBase) && book.justHitBase == old(book.justHitBase)
        && timeSincePlan == old(timeSincePlan) && dataOut == old(dataOut)
    {
      picked := None;
      if ship.energy < TEST_LOW_ENERGY {
        var move := book.SeekEnergy(sp, ship);
        stepCount := stepCount + 1;
        r := Value(move);
      } else if ship.resources as real > TEST_RESOURCE_LIMIT {
        var move := book.Deposit(sp, ship);
        stepCount := stepCount + 1;
        r := Value(Some(move));
      } else {
        r, picked := LaterRules(sp, ship, cur, costs);
      }
      previousAction := cur.action;
    }

    /**
     * Rule 3 of getAsteroidCollectorAction when the ship is idle or has just
     * hit base, and otherwise the current action kept; a return counts a step.
     */
    method LaterRules(sp: Space, ship: GameObject, cur: Current, costs: GameObject -> SearchCosts)
      returns (r: Access<Option<Action>>, ghost picked: Option<GameObject>)
      requires Valid()
      modifies this`stepCount, this`timeSincePlan, this`dataOut, this`exported, book
      ensures Valid()
      ensures r.Value? ==> stepCount == old(stepCount) + 1
      ensures Idle(cur) || old(book.JustHit(ship.id)) ==>
        BestFree(old(book.asteroidToShipMap), sp.asteroids, ship, sp.dist, picked)
        && book.asteroidToShipMap == (if picked.Some? then old(book.asteroidToShipMap)[picked.value.id := ship]
                                      else old(book.asteroidToShipMap))
        && book.aimingForBase == old(book.aimingForBase)[ship.id := false]
        && book.justHitBase == old(book.justHitBase)[ship.id := false]
      ensures (Idle(cur) || old(book.JustHit(ship.id))) && picked.None? ==>
        r == Value(cur.action) && timeSincePlan == old(timeSincePlan) && dataOut == old(dataOut)
      ensures (Idle(cur) || old(book.JustHit(ship.id))) && picked.Some? ==>
        timeSincePlan == NextTimeSincePlan(old(timeSincePlan))
        && (old(timeSincePlan) < REPLAN_AT ==> r == Value(Some(MoveTo(picked, true))) && dataOut == old(dataOut))
        && (old(timeSincePlan) >= REPLAN_AT ==>
              var c := costs(picked.value);
              (r.Thrown? <==> c.astar.None? || c.gbfs.None?)
              && (r.Thrown? ==> dataOut == old(dataOut))
              && (r.Value? ==>
                    r.value == Some(MoveTo(picked, true))
                    && exported == old(exported)
                                   + [[IntCast(sp.dist(ship.position, picked.value.position)), c.astar.value, c.gbfs.value]]))
      ensures !(Idle(cur) || old(book.JustHit(ship.id))) ==>
        r == Value(cur.action) && book.asteroidToShipMap == old(book.asteroidToShipMap)
        && book.aimingForBase == old(book.aimingForBase) && book.justHitBase == old(book.justHitBase)
        && timeSincePlan == old(timeSincePlan) && dataOut == old(dataOut)
    {
      picked := None;
      if Idle(cur) || book.JustHit(ship.id) {
        r, picked := ChaseAsteroid(sp, ship, cur, costs);
        if r.Value? {
          stepCount := stepCount + 1;
        }
        return;
      }
      stepCount := stepCount + 1;
      r := Value(cur.action);
    }

    /**
     * The entry getMovementStart makes for one actionable object: the
     * collector action for a ship, a do-nothing action for anything else.
     */
    method ActionFor(sp: Space, o: GameObject, cur: Current, costs: GameObject -> SearchCosts)
      returns (r: Access<Option<Action>>)
      requires WellFormed(sp) && Valid()
      modifies this, book
      ensures Valid()
      ensures o.kind != ShipKind ==> r == Value(Some(DoNothing))
    {
      if o.kind == ShipKind {
        var action, _ := GetAsteroidCollectorAction(sp, o, cur, costs);
        r := action;
      } else {
        r := Value(Some(DoNothing));
      }
    }

    /**
     * getMovementStart: ships get the collector action and everything else a
     * do-nothing action, one entry per actionable object; an exception from
     * any ship's rules ends the call.
     */
    method GetMovementStart(sp: Space, actionable: seq<GameObject>, currentOf: Uuid -> Current,
                            costs: (GameObject, GameObject) -> SearchCosts)
      returns (r: Access<map<Uuid, Option<Action>>>)
      requires WellFormed(sp) && Valid() && Distinct(Ids(actionable))
      modifies this, book
      ensures Valid()
      ensures r.Value? ==> forall k :: k in r.value <==> exists o :: o in actionable && o.id == k
      ensures r.Value? ==> forall o :: o in actionable && o.kind != ShipKind ==> r.value[o.id] == Some(DoNothing)
    {
      var actions := map[];
      var i := 0;
      while i < |actionable|
        invariant 0 <= i <= |actionable|
        invariant Valid()
        invariant forall k :: k in actions <==> exists j :: 0 <= j < i && actionable[j].id == k
        invariant forall j :: 0 <= j < i && actionable[j].kind != ShipKind ==> actions[actionable[j].id] == Some(DoNothing)
      {
        var o := actionable[i];
        EarlierIdsDiffer(actionable, i);
        var action := ActionFor(sp, o, currentOf(o.id), a => costs(o, a));
        if action.Thrown? {
          return Thrown;
        }
        actions := actions[o.id := action.value];
        i := i + 1;
      }
      assert forall o :: o in actionable ==> exists j :: 0 <= j < |actionable| && actionable[j] == o;
      r := Value(actions);
    }
  }

  /**
   * The data file always loads back in the plotting script as exactly the
   * rows exported, three columns each, under the header naming them.
   */
  lemma DataFileLoads(agent: BDSMAStarTestAgent)
    requires agent.Valid()
    ensures LoadText(agent.dataOut) == Some(agent.exported)
    ensures forall i :: 0 <= i < |agent.exported| ==> |agent.exported[i]| == 3
    ensures agent.dataOut[0] == FILE_HEADER && Split(agent.dataOut[0]) == COLUMNS
  {
    LoadWrittenRows(FILE_HEADER, agent.exported);
    SplitJoin(COLUMNS);
  }
}
