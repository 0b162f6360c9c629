/**
 * bost7517.oldprojects.BDSM_BadSearchAgent: a collector that retargets on
 * every step and, on every 21st chase, times a greedy best-first search to
 * the asteroid and appends a row of the planning time, the search tree's
 * size, the path cost and the distance to gbfs_data.txt.
 */
module BadSearchAgents {
  import opened Wrappers
  import opened JavaNum
  import opened GameObjects
  import opened AgentUtils
  import opened TeamClients
  import opened CsvRows

  /** The columns of the data file, in the order exportData writes them. */
  const COLUMNS: seq<string> := ["planTime", "treeSize", "pathCost", "bestDistance"]

  /** The header line of the data file: planTime,treeSize,pathCost,bestDistance. */
  const FILE_HEADER: string := Join(COLUMNS)

  /**
   * One timed call of graph.getPathToGBFS: the path's getTotalCost (None when
   * the path is null), the size of getSearchTreeGBFS afterwards (a list the
   * graph always holds), and the milliseconds between the two clock reads.
   */
  datatype GbfsRun = GbfsRun(pathCost: Option<int>, treeSize: nat, elapsed: int)

  /** BDSM_BadSearchAgent, with the data file as the lines written to it so far. */
  class BDSMBadSearchAgent {
    const book: ClaimBook
    var previousAction: Option<Action>
    var planTime: int
    var timeSincePlan: int
    var stepCount: int
    /** The lines of gbfs_data.txt. */
    var dataOut: seq<string>
    /** The rows those lines hold, in the order written. */
    ghost var exported: seq<seq<int>>

    /** The file is the header and one formatted row of four numbers per export; the count stays in 0..20. */
    ghost predicate Valid()
      reads this`timeSincePlan, this`dataOut, this`exported
    {
      0 <= timeSincePlan <= REPLAN_AT
      && dataOut == [FILE_HEADER] + FormatRows(exported)
      && forall i :: 0 <= i < |exported| ==> |exported[i]| == 4
    }

    /** The field initialisers and initialize: empty maps, a count of 20, the header written. */
    constructor ()
      ensures Valid()
      ensures fresh(book) && book.asteroidToShipMap == map[] && book.aimingForBase == map[] && book.justHitBase == map[]
      ensures previousAction.None? && planTime == 0 && timeSincePlan == REPLAN_AT && stepCount == 0
      ensures dataOut == [FILE_HEADER] && exported == []
    {
      book := new ClaimBook();
      previousAction := None;
      planTime := 0;
      timeSincePlan := REPLAN_AT;
      stepCount := 0;
      dataOut := [FILE_HEADER];
      exported := [];
    }

    /**
     * exportData: the distance truncated to an int, then one line,
     * String.format("%d,%d,%d,%d") of the planning time, the tree size, the
     * path cost and that distance. A null path is dereferenced: Thrown, with
     * nothing written.
     */
    method ExportData(distance: real, run: GbfsRun) returns (r: Access<()>)
      requires Valid()
      modifies this`dataOut, this`exported
      ensures Valid()
      ensures r.Thrown? <==> run.pathCost.None?
      ensures r.Thrown? ==> dataOut == old(dataOut) && exported == old(exported)
      ensures r.Value? ==>
        var row := [planTime, run.treeSize, run.pathCost.value, IntCast(distance)];
        exported == old(exported) + [row] && dataOut == old(dataOut) + [FormatRow(row)]
    {
      var distanceToTarget := IntCast(distance);
      if run.pathCost.None? {
        return Thrown;
      }
      var row := [planTime, run.treeSize, run.pathCost.value, distanceToTarget];
      dataOut := dataOut + [FormatRow(row)];
      exported := exported + [row];
      assert exported[..|exported| - 1] == old(exported);
      r := Value(());
    }

    /**
     * getAsteroidCollectorAction: with no energy or deposit rules, every call
     * clears both flags, picks the best free asteroid and claims it. A chase
     * with the count at 20 resets it, runs the timed search and exports a
     * row; otherwise the count goes up. A chase counts a step; with no free
     * asteroid the ship is told to do nothing.
     */
    method GetAsteroidCollectorAction(sp: Space, ship: GameObject, cur: Current, search: GameObject -> GbfsRun)
      returns (r: Access<Action>, ghost picked: Option<GameObject>)
      requires Valid()
      modifies this`previousAction, this`timeSincePlan, this`planTime, this`stepCount, this`dataOut, this`exported, book
      ensures Valid()
      ensures previousAction == cur.action
      ensures BestFree(old(book.asteroidToShipMap), sp.asteroids, ship, sp.dist, picked)
      ensures book.asteroidToShipMap == (if picked.Some? then old(book.asteroidToShipMap)[picked.value.id := ship]
                                         else old(book.asteroidToShipMap))
      ensures book.aimingForBase == old(book.aimingForBase)[ship.id := false]
      ensures book.justHitBase == old(book.justHitBase)[ship.id := false]
      ensures picked.None? ==>
        r == Value(DoNothing) && timeSincePlan == old(timeSincePlan) && planTime == old(planTime)
        && stepCount == old(stepCount) && dataOut == old(dataOut)
      ensures picked.Some? ==>
        timeSincePlan == NextTimeSincePlan(old(timeSincePlan))
        && (r.Value? ==> r.value == MoveTo(picked, true) && stepCount == old(stepCount) + 1)
      ensures picked.Some? && old(timeSincePlan) < REPLAN_AT ==>
        r.Value? && dataOut == old(dataOut) && planTime == old(planTime)
      ensures picked.Some? && old(timeSincePlan) >= REPLAN_AT ==>
        var run := search(picked.value);
        planTime == run.elapsed
        && (r.Thrown? <==> run.pathCost.None?)
        && (r.Thrown? ==> dataOut == old(dataOut))
        && (r.Value? ==>
              exported == old(exported)
                          + [[run.elapsed, run.treeSize, run.pathCost.value, IntCast(sp.dist(ship.position, picked.value.position))]])
    {
      var asteroid := book.Retarget(sp, ship);
      picked := asteroid;
      if asteroid.Some? {
        r := Chase(sp, ship, asteroid.value, search);
      } else {
        r := Value(DoNothing);
      }
      previousAction := cur.action;
    }

    /**
     * The chase once an asteroid is claimed: with the count at 20 it is reset,
     * the search is timed and a row exported (Thrown on a null path);
     * otherwise the count goes up. A chase that returns counts a step.
     */
    method Chase(sp: Space, ship: GameObject, asteroid: GameObject, search: GameObject -> GbfsRun) returns (r: Access<Action>)
      requires Valid()
      modifies this`timeSincePlan, this`planTime, this`stepCount, this`dataOut, this`exported
      ensures Valid()
      ensures timeSincePlan == NextTimeSincePlan(old(timeSincePlan))
      ensures r.Value? ==> r.value == MoveTo(Some(asteroid), true) && stepCount == old(stepCount) + 1
      ensures old(timeSincePlan) < REPLAN_AT ==> r.Value? && dataOut == old(dataOut) && planTime == old(planTime)
      ensures old(timeSincePlan) >= REPLAN_AT ==>
        var run := search(asteroid);
        planTime == run.elapsed
        && (r.Thrown? <==> run.pathCost.None?)
        && (r.Thrown? ==> dataOut == old(dataOut))
        && (r.Value? ==>
              exported == old(exported)
                          + [[run.elapsed, run.treeSize, run.pathCost.value, IntCast(sp.dist(ship.position, asteroid.position))]])
    {
      if timeSincePlan >= REPLAN_AT {
        timeSincePlan := 0;
        var run := search(asteroid);
        planTime := run.elapsed;
        var written := ExportData(sp.dist(ship.position, asteroid.position), run);
        if written.Thrown? {
          return Thrown;
        }
      } else {
        timeSincePlan := timeSincePlan + 1;
      }
      stepCount := stepCount + 1;
      r := Value(MoveTo(Some(asteroid), true));
    }

    /**
     * The entry getMovementStart makes for one actionable object: the
     * collector action for a ship (doing nothing, or chasing an asteroid),
     * a do-nothing action for anything else.
     */
    method ActionFor(sp: Space, o: GameObject, cur: Current, search: GameObject -> GbfsRun) returns (r: Access<Action>)
      requires Valid()
      modifies this, book
      ensures Valid()
      ensures o.kind != ShipKind ==> r == Value(DoNothing)
      ensures r.Value? ==> r.value == DoNothing || (r.value.MoveToObject? && r.value.leading)
    {
      if o.kind == ShipKind {
        var action, _ := GetAsteroidCollectorAction(sp, o, cur, search);
        r := action;
      } else {
        r := Value(DoNothing);
      }
    }

    /**
     * getMovementStart: ships get the collector action and everything else a
     * do-nothing action, one entry per actionable object; an exception from
     * any ship's rules ends the call.
     */
    method GetMovementStart(sp: Space, actionable: seq<GameObject>, currentOf: Uuid -> Current,
                            search: (GameObject, GameObject) -> GbfsRun)
      returns (r: Access<map<Uuid, Action>>)
      requires Valid() && Distinct(Ids(actionable))
      modifies this, book
      ensures Valid()
      ensures r.Value? ==> forall k :: k in r.value <==> exists o :: o in actionable && o.id == k
      ensures r.Value? ==> forall o :: o in actionable && o.kind != ShipKind ==> r.value[o.id] == DoNothing
    {
      var actions := map[];
      var i := 0;
      while i < |actionable|
        invariant 0 <= i <= |actionable|
        invariant Valid()
        invariant forall k :: k in actions <==> exists j :: 0 <= j < i && actionable[j].id == k
        invariant forall j :: 0 <= j < i && actionable[j].kind != ShipKind ==> actions[actionable[j].id] == DoNothing
      {
        var o := actionable[i];
        EarlierIdsDiffer(actionable, i);
        var action := ActionFor(sp, o, currentOf(o.id), a => search(o, a));
        if action.Thrown? {
          return Thrown;
        }
        actions := actions[o.id := action.value];
        i := i + 1;
      }
      assert forall o :: o in actionable ==> exists j :: 0 <= j < |actionable| && actionable[j] == o;
      r := Value(actions);
    }
  }

  /** The data file loads back as exactly the rows exported, four columns each, under the header naming them. */
  lemma DataFileLoads(agent: BDSMBadSearchAgent)
    requires agent.Valid()
    ensures LoadText(agent.dataOut) == Some(agent.exported)
    ensures forall i :: 0 <= i < |agent.exported| ==> |agent.exported[i]| == 4
    ensures Split(agent.dataOut[0]) == COLUMNS
  {
    LoadWrittenRows(FILE_HEADER, agent.exported);
    SplitJoin(COLUMNS);
  }
}
