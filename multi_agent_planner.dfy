/**
 * bost7517.BDSM_MultiAgentPlanner: a breadth-first search over plan paths
 * from the current state, capped at 1000 iterations, whose first action for
 * the planning ship is applied to the planner's state. A plan path keeps its
 * actions, the state the last action returned, and the first action of each
 * actor.
 */
module MultiAgentPlanning {
  import opened Wrappers
  import opened GameObjects
  import opened PlanStates
  import opened PlanActions

  /** The BFS loop runs while numIterations <= MAX_ITERATIONS. */
  const MAX_ITERATIONS: nat := 1000

  /** actionMap as addAction builds it: for each actor other than NO_ACTOR, its first action (putIfAbsent). */
  function FirstByActor(acts: seq<PlanAction>): map<Actor, PlanAction>
  {
    if |acts| == 0 then map[]
    else
      var m := FirstByActor(acts[..|acts| - 1]);
      var a := acts[|acts| - 1];
      if a.actorId != NoActor && a.actorId !in m then m[a.actorId := a] else m
  }

  /**
   * An actor is recorded iff it is not NO_ACTOR and some action is its own,
   * and the recorded action is its earliest one.
   */
  lemma {:induction false} FirstByActorFacts(acts: seq<PlanAction>, id: Actor)
    ensures id in FirstByActor(acts) <==> id != NoActor && exists k :: 0 <= k < |acts| && acts[k].actorId == id
    ensures id in FirstByActor(acts) ==>
      exists k :: 0 <= k < |acts| && acts[k] == FirstByActor(acts)[id] && acts[k].actorId == id
        && forall j :: 0 <= j < k ==> acts[j].actorId != id
  {
    if |acts| > 0 {
      var n := |acts| - 1;
      var prefix := acts[..n];
      FirstByActorFacts(prefix, id);
      assert forall k :: 0 <= k < n ==> prefix[k] == acts[k];
      var m := FirstByActor(acts);
      if id in FirstByActor(prefix) {
        var k :| 0 <= k < n && prefix[k] == FirstByActor(prefix)[id] && prefix[k].actorId == id
          && forall j :: 0 <= j < k ==> prefix[j].actorId != id;
        assert acts[k] == m[id];
      } else if id == acts[n].actorId && id != NoActor {
        assert acts[n] == m[id];
      }
    }
  }

  /** The state ships a sequence of actions may change. */
  function Ships(acts: seq<PlanAction>): set<StateShip>
  {
    set k, s | 0 <= k < |acts| && s in acts[k].Footprint() :: s
  }

  /** BDSM_PlanPath. */
  class PlanPath {
    var actions: seq<PlanAction>
    var state: PlanState
    var actionMap: map<Actor, PlanAction>

    ghost predicate Valid()
      reads this
    {
      actionMap == FirstByActor(actions)
    }

    /** A path with no actions from the given state. */
    constructor (initialState: PlanState)
      ensures Valid() && actions == [] && actionMap == map[] && state == initialState
    {
      actions := [];
      actionMap := map[];
      state := initialState;
    }

    /** getNextActionForActor: the actor's recorded first action, or a new do-nothing action for it. */
    method GetNextActionForActor(id: Actor) returns (a: PlanAction)
      ensures id in actionMap ==> a == actionMap[id]
      ensures id !in actionMap ==>
        fresh(a) && a.behaviour == DoNothingAction && a.actor.None? && a.state == state && a.actorId == id && !a.preMet
    {
      if id in actionMap {
        a := actionMap[id];
      } else {
        a := new PlanAction.DoNothingFor(state, id);
      }
    }

    /**
     * addAction: the state becomes what applyAction returns, the action is
     * appended, and it is recorded if it is its actor's first. When
     * applyAction throws, nothing changes.
     */
    method AddAction(action: PlanAction) returns (r: Access<()>)
      requires Valid()
      modifies this, action.Footprint()
      ensures Valid()
      ensures r.Thrown? <==> action.behaviour == GetEnergyAction && action.actor.None?
      ensures r.Value? ==> state == action.state && actions == old(actions) + [action]
      ensures r.Thrown? ==> state == old(state) && actions == old(actions)
      ensures action.behaviour == GetEnergyAction && action.actor.Some? ==> !action.actor.value.lowEnergy
    {
      var applied := action.ApplyAction();
      if applied.Thrown? {
        return Thrown;
      }
      state := applied.value;
      actions := actions + [action];
      assert actions[..|actions| - 1] == old(actions);
      if action.GetActor() != NoActor && action.GetActor() !in actionMap {
        actionMap := actionMap[action.GetActor() := action];
      }
      r := Value(());
    }
  }

  /**
   * makeCopyOf: a new path from a copy of the state, onto which the same
   * actions are added again in order. Adding an action re-applies it and sets
   * the state to that action's own state, so a copy with actions ends with
   * the state of its last action, not with the copied state.
   */
  method CopyPath(path: PlanPath) returns (r: Access<PlanPath>)
    requires path.Valid()
    modifies Ships(path.actions)
    ensures r.Thrown? <==>
      exists k :: 0 <= k < |path.actions| && path.actions[k].behaviour == GetEnergyAction && path.actions[k].actor.None?
    ensures r.Value? ==>
      fresh(r.value) && r.value.Valid() && r.value.actions == path.actions && r.value.actionMap == path.actionMap
    ensures r.Value? && |path.actions| > 0 ==> r.value.state == path.actions[|path.actions| - 1].state
    ensures r.Value? && |path.actions| == 0 ==>
      r.value.state.ships == path.state.ships && r.value.state.bases == path.state.bases
      && r.value.state.idStateShipMap.Keys == path.state.idStateShipMap.Keys && r.value.state.idGameShipMap == map[]
  {
    var copy := MakeCopyOf(path.state);
    var ret := new PlanPath(copy);
    var i := 0;
    while i < |path.actions|
      modifies ret, Ships(path.actions)
      invariant 0 <= i <= |path.actions|
      invariant ret.Valid() && ret.actions == path.actions[..i]
      invariant i == 0 ==> ret.state == copy
      invariant i > 0 ==> ret.state == path.actions[i - 1].state
      invariant forall k :: 0 <= k < i ==> !(path.actions[k].behaviour == GetEnergyAction && path.actions[k].actor.None?)
    {
      var action := path.actions[i];
      assert action.Footprint() <= Ships(path.actions);
      var added := ret.AddAction(action);
      if added.Thrown? {
        return Thrown;
      }
      assert path.actions[..i + 1] == path.actions[..i] + [action];
      i := i + 1;
    }
    assert path.actions[..|path.actions|] == path.actions;
    r := Value(ret);
  }

  /** The candidates whose precondition held in a sweep (met), in candidate order. */
  function Chosen(acts: seq<PlanAction>, met: seq<bool>): (r: seq<PlanAction>)
    requires |met| == |acts|
    ensures |r| <= |acts|
  {
    if |acts| == 0 then []
    else
      Chosen(acts[..|acts| - 1], met[..|met| - 1]) + (if met[|met| - 1] then [acts[|acts| - 1]] else [])
  }

  /** Recording one more candidate appends it to the chosen ones exactly when its precondition held. */
  lemma ChosenSnoc(acts: seq<PlanAction>, met: seq<bool>, j: int, b: bool)
    requires 0 <= j < |acts| && |met| == j
    ensures Chosen(acts[..j + 1], met + [b]) == Chosen(acts[..j], met) + (if b then [acts[j]] else [])
  {
    assert acts[..j + 1][..j] == acts[..j] && (met + [b])[..j] == met;
  }

  /** An action is chosen exactly when it is a candidate whose precondition held at some evaluation. */
  lemma {:induction false} ChosenMembers(acts: seq<PlanAction>, met: seq<bool>)
    requires |met| == |acts|
    ensures forall a :: a in Chosen(acts, met) <==> exists j :: 0 <= j < |acts| && met[j] && acts[j] == a
    decreases |acts|
  {
    if |acts| > 0 {
      var n := |acts| - 1;
      ChosenMembers(acts[..n], met[..n]);
      forall a
        ensures a in Chosen(acts, met) <==> exists j :: 0 <= j < |acts| && met[j] && acts[j] == a
      {
        if a in Chosen(acts[..n], met[..n]) {
          var j :| 0 <= j < n && met[..n][j] && acts[..n][j] == a;
          assert met[j] && acts[j] == a;
        }
        if exists j :: 0 <= j < |acts| && met[j] && acts[j] == a {
          var j :| 0 <= j < |acts| && met[j] && acts[j] == a;
          if j < n {
            assert met[..n][j] && acts[..n][j] == a;
          }
        }
      }
    }
  }

  /**
   * met agrees with the flags of the candidates evaluated so far: a
   * precondition that held is remembered, and one that failed left its
   * flag false unless the same action comes up again later.
   */
  ghost predicate Recorded(acts: seq<PlanAction>, met: seq<bool>)
    requires |met| <= |acts|
    reads acts
  {
    (forall i :: 0 <= i < |met| && met[i] ==> acts[i].preMet) &&
    (forall i :: 0 <= i < |met| && !met[i] ==> !acts[i].preMet || exists i' :: i < i' < |met| && acts[i'] == acts[i])
  }

  /**
   * The state of a sweep after the candidates met has entries for: the
   * queue keeps q as its prefix and continues with one successor per chosen
   * candidate, and met agrees with the candidates' flags.
   */
  ghost predicate SweepInv(q: seq<PlanPath>, tPath: PlanPath, acts: seq<PlanAction>, out: seq<PlanPath>,
                           met: seq<bool>, chosen: seq<PlanAction>)
    reads tPath, acts, out
  {
    |met| <= |acts| && Recorded(acts, met) && Queued(q, tPath, acts, out, met, chosen)
  }

  /** The queue part of SweepInv. */
  ghost predicate Queued(q: seq<PlanPath>, tPath: PlanPath, acts: seq<PlanAction>, out: seq<PlanPath>,
                         met: seq<bool>, chosen: seq<PlanAction>)
    requires |met| <= |acts|
    reads tPath, out
  {
    chosen == Chosen(acts[..|met|], met) && |out| == |q| + |chosen| && out[..|q|] == q
    && forall k :: |q| <= k < |out| ==> out[k].actions == tPath.actions + [chosen[k - |q|]]
  }

  /**
   * One BFS sweep of getNextAction: for each candidate action whose
   * precondition holds, a copy of the polled path with the action added is
   * enqueued. met records, candidate by candidate, whether the precondition
   * held at its evaluation.
   */
  method Expand(q: seq<PlanPath>, tPath: PlanPath, acts: seq<PlanAction>)
    returns (r: Access<seq<PlanPath>>, ghost met: seq<bool>)
    requires tPath.Valid()
    modifies acts`preMet, Ships(acts), Ships(tPath.actions)
    ensures acts == [] ==> r == Value(q)
    ensures r.Value? ==> |met| == |acts| && |r.value| == |q| + |Chosen(acts, met)| && r.value[..|q|] == q
    ensures r.Value? ==> forall k :: |q| <= k < |r.value| ==>
      fresh(r.value[k]) && r.value[k].actions == tPath.actions + [Chosen(acts, met)[k - |q|]]
    ensures r.Value? ==> forall j :: 0 <= j < |acts| && met[j] ==> acts[j].preMet
    ensures r.Value? ==> forall j :: 0 <= j < |acts| && !met[j] && acts[j] !in acts[j + 1..] ==> !acts[j].preMet
  {
    var out := q;
    met := [];
    ghost var chosen: seq<PlanAction> := [];
    var j := 0;
    while j < |acts|
      invariant 0 <= j <= |acts| && |met| == j && tPath.Valid()
      invariant SweepInv(q, tPath, acts, out, met, chosen)
      invariant forall k :: |q| <= k < |out| ==> fresh(out[k])
    {
      assert acts[j].Footprint() <= Ships(acts);
      var step;
      ghost var met', chosen';
      step, met', chosen' := SweepStep(q, tPath, acts, acts[j], out, met, chosen);
      if step.Thrown? {
        return Thrown, met;
      }
      out, met, chosen := step.value, met', chosen';
      j := j + 1;
    }
    assert acts[..j] == acts;
    assert |out| == |q| ==> out == out[..|q|];
    r := Value(out);
  }

  /**
   * One candidate of the sweep, the next one met has no entry for: extend
   * the polled path by it when its precondition holds, and record the outcome.
   */
  method SweepStep(q: seq<PlanPath>, tPath: PlanPath, acts: seq<PlanAction>, action: PlanAction, out: seq<PlanPath>,
                   ghost met: seq<bool>, ghost chosen: seq<PlanAction>)
    returns (r: Access<seq<PlanPath>>, ghost met': seq<bool>, ghost chosen': seq<PlanAction>)
    requires tPath.Valid() && |met| < |acts| && action == acts[|met|]
    requires SweepInv(q, tPath, acts, out, met, chosen)
    modifies action`preMet, action.Footprint(), Ships(tPath.actions)
    ensures tPath.Valid()
    ensures r.Value? ==> |met'| == |met| + 1 && SweepInv(q, tPath, acts, r.value, met', chosen')
    ensures r.Value? ==> |out| <= |r.value| && r.value[..|out|] == out
    ensures r.Value? ==> forall k :: 0 <= k < |r.value| ==> (k < |out| && r.value[k] == out[k]) || fresh(r.value[k])
  {
    var extended := EvaluateCandidate(tPath, acts, action, met);
    if extended.Thrown? {
      return Thrown, met, chosen;
    }
    assert forall k :: |q| <= k < |out| ==> out[k].actions == tPath.actions + [chosen[k - |q|]];
    var b := extended.value.Some?;
    QueuedStep(q, tPath, acts, out, met, chosen, if b then extended.value.value else tPath, b);
    met' := met + [b];
    if b {
      r, chosen' := Value(out + [extended.value.value]), chosen + [action];
    } else {
      r, chosen' := Value(out), chosen;
    }
  }

  /** The bookkeeping of one step of the sweep, in a single state: p is the successor when b holds. */
  lemma QueuedStep(q: seq<PlanPath>, tPath: PlanPath, acts: seq<PlanAction>, out: seq<PlanPath>,
                     met: seq<bool>, chosen: seq<PlanAction>, p: PlanPath, b: bool)
    requires |met| < |acts| && Queued(q, tPath, acts, out, met, chosen)
    requires b ==> p.actions == tPath.actions + [acts[|met|]]
    ensures Queued(q, tPath, acts, if b then out + [p] else out, met + [b], if b then chosen + [acts[|met|]] else chosen)
  {
    ChosenSnoc(acts, met, |met|, b);
    var out' := if b then out + [p] else out;
    var chosen' := if b then chosen + [acts[|met|]] else chosen;
    assert out'[..|q|] == out[..|q|];
    forall k | |q| <= k < |out'|
      ensures out'[k].actions == tPath.actions + [chosen'[k - |q|]]
    {
      if k < |out| {
        assert out'[k] == out[k] && chosen'[k - |q|] == chosen[k - |q|];
      }
    }
  }

  /** ExtendWith on the next candidate of the sweep, which extends the record by its outcome. */
  method EvaluateCandidate(tPath: PlanPath, acts: seq<PlanAction>, action: PlanAction, ghost met: seq<bool>)
    returns (r: Access<Option<PlanPath>>)
    requires tPath.Valid() && |met| < |acts| && action == acts[|met|] && Recorded(acts, met)
    modifies action`preMet, action.Footprint(), Ships(tPath.actions)
    ensures tPath.Valid()
    ensures r.Value? ==> Recorded(acts, met + [r.value.Some?])
    ensures r.Value? && r.value.Some? ==>
      fresh(r.value.value) && r.value.value.actions == tPath.actions + [action]
  {
    r := ExtendWith(tPath, action);
    if r.Thrown? {
      return;
    }
    var j := |met|;
    var m' := met + [r.value.Some?];
    forall i | 0 <= i < |m'|
      ensures m'[i] ==> acts[i].preMet
      ensures !m'[i] ==> !acts[i].preMet || exists i' :: i < i' < |m'| && acts[i'] == acts[i]
    {
      if acts[i] != action {
        assert acts[i].preMet == old(acts[i].preMet);
        if !m'[i] && acts[i].preMet {
          var i' :| i < i' < j && acts[i'] == acts[i];
          assert m'[i'] == met[i'];
        }
      } else if i < j {
        assert acts[j] == acts[i];
      }
    }
  }

  /**
   * The body of the sweep for one action: evaluate its precondition and,
   * when it holds, add it to a copy of the polled path. An action whose
   * precondition has held keeps it; a successor is made exactly when it holds.
   */
  method ExtendWith(tPath: PlanPath, action: PlanAction) returns (r: Access<Option<PlanPath>>)
    requires tPath.Valid()
    modifies action`preMet, action.Footprint(), Ships(tPath.actions)
    ensures old(action.preMet) ==> action.preMet
    ensures r.Value? ==> (r.value.Some? <==> action.preMet)
    ensures r.Value? ==> (action.preMet <==> old(action.preMet) || old(action.Evaluate()) == Value(true))
    ensures r.Value? && r.value.Some? ==>
      fresh(r.value.value) && r.value.value.actions == tPath.actions + [action]
  {
    var pre := action.PreCondition();
    if pre.Thrown? {
      return Thrown;
    }
    if !pre.value {
      return Value(None);
    }
    var copy := CopyPath(tPath);
    if copy.Thrown? {
      return Thrown;
    }
    var added := copy.value.AddAction(action);
    if added.Thrown? {
      return Thrown;
    }
    r := Value(Some(copy.value));
  }

  /** BDSM_MultiAgentPlanner, over its state and the planning ship's id. */
  class MultiAgentPlanner {
    var state: PlanState
    const actorId: Actor

    /** The planner of a ship, over the state built for it. */
    constructor (st: PlanState, ship: GameObject)
      ensures state == st && actorId == ActorId(ship.id)
    {
      state := st;
      actorId := ActorId(ship.id);
    }

    /**
     * getNextAction, with the goal test of isGoalState as its comment
     * intends. Successors come from genAllPossibleActions, which is always
     * empty, so the search polls the initial path once, the best path has no
     * actions, and the ship is told to do nothing.
     */
    method GetNextAction() returns (r: Access<PlanActionKind>)
      requires WellFormed(state)
      ensures r == Value(DoNothing)
    {
      var initialPath := new PlanPath(state);
      var bestPath := initialPath;
      var q := [initialPath];
      var numIterations := 0;
      while |q| > 0 && numIterations <= MAX_ITERATIONS
        invariant 0 <= numIterations <= 1
        invariant numIterations == 0 ==> q == [initialPath]
        invariant numIterations > 0 ==> q == []
        invariant initialPath.actions == [] && initialPath.actionMap == map[] && initialPath.state == state
        invariant bestPath == initialPath
      {
        var tPath := q[0];
        q := q[1..];
        var goal := IsGoalState(tPath.state);
        if goal {
          bestPath := tPath;
          break;
        }
        ghost var met;
        var expanded;
        expanded, met := Expand(q, tPath, GenAllPossibleActions(tPath.state, actorId));
        if expanded.Thrown? {
          assert false;
          return Thrown;
        }
        q := expanded.value;
        numIterations := numIterations + 1;
      }
      var actortion := bestPath.GetNextActionForActor(actorId);
      actortion.SetState(state);
      var applied := actortion.ApplyAction();
      if applied.Thrown? {
        assert false;
        return Thrown;
      }
      r := Value(actortion.GetAction());
    }
  }
}
