/**
 * bost7517.BDSM_PlanAction and bost7517.BDSM_PlanActions: the planner's
 * action space and its two implemented actions. An action remembers once its
 * precondition has held; GetEnergyAction looks its ship up at construction
 * and clears the ship's lowEnergy flag when applied; the do-nothing action
 * holds always and changes nothing.
 */
module PlanActions {
  import opened Wrappers
  import opened GameObjects
  import opened PlanStates

  /** The enumeration BDSM_PlanActions, in declaration order (the spelling GetResoruces is the source's). */
  datatype PlanActionKind = GetEnergy | ReturnFlag | DeliverFlag | CaptureFlag | Guard | DumpResources | GetResoruces | DoNothing

  /** allActions: every action but DoNothing, in declaration order. */
  const ALL_ACTIONS: seq<PlanActionKind> := [GetEnergy, ReturnFlag, DeliverFlag, CaptureFlag, Guard, DumpResources, GetResoruces]

  /** getAllActions: a copy of allActions; seven distinct actions, none of them DoNothing. */
  function GetAllActions(): (r: seq<PlanActionKind>)
    ensures |r| == 7
    ensures forall i :: 0 <= i < |r| ==> r[i] != DoNothing
    ensures forall i, j :: 0 <= i < j < |r| ==> r[i] != r[j]
  {
    ALL_ACTIONS
  }

  /** Every action other than DoNothing is among getAllActions. */
  lemma AllActionsAreTheRest(a: PlanActionKind)
    ensures a in GetAllActions() <==> a != DoNothing
  {
    var r := GetAllActions();
    match a
    case GetEnergy => assert r[0] == a;
    case ReturnFlag => assert r[1] == a;
    case DeliverFlag => assert r[2] == a;
    case CaptureFlag => assert r[3] == a;
    case Guard => assert r[4] == a;
    case DumpResources => assert r[5] == a;
    case GetResoruces => assert r[6] == a;
    case DoNothing =>
  }

  /** An actor's UUID, or NO_ACTOR, the random UUID that marks actions with no actor. */
  datatype Actor = NoActor | ActorId(id: Uuid)

  /** The two concrete subclasses of BDSM_PlanAction. */
  datatype Behaviour = GetEnergyAction | DoNothingAction

  /**
   * A BDSM_PlanAction. actor is the state ship GetEnergyAction looks up at
   * construction (None when the id is unknown); a do-nothing action has none.
   */
  class PlanAction {
    var preMet: bool
    var state: PlanState
    const actorId: Actor
    const behaviour: Behaviour
    const actor: Option<StateShip>

    /** new GetEnergyAction(state, actorId). */
    constructor GetEnergyFor(st: PlanState, id: Actor)
      ensures !preMet && state == st && actorId == id && behaviour == GetEnergyAction
      ensures actor == (if id.ActorId? then GetStateShipById(st, id.id) else None)
    {
      preMet := false;
      state := st;
      actorId := id;
      behaviour := GetEnergyAction;
      actor := if id.ActorId? then GetStateShipById(st, id.id) else None;
    }

    /** new BDSM_DoNothingAction(state, actorId). */
    constructor DoNothingFor(st: PlanState, id: Actor)
      ensures !preMet && state == st && actorId == id && behaviour == DoNothingAction && actor.None?
    {
      preMet := false;
      state := st;
      actorId := id;
      behaviour := DoNothingAction;
      actor := None;
    }

    /** The state ship the action may change. */
    function Footprint(): set<StateShip>
    {
      if actor.Some? then {actor.value} else {}
    }

    /** _preCondition: the actor's lowEnergy (a null actor throws), or true for doing nothing. */
    function Evaluate(): (r: Access<bool>)
      reads Footprint()
      ensures behaviour == DoNothingAction ==> r == Value(true)
      ensures behaviour == GetEnergyAction ==> (r.Thrown? <==> actor.None?)
      ensures behaviour == GetEnergyAction && actor.Some? ==> r == Value(actor.value.lowEnergy)
    {
      match behaviour
      case GetEnergyAction => if actor.None? then Thrown else Value(actor.value.lowEnergy)
      case DoNothingAction => Value(true)
    }

    /**
     * preCondition: true without evaluating once it has held; otherwise
     * evaluate, and remember a true result.
     */
    method PreCondition() returns (r: Access<bool>)
      modifies this`preMet
      ensures old(preMet) ==> r == Value(true) && preMet
      ensures !old(preMet) ==> r == Evaluate() && (preMet <==> r == Value(true))
    {
      if preMet {
        return Value(true);
      }
      r := Evaluate();
      if r.Value? {
        preMet := r.value;
      }
    }

    /** postCondition: both actions leave it false. */
    predicate PostCondition()
    {
      false
    }

    /** getAction: the enumeration entry of the action. */
    function GetAction(): (k: PlanActionKind)
      ensures k == GetEnergy <==> behaviour.GetEnergyAction?
      ensures k == DoNothing <==> behaviour.DoNothingAction?
    {
      if behaviour.GetEnergyAction? then GetEnergy else DoNothing
    }

    /** getActor. */
    function GetActor(): Actor
    {
      actorId
    }

    /** setState: only the state reference changes. */
    method SetState(st: PlanState)
      modifies this`state
      ensures state == st
    {
      state := st;
    }

    /**
     * applyAction: GetEnergyAction clears its actor's lowEnergy (a null actor
     * throws) and returns its own state object; doing nothing returns the
     * state as it is.
     */
    method ApplyAction() returns (r: Access<PlanState>)
      modifies Footprint()
      ensures r.Thrown? <==> behaviour == GetEnergyAction && actor.None?
      ensures r.Value? ==> r.value == state
      ensures behaviour == GetEnergyAction && actor.Some? ==> !actor.value.lowEnergy
    {
      if behaviour == GetEnergyAction {
        if actor.None? {
          return Thrown;
        }
        actor.value.lowEnergy := false;
      }
      r := Value(state);
    }
  }

  /** The ids each genAllActions keeps, in key order: all for doing nothing, the low-energy ships for GetEnergy. */
  function Kept(b: Behaviour, st: PlanState, order: seq<Uuid>): (ids: seq<Uuid>)
    requires b == GetEnergyAction ==> forall k :: 0 <= k < |order| ==> order[k] in st.idStateShipMap
    reads st.idStateShipMap.Values
    ensures |ids| <= |order| && forall k :: 0 <= k < |ids| ==> ids[k] in order
    ensures b == DoNothingAction ==> ids == order
    ensures b == GetEnergyAction ==> forall k :: 0 <= k < |ids| ==> st.idStateShipMap[ids[k]].lowEnergy
  {
    if |order| == 0 then []
    else
      var rest := Kept(b, st, order[..|order| - 1]);
      var id := order[|order| - 1];
      if b == DoNothingAction || st.idStateShipMap[id].lowEnergy then rest + [id] else rest
  }

  /** Every low-energy ship in the key order is kept by GetEnergy. */
  lemma {:induction false} KeptIsComplete(st: PlanState, order: seq<Uuid>, id: Uuid)
    requires forall k :: 0 <= k < |order| ==> order[k] in st.idStateShipMap
    requires id in order && st.idStateShipMap[id].lowEnergy
    ensures id in Kept(GetEnergyAction, st, order)
  {
    var n := |order| - 1;
    if order[n] != id {
      assert id in order[..n] by {
        var k :| 0 <= k < |order| && order[k] == id;
        assert order[..n][k] == id;
      }
      KeptIsComplete(st, order[..n], id);
    }
  }

  /**
   * genAllActions of either action for a state, over the keys of
   * idGameShipMap in iteration order: one new action per ship, kept when its
   * precondition holds (always, for doing nothing). A GetEnergy action for a
   * ship unknown to idStateShipMap throws.
   */
  method GenAllActions(b: Behaviour, st: PlanState, order: seq<Uuid>) returns (r: Access<seq<PlanAction>>)
    requires forall id :: id in order <==> id in st.idGameShipMap
    ensures b == DoNothingAction ==> r.Value?
    ensures b == GetEnergyAction ==> (r.Thrown? <==> exists k :: 0 <= k < |order| && order[k] !in st.idStateShipMap)
    ensures r.Value? ==>
      var ids := Kept(b, st, order);
      |r.value| == |ids|
      && forall k :: 0 <= k < |ids| ==>
        fresh(r.value[k]) && r.value[k].behaviour == b && r.value[k].state == st
        && r.value[k].actorId == ActorId(ids[k]) && (r.value[k].preMet <==> b == GetEnergyAction)
  {
    if b == DoNothingAction {
      var ret := GenDoNothingActions(st, order);
      r := Value(ret);
    } else {
      r := GenGetEnergyActions(st, order);
    }
  }

  /** The do-nothing half of genAllActions: one unevaluated action per id, in order. */
  method GenDoNothingActions(st: PlanState, order: seq<Uuid>) returns (ret: seq<PlanAction>)
    ensures |ret| == |order|
    ensures forall k :: 0 <= k < |order| ==>
      fresh(ret[k]) && ret[k].behaviour == DoNothingAction && ret[k].state == st
      && ret[k].actorId == ActorId(order[k]) && !ret[k].preMet
  {
    ret := [];
    var i := 0;
    while i < |order|
      invariant 0 <= i <= |order| && |ret| == i
      invariant forall k :: 0 <= k < i ==>
        fresh(ret[k]) && ret[k].behaviour == DoNothingAction && ret[k].state == st
        && ret[k].actorId == ActorId(order[k]) && !ret[k].preMet
    {
      var a := new PlanAction.DoNothingFor(st, ActorId(order[i]));
      ret := ret + [a];
      i := i + 1;
    }
  }

  /** A new GetEnergyAction for one id with its precondition evaluated: the ship's lowEnergy, or a throw for an unknown id. */
  method NewGetEnergy(st: PlanState, id: Uuid) returns (a: PlanAction, pre: Access<bool>)
    ensures fresh(a) && a.behaviour == GetEnergyAction && a.state == st && a.actorId == ActorId(id)
    ensures pre.Thrown? <==> id !in st.idStateShipMap
    ensures pre.Value? ==> (pre.value <==> st.idStateShipMap[id].lowEnergy) && a.preMet == pre.value
  {
    a := new PlanAction.GetEnergyFor(st, ActorId(id));
    pre := a.PreCondition();
  }

  /** The GetEnergy half of genAllActions: the low-energy ships' actions, in order; an unknown id throws. */
  method GenGetEnergyActions(st: PlanState, order: seq<Uuid>) returns (r: Access<seq<PlanAction>>)
    ensures r.Thrown? <==> exists k :: 0 <= k < |order| && order[k] !in st.idStateShipMap
    ensures r.Value? ==>
      (forall k :: 0 <= k < |order| ==> order[k] in st.idStateShipMap)
      && var ids := Kept(GetEnergyAction, st, order);
      |r.value| == |ids|
      && forall k :: 0 <= k < |ids| ==>
        fresh(r.value[k]) && r.value[k].behaviour == GetEnergyAction && r.value[k].state == st
        && r.value[k].actorId == ActorId(ids[k]) && r.value[k].preMet
  {
    var ret: seq<PlanAction> := [];
    var i := 0;
    while i < |order|
      invariant 0 <= i <= |order|
      invariant forall k :: 0 <= k < i ==> order[k] in st.idStateShipMap
      invariant var ids := Kept(GetEnergyAction, st, order[..i]);
        |ret| == |ids|
        && forall k :: 0 <= k < |ids| ==>
          fresh(ret[k]) && ret[k].behaviour == GetEnergyAction && ret[k].state == st
          && ret[k].actorId == ActorId(ids[k]) && ret[k].preMet
    {
      assert order[..i + 1][..i] == order[..i];
      var a, pre := NewGetEnergy(st, order[i]);
      if pre.Thrown? {
        return Thrown;
      }
      if pre.value {
        ret := ret + [a];
      }
      i := i + 1;
    }
    assert order[..|order|] == order;
    r := Value(ret);
  }

  /** lookupAction: GetEnergy gives a GetEnergyAction and every other entry a do-nothing action, for the given state and actor. */
  method LookupAction(kind: PlanActionKind, st: PlanState, id: Actor) returns (a: PlanAction)
    ensures fresh(a) && a.state == st && a.actorId == id && !a.preMet
    ensures a.behaviour == (if kind == GetEnergy then GetEnergyAction else DoNothingAction)
    ensures a.GetAction() == (if kind == GetEnergy then GetEnergy else DoNothing)
  {
    if kind == GetEnergy {
      a := new PlanAction.GetEnergyFor(st, id);
    } else {
      a := new PlanAction.DoNothingFor(st, id);
    }
  }

  /** genAllPossibleActions: the list it converts to an array is never filled. */
  function GenAllPossibleActions(st: PlanState, id: Actor): (r: seq<PlanAction>)
    ensures |r| == 0
  {
    []
  }
}
