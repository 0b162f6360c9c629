/**
 * bost7517.BDSM_P4_Action and bost7517.BDSM_P4_State: a high-level action
 * that runs through precondition, the action itself and postcondition, and
 * the four-ship, four-base state whose goal is every ship guarding the base
 * of its index. The abstract hooks of an action are recorded as the sequence
 * of calls made to them; what preCondition and postCondition answer on a call
 * enters as parameters.
 */
module P4Planning {
  import opened Wrappers
  import opened GameObjects
  import opened P4Relations

  /** The abstract hooks of BDSM_P4_Action: _beginAction, _doAction and _endAction. */
  datatype Hook = Begin | Perform | End

  /** What doAction returns: a single DoNothingAction, or the list _doAction produced. */
  datatype Reply = DoNothingReply | Performed

  /** The effect of one doAction call on the flags preMet and postMet, with the hooks it calls and its reply. */
  datatype Effect = Effect(preMet: bool, postMet: bool, hooks: seq<Hook>, reply: Reply)

  /**
   * One doAction call. pre and post are what preCondition and
   * postCondition would answer on this call; each is consulted only in its
   * own phase.
   */
  function DoActionStep(preMet: bool, postMet: bool, pre: bool, post: bool): Effect
  {
    if !preMet then
      if pre then Effect(true, postMet, [Begin, Perform], Performed)
      else Effect(false, postMet, [], DoNothingReply)
    else if !postMet then
      if post then Effect(true, true, [End], DoNothingReply)
      else Effect(true, false, [Perform], Performed)
    else Effect(true, true, [], DoNothingReply)
  }

  /**
   * The hooks called so far agree with the flags: none before the
   * precondition is met, then _beginAction followed only by _doAction, and
   * once the postcondition is met, a single final _endAction.
   */
  ghost predicate Consistent(preMet: bool, postMet: bool, trace: seq<Hook>)
  {
    (postMet ==> preMet)
    && (!preMet ==> trace == [])
    && (preMet && !postMet ==>
          |trace| >= 2 && trace[0] == Begin && forall k :: 1 <= k < |trace| ==> trace[k] == Perform)
    && (postMet ==>
          |trace| >= 3 && trace[0] == Begin && trace[|trace| - 1] == End
          && forall k :: 1 <= k < |trace| - 1 ==> trace[k] == Perform)
  }

  /** Each phase of doAction: what it calls and returns, and that the flags are never reset. */
  lemma DoActionPhases(preMet: bool, postMet: bool, pre: bool, post: bool)
    ensures var e := DoActionStep(preMet, postMet, pre, post);
      (preMet ==> e.preMet) && (postMet ==> e.postMet)
      && (!preMet ==>
            e.postMet == postMet && (e.preMet <==> pre) && e.hooks == (if pre then [Begin, Perform] else []))
      && (preMet && !postMet ==> (e.postMet <==> post) && e.hooks == (if post then [End] else [Perform]))
      && (preMet && postMet ==> e.hooks == [] && e.reply == DoNothingReply)
      && (e.reply == Performed <==> Perform in e.hooks)
  {
  }

  /** The call that meets the precondition does not consult the postcondition. */
  lemma PostconditionNotCheckedOnStart(postMet: bool, post1: bool, post2: bool)
    ensures DoActionStep(false, postMet, true, post1) == DoActionStep(false, postMet, true, post2)
  {
  }

  /** doAction keeps the hooks consistent with the flags. */
  lemma StepKeepsConsistent(preMet: bool, postMet: bool, trace: seq<Hook>, pre: bool, post: bool)
    requires Consistent(preMet, postMet, trace)
    ensures var e := DoActionStep(preMet, postMet, pre, post);
      Consistent(e.preMet, e.postMet, trace + e.hooks)
  {
    var e := DoActionStep(preMet, postMet, pre, post);
    var t := trace + e.hooks;
    if preMet && !postMet && post {
      assert t[|t| - 1] == End;
      assert forall k :: 1 <= k < |t| - 1 ==> t[k] == trace[k];
    }
  }

  /** The hooks and replies of doAction called once per pair of answers, starting from the given flags. */
  function Run(preMet: bool, postMet: bool, pres: seq<bool>, posts: seq<bool>): (r: Effect)
    requires |pres| == |posts|
    decreases |pres|
  {
    if |pres| == 0 then Effect(preMet, postMet, [], DoNothingReply)
    else
      var e := DoActionStep(preMet, postMet, pres[0], posts[0]);
      var rest := Run(e.preMet, e.postMet, pres[1..], posts[1..]);
      rest.(hooks := e.hooks + rest.hooks)
  }

  /**
   * Over any run of a fresh action, _beginAction and _endAction are each
   * called at most once, _beginAction first, and _doAction only between them.
   */
  lemma {:induction false} RunIsConsistent(preMet: bool, postMet: bool, trace: seq<Hook>, pres: seq<bool>, posts: seq<bool>)
    requires |pres| == |posts| && Consistent(preMet, postMet, trace)
    ensures var r := Run(preMet, postMet, pres, posts);
      Consistent(r.preMet, r.postMet, trace + r.hooks)
    decreases |pres|
  {
    if |pres| > 0 {
      var e := DoActionStep(preMet, postMet, pres[0], posts[0]);
      StepKeepsConsistent(preMet, postMet, trace, pres[0], posts[0]);
      RunIsConsistent(e.preMet, e.postMet, trace + e.hooks, pres[1..], posts[1..]);
      assert trace + e.hooks + Run(e.preMet, e.postMet, pres[1..], posts[1..]).hooks
        == trace + Run(preMet, postMet, pres, posts).hooks;
    }
  }

  /** The hooks a consistent record can hold: _beginAction first and at most once, _endAction at most once and last. */
  lemma ConsistentShape(preMet: bool, postMet: bool, trace: seq<Hook>)
    requires Consistent(preMet, postMet, trace)
    ensures forall k :: 0 <= k < |trace| && trace[k] == Begin ==> k == 0
    ensures forall k :: 0 <= k < |trace| && trace[k] == End ==> k == |trace| - 1 && postMet
    ensures |trace| > 0 ==> trace[0] == Begin && preMet
  {
  }

  /** BDSM_P4_Action, with hooks recording the calls it has made to its abstract methods. */
  class P4Action {
    var preMet: bool
    var postMet: bool
    var hooks: seq<Hook>
    const state: P4State

    ghost predicate Valid()
      reads this
    {
      Consistent(preMet, postMet, hooks)
    }

    /** A new action over a state: neither condition met, no hook called. */
    constructor (st: P4State)
      ensures Valid() && !preMet && !postMet && hooks == [] && state == st
    {
      preMet := false;
      postMet := false;
      hooks := [];
      state := st;
    }

    /** getState. */
    function GetState(): (st: P4State)
      ensures st == state
    {
      state
    }

    /**
     * doAction: before the precondition is met, meet it and begin and
     * perform the action, or do nothing; while running, end the action once
     * the postcondition holds, or perform it again; afterwards, do nothing.
     */
    method DoAction(pre: bool, post: bool) returns (reply: Reply)
      requires Valid()
      modifies this`preMet, this`postMet, this`hooks
      ensures Valid()
      ensures var e := DoActionStep(old(preMet), old(postMet), pre, post);
        preMet == e.preMet && postMet == e.postMet && hooks == old(hooks) + e.hooks && reply == e.reply
    {
      StepKeepsConsistent(preMet, postMet, hooks, pre, post);
      if !preMet {
        if pre {
          preMet := true;
          hooks := hooks + [Begin];
          hooks := hooks + [Perform];
          return Performed;
        } else {
          reply := DoNothingReply;
        }
      } else if !postMet {
        if post {
          postMet := true;
          hooks := hooks + [End];
          reply := DoNothingReply;
        } else {
          hooks := hooks + [Perform];
          return Performed;
        }
      } else {
        reply := DoNothingReply;
      }
    }
  }

  /** NUM_SHIPS and NUM_BASES: the sizes of the state's arrays. */
  const NUM_SHIPS: nat := 4
  const NUM_BASES: nat := 4

  /** The objects of one kind, in iteration order, as instanceof selects them. */
  function OfKind(objs: seq<GameObject>, k: Kind): (r: seq<GameObject>)
    ensures |r| <= |objs|
    ensures forall i :: 0 <= i < |r| ==> r[i].kind == k && r[i] in objs
  {
    if |objs| == 0 then []
    else
      var rest := OfKind(objs[..|objs| - 1], k);
      if objs[|objs| - 1].kind == k then rest + [objs[|objs| - 1]] else rest
  }

  /** Every object of the kind is selected. */
  lemma {:induction false} OfKindIsComplete(objs: seq<GameObject>, k: Kind, o: GameObject)
    requires o in objs && o.kind == k
    ensures o in OfKind(objs, k)
  {
    var n := |objs| - 1;
    if objs[n] != o {
      var j :| 0 <= j < |objs| && objs[j] == o;
      assert objs[..n][j] == o;
      OfKindIsComplete(objs[..n], k, o);
    }
  }

  /** Selecting over one more object of the sequence appends it when it is of the kind. */
  lemma {:induction false} OfKindStep(objs: seq<GameObject>, k: Kind, i: nat)
    requires i < |objs|
    ensures OfKind(objs[..i + 1], k) == OfKind(objs[..i], k) + (if objs[i].kind == k then [objs[i]] else [])
  {
    assert objs[..i + 1][..i] == objs[..i];
  }

  /** A longer prefix never selects fewer objects. */
  lemma {:induction false} OfKindGrows(objs: seq<GameObject>, k: Kind, i: nat)
    requires i <= |objs|
    ensures |OfKind(objs[..i], k)| <= |OfKind(objs, k)|
    decreases |objs| - i
  {
    if i < |objs| {
      OfKindGrows(objs, k, i + 1);
      assert objs[..i + 1][..i] == objs[..i];
    } else {
      assert objs[..i] == objs;
    }
  }

  /** The null-safe view of isGuarding on array slots: a null ship, or a null base next to a living ship, is dereferenced. */
  function GuardingSlot(dist: Distance, s: Option<GameObject>, b: Option<GameObject>): (r: Access<bool>)
    ensures r.Thrown? <==> s.None? || (s.value.alive && b.None?)
    ensures r == Value(true) <==> s.Some? && b.Some? && IsGuarding(dist, s.value, b.value)
  {
    if s.None? then Thrown
    else if !IsAlive(s.value) then Value(false)
    else if b.None? then Thrown
    else Value(IsGuarding(dist, s.value, b.value))
  }

  /** Slots after filling the first |xs| of them with xs in order; the rest keep their contents. */
  function Filled(slots: seq<Option<GameObject>>, xs: seq<GameObject>): (r: seq<Option<GameObject>>)
    requires |xs| <= |slots|
    ensures |r| == |slots|
    ensures forall j :: 0 <= j < |xs| ==> r[j] == Some(xs[j])
    ensures forall j :: |xs| <= j < |slots| ==> r[j] == slots[j]
  {
    seq(|slots|, j requires 0 <= j < |slots| => if j < |xs| then Some(xs[j]) else slots[j])
  }

  /** Filling one more slot is a store at the next index. */
  lemma {:induction false} FilledStep(slots: seq<Option<GameObject>>, xs: seq<GameObject>, o: GameObject)
    requires |xs| < |slots|
    ensures Filled(slots, xs + [o]) == Filled(slots, xs)[|xs| := Some(o)]
  {
  }

  /** An array store a[idx] = o, which is out of bounds past the end. */
  method Store(a: array<Option<GameObject>>, idx: nat, o: GameObject) returns (r: Access<()>)
    modifies a
    ensures r.Thrown? <==> idx >= a.Length
    ensures r.Thrown? ==> a[..] == old(a[..])
    ensures r.Value? ==> a[..] == old(a[..])[idx := Some(o)]
  {
    if idx >= a.Length {
      return Thrown;
    }
    a[idx] := Some(o);
    r := Value(());
  }

  /** The store at the next free slot of a partly filled array: one more object filled, or out of bounds. */
  method StoreNext(a: array<Option<GameObject>>, idx: nat, o: GameObject,
                   ghost slots0: seq<Option<GameObject>>, ghost xs: seq<GameObject>) returns (r: Access<()>)
    requires idx == |xs| <= a.Length == |slots0| && a[..] == Filled(slots0, xs)
    modifies a
    ensures r.Thrown? <==> idx == a.Length
    ensures r.Value? ==> a[..] == Filled(slots0, xs + [o])
  {
    r := Store(a, idx, o);
    if r.Value? {
      FilledStep(slots0, xs, o);
    }
  }

  /** BDSM_P4_State: the team's ships and bases, at most four of each, by iteration order. */
  class P4State {
    const ships: array<Option<GameObject>>
    const bases: array<Option<GameObject>>

    /** The arrays as the constructor allocates them: four empty slots each. */
    constructor Allocate()
      ensures ships.Length == NUM_SHIPS && bases.Length == NUM_BASES && ships != bases
      ensures forall i :: 0 <= i < NUM_SHIPS ==> ships[i].None?
      ensures forall i :: 0 <= i < NUM_BASES ==> bases[i].None?
      ensures fresh(ships) && fresh(bases)
    {
      ships := new Option<GameObject>[NUM_SHIPS](_ => None);
      bases := new Option<GameObject>[NUM_BASES](_ => None);
    }

    /**
     * initStateArrays: ships go to ships[0..] and bases to bases[0..] in
     * iteration order, other objects are skipped; one more than a slot array
     * holds is an index out of bounds.
     */
    method InitStateArrays(objs: seq<GameObject>) returns (r: Access<()>)
      requires ships != bases
      modifies ships, bases
      ensures r.Thrown? <==> |OfKind(objs, ShipKind)| > ships.Length || |OfKind(objs, BaseKind)| > bases.Length
      ensures r.Value? ==>
        ships[..] == Filled(old(ships[..]), OfKind(objs, ShipKind))
        && bases[..] == Filled(old(bases[..]), OfKind(objs, BaseKind))
    {
      var shipIdx := 0;
      var baseIdx := 0;
      ghost var ships0 := ships[..];
      ghost var bases0 := bases[..];
      var i := 0;
      while i < |objs|
        invariant 0 <= i <= |objs|
        invariant FilledUpTo(objs, i, ships0, bases0)
        invariant shipIdx == |OfKind(objs[..i], ShipKind)| && baseIdx == |OfKind(objs[..i], BaseKind)|
      {
        r, shipIdx, baseIdx := PlaceOne(objs, i, shipIdx, baseIdx, ships0, bases0);
        if r.Thrown? {
          OfKindGrows(objs, ShipKind, i + 1);
          OfKindGrows(objs, BaseKind, i + 1);
          return;
        }
        i := i + 1;
      }
      assert objs[..|objs|] == objs;
      r := Value(());
    }

    /** The slot arrays hold, from the start, the ships and the bases among the first i objects. */
    ghost predicate FilledUpTo(objs: seq<GameObject>, i: nat, ships0: seq<Option<GameObject>>, bases0: seq<Option<GameObject>>)
      requires i <= |objs|
      reads ships, bases
    {
      var sh, bs := OfKind(objs[..i], ShipKind), OfKind(objs[..i], BaseKind);
      && |ships0| == ships.Length && |bases0| == bases.Length
      && |sh| <= ships.Length && |bs| <= bases.Length
      && ships[..] == Filled(ships0, sh) && bases[..] == Filled(bases0, bs)
    }

    /** One turn of the loop of initStateArrays: the i-th object stored in its array, if it is a ship or a base. */
    method PlaceOne(objs: seq<GameObject>, i: nat, shipIdx: nat, baseIdx: nat,
                    ghost ships0: seq<Option<GameObject>>, ghost bases0: seq<Option<GameObject>>)
      returns (r: Access<()>, shipIdx': nat, baseIdx': nat)
      requires ships != bases && i < |objs| && FilledUpTo(objs, i, ships0, bases0)
      requires shipIdx == |OfKind(objs[..i], ShipKind)| && baseIdx == |OfKind(objs[..i], BaseKind)|
      modifies ships, bases
      ensures r.Thrown? <==> |OfKind(objs[..i + 1], ShipKind)| > ships.Length || |OfKind(objs[..i + 1], BaseKind)| > bases.Length
      ensures r.Value? ==> FilledUpTo(objs, i + 1, ships0, bases0)
      ensures r.Value? ==> shipIdx' == |OfKind(objs[..i + 1], ShipKind)| && baseIdx' == |OfKind(objs[..i + 1], BaseKind)|
    {
      var obj := objs[i];
      OfKindStep(objs, ShipKind, i);
      OfKindStep(objs, BaseKind, i);
      shipIdx', baseIdx' := shipIdx, baseIdx;
      r := Value(());
      if obj.kind == ShipKind {
        r := StoreNext(ships, shipIdx, obj, ships0, OfKind(objs[..i], ShipKind));
        shipIdx' := shipIdx + 1;
      } else if obj.kind == BaseKind {
        r := StoreNext(bases, baseIdx, obj, bases0, OfKind(objs[..i], BaseKind));
        baseIdx' := baseIdx + 1;
      }
    }

    /**
     * isGoalState: false when an array is not of its expected size;
     * otherwise every ship guards the base of the same index. Every pair is
     * tested, so a null slot that isGuarding dereferences throws.
     */
    method IsGoalState(dist: Distance) returns (r: Access<bool>)
      ensures ships.Length != NUM_SHIPS || bases.Length != NUM_BASES ==> r == Value(false)
      ensures ships.Length == NUM_SHIPS && bases.Length == NUM_BASES ==>
        (r.Thrown? <==> exists i :: 0 <= i < NUM_SHIPS && GuardingSlot(dist, ships[i], bases[i]).Thrown?)
      ensures ships.Length == NUM_SHIPS && bases.Length == NUM_BASES ==>
        (r == Value(true) <==> forall i :: 0 <= i < NUM_SHIPS ==> GuardingSlot(dist, ships[i], bases[i]) == Value(true))
    {
      if ships.Length != NUM_SHIPS || bases.Length != NUM_BASES {
        return Value(false);
      }
      var isGoal := true;
      var i := 0;
      while i < NUM_SHIPS
        invariant 0 <= i <= NUM_SHIPS
        invariant forall j :: 0 <= j < i ==> GuardingSlot(dist, ships[j], bases[j]).Value?
        invariant isGoal <==> forall j :: 0 <= j < i ==> GuardingSlot(dist, ships[j], bases[j]) == Value(true)
      {
        var isGuarding := GuardingSlot(dist, ships[i], bases[i]);
        if isGuarding.Thrown? {
          return Thrown;
        }
        isGoal := isGoal && isGuarding.value;
        i := i + 1;
      }
      r := Value(isGoal);
    }

    /** applyAction: the action's doAction, and nothing more. */
    method ApplyAction(action: P4Action, pre: bool, post: bool)
      requires action.Valid()
      modifies action`preMet, action`postMet, action`hooks
      ensures action.Valid()
      ensures var e := DoActionStep(old(action.preMet), old(action.postMet), pre, post);
        action.preMet == e.preMet && action.postMet == e.postMet && action.hooks == old(action.hooks) + e.hooks
    {
      var _ := action.DoAction(pre, post);
    }
  }

  /** new BDSM_P4_State(space, actionableObjects): the arrays allocated, then filled. */
  method NewP4State(objs: seq<GameObject>) returns (r: Access<P4State>)
    ensures r.Thrown? <==> |OfKind(objs, ShipKind)| > NUM_SHIPS || |OfKind(objs, BaseKind)| > NUM_BASES
    ensures r.Value? ==>
      var sh := OfKind(objs, ShipKind);
      var bs := OfKind(objs, BaseKind);
      fresh(r.value) && r.value.ships.Length == NUM_SHIPS && r.value.bases.Length == NUM_BASES
      && (forall i :: 0 <= i < NUM_SHIPS ==> r.value.ships[i] == if i < |sh| then Some(sh[i]) else None)
      && (forall i :: 0 <= i < NUM_BASES ==> r.value.bases[i] == if i < |bs| then Some(bs[i]) else None)
  {
    var st := new P4State.Allocate();
    var filled := st.InitStateArrays(objs);
    if filled.Thrown? {
      return Thrown;
    }
    r := Value(st);
  }

  /**
   * A state with fewer than four ships has a null ship slot, which the goal
   * test dereferences: it throws rather than answering.
   */
  lemma FewShipsThrow(dist: Distance, ships: seq<Option<GameObject>>, bases: seq<Option<GameObject>>, n: nat)
    requires |ships| == NUM_SHIPS && |bases| == NUM_BASES && n < NUM_SHIPS
    requires forall i :: n <= i < NUM_SHIPS ==> ships[i].None?
    ensures exists i :: 0 <= i < NUM_SHIPS && GuardingSlot(dist, ships[i], bases[i]).Thrown?
  {
    assert GuardingSlot(dist, ships[n], bases[n]).Thrown?;
  }
}
