/**
 * bost7517.BDSM_PlanState: the planner's symbolic picture of the game. A
 * state has slots for four ships and four bases, each with liveness and a
 * coarse location, and maps from ship ids to the state ships and to the
 * game ships. State ships are objects, because BDSM_PlanActions mutates
 * their lowEnergy flag and copies of a state share them; bases are values.
 */
module PlanStates {
  import opened Wrappers
  import opened JavaNum
  import opened GameObjects
  import AgentUtils

  const TOTAL_SHIPS: nat := 4
  const INITIAL_SHIPS: nat := 3
  const TOTAL_BASES: nat := 4
  const INITIAL_BASES: nat := 1

  /** StateLocation: the map's regions, plus NA for an object that is not alive. */
  datatype Location = Home | RedAlcove1 | RedAlcove2 | RedCenter | NA

  /** baseLocations: where bases are meant to be bought, in purchase order. */
  const BASE_LOCATIONS: seq<Location> := [Home, RedAlcove1, RedAlcove2, RedCenter]

  /** BDSM_ShipRole, of which the state only tests FlagBoy. */
  datatype ShipRole = FlagBoy | OtherRole

  /**
   * approximateLocation: dead objects are nowhere; the left half of the map
   * (width / 2 in int division) is Home; the right half is split by height
   * into thirds (height / 3 and 2 * height / 3, again in int division).
   */
  function ApproximateLocation(o: GameObject, width: int, height: int): Location
  {
    if !o.alive then NA
    else if o.position.x <= Quot(width, 2) as real then Home
    else if o.position.y <= Quot(height, 3) as real then RedAlcove1
    else if o.position.y <= Quot(2 * height, 3) as real then RedCenter
    else RedAlcove2
  }

  /**
   * A live object is at one of the four base locations and a dead one at NA;
   * on the right half of a map of nonnegative height the three bands are
   * taken in order of height.
   */
  lemma LocationRegions(o: GameObject, width: int, height: int)
    ensures ApproximateLocation(o, width, height) in BASE_LOCATIONS <==> o.alive
    ensures ApproximateLocation(o, width, height) == NA <==> !o.alive
    ensures o.alive && o.position.x > Quot(width, 2) as real && height >= 0 ==>
      (ApproximateLocation(o, width, height) == RedAlcove1 <==> o.position.y <= Quot(height, 3) as real)
      && (ApproximateLocation(o, width, height) == RedAlcove2 <==> o.position.y > Quot(2 * height, 3) as real)
  {
    if height >= 0 {
      assert Quot(height, 3) <= Quot(2 * height, 3);
    }
  }

  /** StateObject: liveness and location. */
  datatype StateObject = StateObject(isAlive: bool, location: Location)

  /** StateShip; nextAction is always null and is not kept. */
  class StateShip {
    const obj: StateObject
    var lowEnergy: bool
    const isGuard: bool
    const isLoaded: bool
    const isCollector: bool
    const id: Option<Uuid>

    /** The state ship of a real ship. */
    constructor FromShip(s: GameObject, width: int, height: int, role: ShipRole)
      ensures Mirrors(s, width, height, role)
    {
      obj := StateObject(s.alive, ApproximateLocation(s, width, height));
      lowEnergy := s.energy <= AgentUtils.LOW_ENERGY_THRESHOLD;
      isGuard := role == FlagBoy;
      isCollector := role != FlagBoy;
      isLoaded := s.resources as real >= AgentUtils.RESOURCE_THRESHOLD;
      id := Some(s.id);
    }

    /** A padding slot: not alive, at NA, every flag false, no id. */
    constructor Padding()
      ensures IsPadding()
    {
      obj := StateObject(false, NA);
      lowEnergy := false;
      isGuard := false;
      isLoaded := false;
      isCollector := false;
      id := None;
    }

    /** The state ship stands for s: its liveness and region, low energy at 2750 or less, loaded at 2000 or more, a guard iff a FlagBoy, a collector iff not a guard. */
    predicate Mirrors(s: GameObject, width: int, height: int, role: ShipRole)
      reads this
    {
      obj == StateObject(s.alive, ApproximateLocation(s, width, height))
      && (lowEnergy <==> s.energy <= AgentUtils.LOW_ENERGY_THRESHOLD)
      && (isLoaded <==> s.resources as real >= AgentUtils.RESOURCE_THRESHOLD)
      && (isGuard <==> role == FlagBoy)
      && (isCollector <==> !isGuard)
      && id == Some(s.id)
    }

    predicate IsPadding()
      reads this
    {
      obj == StateObject(false, NA) && !lowEnergy && !isGuard && !isLoaded && !isCollector && id.None?
    }
  }

  /** StateBase: liveness, location, and whether it is at Home. */
  datatype StateBase = StateBase(obj: StateObject, isHome: bool)

  /** The state base of a real base. */
  function BaseOf(b: GameObject, width: int, height: int): (r: StateBase)
    ensures r.obj.isAlive == b.alive && (r.obj.location == NA <==> !b.alive)
    ensures r.isHome <==> r.obj.location == Home
  {
    var loc := ApproximateLocation(b, width, height);
    StateBase(StateObject(b.alive, loc), loc == Home)
  }

  /** A padding base: not alive, at NA, not home. */
  const PADDING_BASE: StateBase := StateBase(StateObject(false, NA), false)

  /**
   * The fields of a state: the ship and base slots, the two id maps, and the
   * counts of real ships and bases. purchaseCount is never used and is not kept.
   */
  datatype PlanState = PlanState(
    ships: seq<StateShip>,
    bases: seq<StateBase>,
    idStateShipMap: map<Uuid, StateShip>,
    idGameShipMap: map<Uuid, GameObject>,
    numShips: int,
    numBases: int)

  /** The slots have the lengths TOTAL_SHIPS and TOTAL_BASES. */
  predicate WellFormed(st: PlanState)
  {
    |st.ships| == TOTAL_SHIPS && |st.bases| == TOTAL_BASES
  }

  /** getStateShipById: HashMap.get, null for an unknown id. */
  function GetStateShipById(st: PlanState, id: Uuid): (r: Option<StateShip>)
    ensures r.Some? <==> id in st.idStateShipMap
    ensures r.Some? ==> r.value == st.idStateShipMap[id]
  {
    if id in st.idStateShipMap then Some(st.idStateShipMap[id]) else None
  }

  /** isAlive. */
  predicate IsAlive(o: StateObject)
  {
    o.isAlive
  }

  /** isNear: the same location. */
  predicate IsNear(a: StateObject, b: StateObject)
  {
    a.location == b.location
  }

  /** at. */
  predicate At(o: StateObject, loc: Location)
  {
    o.location == loc
  }

  /** isGuarded: both alive, near each other, and the base at the location. */
  predicate IsGuarded(b: StateBase, s: StateShip, loc: Location)
  {
    IsAlive(b.obj) && IsAlive(s.obj) && IsNear(b.obj, s.obj) && At(b.obj, loc)
  }

  /** isGuard. */
  predicate IsGuard(s: StateShip)
    reads s
  {
    s.isGuard
  }

  /** isNear is an equivalence, and a neighbour of an object at a location is at that location too. */
  lemma NearIsEquivalence(a: StateObject, b: StateObject, c: StateObject, loc: Location)
    ensures IsNear(a, a)
    ensures IsNear(a, b) ==> IsNear(b, a)
    ensures IsNear(a, b) && IsNear(b, c) ==> IsNear(a, c)
    ensures IsNear(a, b) && At(a, loc) ==> At(b, loc)
  {
  }

  /** A base is guarded at a location iff the base and the ship are both alive and both there; padding is never guarded. */
  lemma GuardedMeansBothThere(b: StateBase, s: StateShip, loc: Location)
    ensures IsGuarded(b, s, loc) <==> IsAlive(b.obj) && IsAlive(s.obj) && At(b.obj, loc) && At(s.obj, loc)
    ensures s.obj == StateObject(false, NA) || b == PADDING_BASE ==> !IsGuarded(b, s, loc)
  {
  }

  /**
   * The goal the comment of isGoalState describes: the three bases bought
   * near the opponents' alcoves (slots 1 to 3) are each guarded by the ship
   * in the same slot, at the base location of that slot.
   */
  predicate GoalReached(st: PlanState)
    requires WellFormed(st)
  {
    forall i :: 1 <= i < TOTAL_BASES ==> IsGuarded(st.bases[i], st.ships[i], BASE_LOCATIONS[i])
  }

  /** The goal holds iff bases 1, 2 and 3 are alive at RedAlcove1, RedAlcove2 and RedCenter with ships 1, 2 and 3 beside them; slot 0 plays no part. */
  lemma GoalMeansAlcovesHeld(st: PlanState)
    requires WellFormed(st)
    ensures GoalReached(st) <==>
      (IsAlive(st.bases[1].obj) && IsAlive(st.ships[1].obj) && At(st.bases[1].obj, RedAlcove1) && At(st.ships[1].obj, RedAlcove1))
      && (IsAlive(st.bases[2].obj) && IsAlive(st.ships[2].obj) && At(st.bases[2].obj, RedAlcove2) && At(st.ships[2].obj, RedAlcove2))
      && (IsAlive(st.bases[3].obj) && IsAlive(st.ships[3].obj) && At(st.bases[3].obj, RedCenter) && At(st.ships[3].obj, RedCenter))
  {
    if GoalReached(st) {
      assert IsGuarded(st.bases[1], st.ships[1], BASE_LOCATIONS[1]);
      assert IsGuarded(st.bases[2], st.ships[2], BASE_LOCATIONS[2]);
      assert IsGuarded(st.bases[3], st.ships[3], BASE_LOCATIONS[3]);
    }
  }

  /**
   * isGoalState as written: the accumulator starts false and is combined
   * with &=, and the loop runs i from 1 to 4 over arrays of length 4, so the
   * call at i = 4 reads past the end of baseLocations (and of the slot
   * arrays) and throws ArrayIndexOutOfBoundsException.
   */
  method IsGoalStateAsWritten(st: PlanState) returns (r: Access<bool>)
    ensures r.Thrown?
  {
    var isGoal := false;
    var i := 1;
    while i <= 4
      invariant 1 <= i <= 4 && !isGoal
    {
      if i >= |st.bases| || i >= |st.ships| || i >= |BASE_LOCATIONS| {
        return Thrown;
      }
      var guarded := IsGuarded(st.bases[i], st.ships[i], BASE_LOCATIONS[i]);
      isGoal := isGoal && guarded;
      i := i + 1;
    }
    r := Value(isGoal);
  }

  /** isGoalState as its comment intends: the conjunction, from true, over the three alcove slots. */
  method IsGoalState(st: PlanState) returns (isGoal: bool)
    requires WellFormed(st)
    ensures isGoal <==> GoalReached(st)
  {
    isGoal := true;
    var i := 1;
    while i < TOTAL_BASES
      invariant 1 <= i <= TOTAL_BASES
      invariant isGoal <==> forall j :: 1 <= j < i ==> IsGuarded(st.bases[j], st.ships[j], BASE_LOCATIONS[j])
    {
      isGoal := isGoal && IsGuarded(st.bases[i], st.ships[i], BASE_LOCATIONS[i]);
      i := i + 1;
    }
  }

  /** The ships among the actionable objects, in iteration order. */
  function ShipsOf(objs: seq<GameObject>): (r: seq<GameObject>)
    ensures |r| <= |objs| && forall k :: 0 <= k < |r| ==> r[k] in objs && r[k].kind == ShipKind
  {
    if |objs| == 0 then []
    else ShipsOf(objs[..|objs| - 1]) + (if objs[|objs| - 1].kind == ShipKind then [objs[|objs| - 1]] else [])
  }

  /** The bases among the actionable objects, in iteration order. */
  function BasesOf(objs: seq<GameObject>): (r: seq<GameObject>)
    ensures |r| <= |objs| && forall k :: 0 <= k < |r| ==> r[k] in objs && r[k].kind == BaseKind
  {
    if |objs| == 0 then []
    else BasesOf(objs[..|objs| - 1]) + (if objs[|objs| - 1].kind == BaseKind then [objs[|objs| - 1]] else [])
  }

  /** A HashMap filled by put(id, value) in order: the last put for an id wins. */
  function IdMap<T>(ids: seq<Uuid>, values: seq<T>): (m: map<Uuid, T>)
    requires |ids| == |values|
  {
    if |ids| == 0 then map[]
    else IdMap(ids[..|ids| - 1], values[..|ids| - 1])[ids[|ids| - 1] := values[|ids| - 1]]
  }

  /** One more put after the others: the map before it, updated at that key. */
  lemma IdMapSnoc<T>(ids: seq<Uuid>, values: seq<T>, id: Uuid, v: T)
    requires |ids| == |values|
    ensures IdMap(ids + [id], values + [v]) == IdMap(ids, values)[id := v]
  {
    assert (ids + [id])[..|ids|] == ids;
    assert (values + [v])[..|ids|] == values;
  }

  /** The keys are exactly the ids put. */
  lemma {:induction false} IdMapKeys<T>(ids: seq<Uuid>, values: seq<T>)
    requires |ids| == |values|
    ensures forall id :: id in IdMap(ids, values) <==> id in ids
  {
    if |ids| > 0 {
      var n := |ids| - 1;
      IdMapKeys(ids[..n], values[..n]);
      assert ids == ids[..n] + [ids[n]];
    }
  }

  /** The value under a key is the one put at the last position holding that id. */
  lemma {:induction false} IdMapLast<T>(ids: seq<Uuid>, values: seq<T>, id: Uuid) returns (k: nat)
    requires |ids| == |values| && id in IdMap(ids, values)
    ensures k < |ids| && ids[k] == id && IdMap(ids, values)[id] == values[k]
    ensures forall j :: k < j < |ids| ==> ids[j] != id
  {
    var n := |ids| - 1;
    if id == ids[n] {
      k := n;
    } else {
      k := IdMapLast(ids[..n], values[..n], id);
      assert ids[..n][k] == ids[k] && values[..n][k] == values[k];
      assert forall j :: k < j < n ==> ids[..n][j] == ids[j];
    }
  }

  function Ids(objs: seq<GameObject>): (r: seq<Uuid>)
    ensures |r| == |objs| && forall k :: 0 <= k < |objs| ==> r[k] == objs[k].id
  {
    seq(|objs|, k requires 0 <= k < |objs| => objs[k].id)
  }

  lemma {:induction false} IdsSnoc(objs: seq<GameObject>, o: GameObject)
    ensures Ids(objs + [o]) == Ids(objs) + [o.id]
  {
  }

  /**
   * What initState produces with slots of the given length: the real ships,
   * in order, stand for the game ships and the remaining slots are padding;
   * the bases likewise; the game-ship map and the state-ship map are keyed by
   * the ships' ids, the last ship with an id winning.
   */
  ghost predicate Initialised(st: PlanState, objs: seq<GameObject>, width: int, height: int, role: ShipRole, slots: nat)
    reads set k | 0 <= k < |st.ships| :: st.ships[k]
  {
    var realShips := ShipsOf(objs);
    var realBases := BasesOf(objs);
    |st.ships| == slots && |st.bases| == slots
    && st.numShips == |realShips| <= slots && st.numBases == |realBases| <= slots
    && (forall k :: 0 <= k < |realShips| ==> st.ships[k].Mirrors(realShips[k], width, height, role))
    && (forall k :: |realShips| <= k < slots ==> st.ships[k].IsPadding())
    && (forall k :: 0 <= k < |realBases| ==> st.bases[k] == BaseOf(realBases[k], width, height))
    && (forall k :: |realBases| <= k < slots ==> st.bases[k] == PADDING_BASE)
    && st.idGameShipMap == IdMap(Ids(realShips), realShips)
    && st.idStateShipMap == IdMap(Ids(realShips), st.ships[..|realShips|])
  }

  /**
   * initState, with the ship and base arrays either never allocated (None,
   * as the class is written: the fields have no initialiser) or allocated
   * with the given number of slots. A null array throws
   * NullPointerException at its first use; more real ships or bases than
   * slots throws ArrayIndexOutOfBoundsException.
   */
method InitState(slots: Option<nat>, objs: seq<GameObject>, width: int, height: int, role: ShipRole)
    returns (r: Access<PlanState>)
    ensures slots.None? ==> r.Thrown?
    ensures slots.Some? ==> (r.Thrown? <==> |ShipsOf(objs)| > slots.value || |BasesOf(objs)| > slots.value)
    ensures r.Value? ==> Initialised(r.value, objs, width, height, role, slots.value)
    ensures r.Value? ==> forall k :: 0 <= k < |r.value.ships| ==> fresh(r.value.ships[k])
  {
    var realShips, realBases, idGameShipMap := CollectActionable(objs);
    if slots.None? {
      return Thrown;
    }
    var n := slots.value;
    var ships, idStateShipMap := FillShips(realShips, n, width, height, role);
    if ships.Thrown? {
      return Thrown;
    }
    var bases := FillBases(realBases, n, width, height);
    if bases.Thrown? {
      return Thrown;
    }
    r := Value(PlanState(ships.value, bases.value, idStateShipMap, idGameShipMap, |realShips|, |realBases|));
  }

  /** The first loop of initState: the ships and the bases in iteration order, and the game ships by id. */
  method CollectActionable(objs: seq<GameObject>) returns (realShips: seq<GameObject>, realBases: seq<GameObject>, idGameShipMap: map<Uuid, GameObject>)
    ensures realShips == ShipsOf(objs) && realBases == BasesOf(objs)
    ensures idGameShipMap == IdMap(Ids(realShips), realShips)
  {
    realShips := [];
    realBases := [];
    idGameShipMap := map[];
    var k := 0;
    while k < |objs|
      invariant 0 <= k <= |objs|
      invariant realShips == ShipsOf(objs[..k]) && realBases == BasesOf(objs[..k])
      invariant idGameShipMap == IdMap(Ids(realShips), realShips)
    {
      assert objs[..k + 1][..k] == objs[..k];
      if objs[k].kind == ShipKind {
        IdsSnoc(realShips, objs[k]);
        IdMapSnoc(Ids(realShips), realShips, objs[k].id, objs[k]);
        realShips := realShips + [objs[k]];
        idGameShipMap := idGameShipMap[objs[k].id := objs[k]];
      }
      if objs[k].kind == BaseKind {
        realBases := realBases + [objs[k]];
      }
      k := k + 1;
    }
    assert objs[..|objs|] == objs;
  }

  /** The ship loops of initState over n slots: a state ship per real ship, recorded by id, then padding. */
  method FillShips(realShips: seq<GameObject>, n: nat, width: int, height: int, role: ShipRole)
    returns (r: Access<seq<StateShip>>, idStateShipMap: map<Uuid, StateShip>)
    ensures r.Thrown? <==> |realShips| > n
    ensures r.Value? ==>
      |r.value| == n
      && (forall j :: 0 <= j < n ==> fresh(r.value[j]))
      && (forall j :: 0 <= j < |realShips| ==> r.value[j].Mirrors(realShips[j], width, height, role))
      && (forall j :: |realShips| <= j < n ==> r.value[j].IsPadding())
      && idStateShipMap == IdMap(Ids(realShips), r.value[..|realShips|])
  {
    var mirrored;
    mirrored, idStateShipMap := MirrorShips(realShips, n, width, height, role);
    if mirrored.Thrown? {
      return Thrown, idStateShipMap;
    }
    var ships := mirrored.value;
    var padded := PadShips(ships, n);
    assert padded[..|realShips|] == ships;
    r := Value(padded);
  }

  /** The first ship loop of initState: a fresh state ship per real ship, recorded by id, or out of bounds past n slots. */
  method MirrorShips(realShips: seq<GameObject>, n: nat, width: int, height: int, role: ShipRole)
    returns (r: Access<seq<StateShip>>, idStateShipMap: map<Uuid, StateShip>)
    ensures r.Thrown? <==> |realShips| > n
    ensures r.Value? ==>
      |r.value| == |realShips|
      && (forall j :: 0 <= j < |realShips| ==> fresh(r.value[j]))
      && MirrorsPrefix(r.value, realShips, width, height, role)
      && idStateShipMap == IdMap(Ids(realShips), r.value)
  {
    var ships: seq<StateShip> := [];
    idStateShipMap := map[];
    var i := 0;
    while i < |realShips|
      invariant 0 <= i <= |realShips| && i <= n && |ships| == i
      invariant forall j :: 0 <= j < i ==> fresh(ships[j])
      invariant MirrorsPrefix(ships, realShips, width, height, role)
      invariant Recorded(idStateShipMap, realShips[..i], ships)
    {
      if i >= n {
        return Thrown, idStateShipMap;
      }
      var s := MirrorShip(realShips, i, ships, width, height, role);
      RecordedStep(idStateShipMap, realShips, i, ships, s);
      ships := ships + [s];
      idStateShipMap := idStateShipMap[realShips[i].id := s];
      i := i + 1;
    }
    assert realShips[..|realShips|] == realShips;
    r := Value(ships);
  }

  /** Each state ship mirrors the real ship at its position. */
  ghost predicate MirrorsPrefix(ships: seq<StateShip>, realShips: seq<GameObject>, width: int, height: int, role: ShipRole)
    reads set j | 0 <= j < |ships| :: ships[j]
  {
    |ships| <= |realShips| && forall j :: 0 <= j < |ships| ==> ships[j].Mirrors(realShips[j], width, height, role)
  }

  /** One turn of the first ship loop: a fresh state ship for the i-th real ship, recorded under its id. */
  method MirrorShip(realShips: seq<GameObject>, i: nat, ships: seq<StateShip>, width: int, height: int, role: ShipRole)
    returns (s: StateShip)
    requires i < |realShips| && |ships| == i
    ensures fresh(s) && s.Mirrors(realShips[i], width, height, role)
  {
    s := new StateShip.FromShip(realShips[i], width, height, role);
  }

  /** m is the id map of the ships put so far, each under its real ship's id. */
  ghost predicate Recorded(m: map<Uuid, StateShip>, put: seq<GameObject>, ships: seq<StateShip>)
  {
    |put| == |ships| && m == IdMap(Ids(put), ships)
  }

  /** Recording one more ship under the next real ship's id. */
  lemma {:induction false} RecordedStep(m: map<Uuid, StateShip>, realShips: seq<GameObject>, i: nat, ships: seq<StateShip>, s: StateShip)
    requires i < |realShips| && Recorded(m, realShips[..i], ships)
    ensures Recorded(m[realShips[i].id := s], realShips[..i + 1], ships + [s])
  {
    assert realShips[..i + 1] == realShips[..i] + [realShips[i]];
    IdsSnoc(realShips[..i], realShips[i]);
    IdMapSnoc(Ids(realShips[..i]), ships, realShips[i].id, s);
  }

  /** The padding loop of initState: fresh padding ships up to n slots. */
  method PadShips(ships: seq<StateShip>, n: nat) returns (padded: seq<StateShip>)
    requires |ships| <= n
    ensures |padded| == n && padded[..|ships|] == ships
    ensures forall j :: |ships| <= j < n ==> fresh(padded[j]) && padded[j].IsPadding()
  {
    padded := ships;
    while |padded| < n
      invariant |ships| <= |padded| <= n && padded[..|ships|] == ships
      invariant forall j :: |ships| <= j < |padded| ==> fresh(padded[j]) && padded[j].IsPadding()
    {
      var s := new StateShip.Padding();
      padded := padded + [s];
    }
  }

  /** The base loops of initState over n slots: a state base per real base, then padding. */
  method FillBases(realBases: seq<GameObject>, n: nat, width: int, height: int) returns (r: Access<seq<StateBase>>)
    ensures r.Thrown? <==> |realBases| > n
    ensures r.Value? ==>
      |r.value| == n
      && (forall j :: 0 <= j < |realBases| ==> r.value[j] == BaseOf(realBases[j], width, height))
      && (forall j :: |realBases| <= j < n ==> r.value[j] == PADDING_BASE)
  {
    var bases: seq<StateBase> := [];
    var i := 0;
    while i < |realBases|
      invariant 0 <= i <= |realBases| && i <= n && |bases| == i
      invariant forall j :: 0 <= j < i ==> bases[j] == BaseOf(realBases[j], width, height)
    {
      if i >= n {
        return Thrown;
      }
      bases := bases + [BaseOf(realBases[i], width, height)];
      i := i + 1;
    }
    while i < n
      invariant |realBases| <= i <= n && |bases| == i
      invariant forall j :: 0 <= j < |realBases| ==> bases[j] == BaseOf(realBases[j], width, height)
      invariant forall j :: |realBases| <= j < i ==> bases[j] == PADDING_BASE
    {
      bases := bases + [PADDING_BASE];
      i := i + 1;
    }
    r := Value(bases);
  }

  /** The constructor as written: the arrays are never allocated, so it always throws. */
  method NewPlanStateAsWritten(objs: seq<GameObject>, width: int, height: int, role: ShipRole) returns (r: Access<PlanState>)
    ensures r.Thrown?
  {
    r := InitState(None, objs, width, height, role);
  }

  /** The constructor with the arrays allocated at TOTAL_SHIPS and TOTAL_BASES slots. */
  method NewPlanState(objs: seq<GameObject>, width: int, height: int, role: ShipRole) returns (r: Access<PlanState>)
    ensures r.Thrown? <==> |ShipsOf(objs)| > TOTAL_SHIPS || |BasesOf(objs)| > TOTAL_BASES
    ensures r.Value? ==> WellFormed(r.value) && Initialised(r.value, objs, width, height, role, TOTAL_SHIPS)
    ensures r.Value? ==> forall k :: 0 <= k < |r.value.ships| ==> fresh(r.value.ships[k])
  {
    r := InitState(Some(TOTAL_SHIPS), objs, width, height, role);
  }

  /**
   * makeCopyOf: a shallow copy. The slot arrays are copied with the same
   * (shared) ships and bases, the state-ship map is copied key by key, and
   * the game-ship map and the counts keep the defaults of the private
   * constructor (empty and 0).
   */
  method MakeCopyOf(st: PlanState) returns (c: PlanState)
    ensures c.ships == st.ships && c.bases == st.bases
    ensures c.idStateShipMap.Keys == st.idStateShipMap.Keys
    ensures forall id :: id in c.idStateShipMap ==> GetStateShipById(c, id) == GetStateShipById(st, id)
    ensures c.idGameShipMap == map[] && c.numShips == 0 && c.numBases == 0
    ensures WellFormed(st) ==> WellFormed(c) && (GoalReached(c) <==> GoalReached(st))
  {
    var m := CopyEntries(st.idStateShipMap);
    c := PlanState(st.ships, st.bases, m, map[], 0, 0);
  }

  /** The key-by-key copy loop of makeCopyOf: put(id, get(id)) for every key. */
  method CopyEntries<T>(src: map<Uuid, T>) returns (m: map<Uuid, T>)
    ensures m.Keys == src.Keys
    ensures forall id :: id in m ==> m[id] == src[id]
  {
    m := map[];
    var keys := src.Keys;
    while keys != {}
      invariant keys <= src.Keys
      invariant m.Keys == src.Keys - keys
      invariant forall id :: id in m ==> m[id] == src[id]
      decreases |keys|
    {
      var id :| id in keys;
      m := m[id := src[id]];
      keys := keys - {id};
    }
  }
}
