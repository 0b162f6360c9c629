/**
 * amy.astar.FollowPathAction and FollowPathActionFaster: a cursor over an
 * array of waypoints that issues one move per waypoint. The array is a
 * sequence of the waypoints' positions (null is None). Whether the last
 * command's movement has finished, and the acceleration a command would
 * apply, come from the simulator and enter as parameters.
 */
module PathFollowing {
  import opened Wrappers
  import opened JavaNum

  /** The commands a follower issues: DoNothingAction, or a MoveAction from a position to a waypoint. */
  datatype Command = DoNothing | Move(from: Position, to: Position)

  /** The fields path, currentVertex and lastCommand of a follower. */
  datatype Follower = Follower(path: Option<seq<Position>>, current: int, last: Option<Command>)

  /** What getCurrentVertex yields: null, a waypoint, or an exception for an index past the end or a null path. */
  datatype Lookup = Null | Waypoint(pos: Position) | Failure

  /** getCurrentVertex: null for a negative index, otherwise path[currentVertex], with no upper bound check. */
  function CurrentVertex(f: Follower): (r: Lookup)
    ensures f.current < 0 ==> r == Null
    ensures r.Waypoint? <==> f.current >= 0 && f.path.Some? && f.current < |f.path.value|
    ensures r.Waypoint? ==> r.pos == f.path.value[f.current]
  {
    if f.current < 0 then Null
    else if f.path.None? || f.current >= |f.path.value| then Failure
    else Waypoint(f.path.value[f.current])
  }

  /**
   * One call of followPath: without a path or with a negative index, do
   * nothing; when there is no last command or it has finished, advance the
   * index and move to that waypoint (or do nothing past the end); otherwise
   * repeat the last command.
   */
  function Step(f: Follower, shipPos: Position, finished: bool): (Follower, Command)
  {
    if f.path.None? || f.current < 0 then
      (f.(last := Some(DoNothing)), DoNothing)
    else if f.last.None? || finished then
      var i := f.current + 1;
      var cmd := if i >= |f.path.value| then DoNothing else Move(shipPos, f.path.value[i]);
      (Follower(f.path, i, Some(cmd)), cmd)
    else
      (f, f.last.value)
  }

  /**
   * One call of FollowPathActionFaster.followPath: the same step, then one
   * more index when the acceleration of the resulting command has a negative
   * component (the ship is slowing down).
   */
  function FasterStep(f: Follower, shipPos: Position, finished: bool, accel: Command -> (real, real)): (Follower, Command)
  {
    var (g, cmd) := Step(f, shipPos, finished);
    if f.path.None? || f.current < 0 then (g, cmd)
    else
      var (ax, ay) := accel(cmd);
      if ax < 0.0 || ay < 0.0 then (g.(current := g.current + 1), cmd) else (g, cmd)
  }

  /** With no path or a negative index, followPath does nothing and keeps the index. */
  lemma IdleWithoutPath(f: Follower, shipPos: Position, finished: bool)
    requires f.path.None? || f.current < 0
    ensures Step(f, shipPos, finished).1 == DoNothing
    ensures Step(f, shipPos, finished).0 == f.(last := Some(DoNothing))
  {
  }

  /**
   * The index advances by exactly one when there is no last command or it
   * has finished, and the result is then the new last command; otherwise
   * the last command is returned again and nothing changes.
   */
  lemma AdvanceRule(f: Follower, shipPos: Position, finished: bool)
    requires f.path.Some? && f.current >= 0
    ensures var (g, cmd) := Step(f, shipPos, finished);
      g.path == f.path && g.last == Some(cmd)
      && (g.current == f.current + 1 <==> f.last.None? || finished)
      && (g.current == f.current <==> !(f.last.None? || finished))
      && (!(f.last.None? || finished) ==> g == f && cmd == f.last.value)
  {
  }

  /** Once the advanced index reaches the end of the path, the result is do-nothing. */
  lemma DoneAtEnd(f: Follower, shipPos: Position, finished: bool)
    requires f.path.Some? && f.current >= 0 && (f.last.None? || finished)
    requires f.current + 1 >= |f.path.value|
    ensures Step(f, shipPos, finished).1 == DoNothing
    ensures Step(f, shipPos, finished).0.current >= |f.path.value|
  {
  }

  /** Past the end with a do-nothing last command, every later call does nothing again. */
  lemma IdleAfterEnd(f: Follower, shipPos: Position, finished: bool)
    requires f.path.Some? && f.current >= |f.path.value| && f.last == Some(DoNothing)
    ensures var (g, cmd) := Step(f, shipPos, finished);
      cmd == DoNothing && g.current >= |g.path.value| && g.last == Some(DoNothing) && g.path == f.path
  {
  }

  /**
   * The index is incremented before it is used: the first move after a new
   * path (index 0) heads for path[1], never for path[0].
   */
  lemma FirstMoveSkipsOrigin(path: seq<Position>, last: Option<Command>, shipPos: Position, finished: bool)
    requires |path| >= 2 && (last.None? || finished)
    ensures Step(Follower(Some(path), 0, last), shipPos, finished).1 == Move(shipPos, path[1])
  {
  }

  /** A move the step issues heads for the waypoint getCurrentVertex then reports. */
  lemma MoveTargetsCurrentVertex(f: Follower, shipPos: Position, finished: bool)
    requires f.path.Some? && f.current >= 0 && (f.last.None? || finished)
    requires Step(f, shipPos, finished).1.Move?
    ensures CurrentVertex(Step(f, shipPos, finished).0) == Waypoint(Step(f, shipPos, finished).1.to)
  {
  }

  /**
   * The faster follower issues the same command as the plain one, and its
   * index is the plain one's or one more, the extra step taken exactly when
   * the command decelerates.
   */
  lemma FasterExtendsStep(f: Follower, shipPos: Position, finished: bool, accel: Command -> (real, real))
    ensures var (g, cmd) := Step(f, shipPos, finished);
      var (h, cmd') := FasterStep(f, shipPos, finished, accel);
      cmd' == cmd && h.path == g.path && h.last == g.last
      && (h.current == g.current + 1 <==>
            f.path.Some? && f.current >= 0 && (accel(cmd).0 < 0.0 || accel(cmd).1 < 0.0))
      && (h.current == g.current <==>
            !(f.path.Some? && f.current >= 0 && (accel(cmd).0 < 0.0 || accel(cmd).1 < 0.0)))
  {
  }

  /** The faster follower's index never decreases and grows by at most two per call. */
  lemma FasterIndexBounds(f: Follower, shipPos: Position, finished: bool, accel: Command -> (real, real))
    ensures f.current <= FasterStep(f, shipPos, finished, accel).0.current <= f.current + 2
  {
  }

  /** amy.astar.FollowPathAction. */
  class FollowPathAction {
    var path: Option<seq<Position>>
    var currentVertex: int
    var lastCommand: Option<Command>

    function State(): Follower
      reads this
    {
      Follower(path, currentVertex, lastCommand)
    }

    /** The default constructor: no path, index -1, no last command. */
    constructor ()
      ensures path.None? && currentVertex == -1 && lastCommand.None?
    {
      path := None;
      currentVertex := -1;
      lastCommand := None;
    }

    /** The path constructor: index 0; lastCommand keeps Java's default null. */
    constructor WithPath(newPath: Option<seq<Position>>)
      ensures path == newPath && currentVertex == 0 && lastCommand.None?
    {
      path := newPath;
      currentVertex := 0;
      lastCommand := None;
    }

    /** followNewPath: the new path from index 0; the last command is kept. */
    method FollowNewPath(newPath: Option<seq<Position>>)
      modifies this
      ensures path == newPath && currentVertex == 0 && lastCommand == old(lastCommand)
    {
      path := newPath;
      currentVertex := 0;
    }

    /** getCurrentVertex. */
    function GetCurrentVertex(): Lookup
      reads this
    {
      CurrentVertex(State())
    }

    /**
     * followPath: finished is lastCommand.isMovementFinished(state), which the
     * source asks only when there is a last command.
     */
    method FollowPath(shipPos: Position, finished: bool) returns (cmd: Command)
      modifies this
      ensures (State(), cmd) == Step(old(State()), shipPos, finished)
    {
      if path.None? || currentVertex < 0 {
        lastCommand := Some(DoNothing);
        return DoNothing;
      }
      if lastCommand.None? || finished {
        currentVertex := currentVertex + 1;
        if currentVertex >= |path.value| {
          lastCommand := Some(DoNothing);
        } else {
          lastCommand := Some(Move(shipPos, path.value[currentVertex]));
        }
      }
      cmd := lastCommand.value;
    }
  }

  /** amy.astar.FollowPathActionFaster. */
  class FollowPathActionFaster {
    var path: Option<seq<Position>>
    var currentVertex: int
    var lastCommand: Option<Command>

    function State(): Follower
      reads this
    {
      Follower(path, currentVertex, lastCommand)
    }

    /** The default constructor: no path, index -1, no last command. */
    constructor ()
      ensures path.None? && currentVertex == -1 && lastCommand.None?
    {
      path := None;
      currentVertex := -1;
      lastCommand := None;
    }

    /** The path constructor: index 0; lastCommand keeps Java's default null. */
    constructor WithPath(newPath: Option<seq<Position>>)
      ensures path == newPath && currentVertex == 0 && lastCommand.None?
    {
      path := newPath;
      currentVertex := 0;
      lastCommand := None;
    }

    /** followNewPath: the new path from index 0, without clearing the last command. */
    method FollowNewPath(newPath: Option<seq<Position>>)
      modifies this
      ensures path == newPath && currentVertex == 0 && lastCommand == old(lastCommand)
    {
      path := newPath;
      currentVertex := 0;
    }

    /**
     * followPath: finished is lastCommand.isMovementFinished(state), and
     * accel gives a command's translational acceleration (getMovement).
     */
    method FollowPath(shipPos: Position, finished: bool, accel: Command -> (real, real)) returns (cmd: Command)
      modifies this
      ensures (State(), cmd) == FasterStep(old(State()), shipPos, finished, accel)
    {
      if path.None? || currentVertex < 0 {
        lastCommand := Some(DoNothing);
        return DoNothing;
      }
      if lastCommand.None? || finished {
        currentVertex := currentVertex + 1;
        if currentVertex >= |path.value| {
          lastCommand := Some(DoNothing);
        } else {
          lastCommand := Some(Move(shipPos, path.value[currentVertex]));
        }
      }
      var (ax, ay) := accel(lastCommand.value);
      if ax < 0.0 || ay < 0.0 {
        currentVertex := currentVertex + 1;
      }
      cmd := lastCommand.value;
    }
  }
}
