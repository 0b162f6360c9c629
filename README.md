# SpaceSettlers BDSM agents, modelled in Dafny

This project models the engine-independent core of the BDSM team clients for the
SpaceSettlers asteroid-mining game (packages `bost7517`, `bost7517.oldprojects`,
`spacesettlers.bost7517`, `spacesettlers.bost7517.astar` and `amy.astar`). It covers:

- **The grid graphs.**
  - The singleton grid graph, version 0.3 (`AStarGraph`): the toroidal four-neighbour vertex matrix, the heuristic passes, the cell lookups, and A* and greedy best-first search with a closed set.
  - The older graph, version 0.2 (`astar.AStarGraph`): the same grid, with no closed set.
  - Modules `TorusGrid`, `GridGeometry`, `AStarGraphs`, `AStarGraphV2` and `SearchCommon`.
- **The path objects** `AStarPath`, `GBFSPath` and the de-duplicating `astar.AStarPath`, with their cost invariant and their two queue orderings (modules `AStarPaths`, `GBFSPaths`, `DedupPaths`).
- **The two vertex classes**: the mutable `Vertex` (module `Vertices`) and the read-only `astar.Vertex` (module `FrozenVertex`).
- **The waypoint followers** `FollowPathAction` and `FollowPathActionFaster` (module `PathFollowing`).
- **The genetic-algorithm population** `AtkiGAPopulation`: cursor, swap, shuffle, tournament selection and next generation (module `GAPopulation`).
- **The symbolic planners.**
  - `BDSM_PlanState`, `BDSM_PlanAction`, `BDSM_PlanActions` and `BDSM_MultiAgentPlanner` (modules `PlanStates`, `PlanActions`, `MultiAgentPlanning`).
  - The fourth-project action life cycle, the state and the relations `BDSM_P4_Action`, `BDSM_P4_State` and `BDSM_P4_Relations` (modules `P4Planning`, `P4Relations`).
- **The selection and classification helpers** of both `AgentUtils` copies (module `AgentUtils`), and the k-means asteroid cluster (module `KMeansClusters`).
- **The team clients' bookkeeping.**
  - What the collectors share: the rule cascades, the asteroid-to-ship claim map, the `aimingForBase`/`justHitBase` maps and the purchases (module `TeamClients`).
  - The clients themselves: `FriendyAgentBDSM`, `BDSMFriendyModelBasedAgent`, `BDSM_AStarTestAgent`, `BDSM_BadSearchAgent` and `BDSMFlagCollector` (modules `FriendyAgents`, `ModelBasedAgents`, `AStarTestAgents`, `BadSearchAgents`, `FlagCollectors`).
- **The CSV data files** the search-comparison agents write and the plotting script reads back (module `CsvRows`).

**How the model represents the program.**

- Java objects whose fields change are Dafny classes: vertices, paths, followers, the population, states, plans, agents and the claim book.
- A `HashMap` the code mutates is a `map` field.
- A Java array is a Dafny `array`, or a `seq` field where the code replaces it wholesale.
- Game objects are immutable records (values).
- Iteration over a `HashSet` or a `HashMap`'s key set is a sequence parameter holding the iteration order, with no repeats.
- The engine's toroidal distance is a function parameter.
- Draws from `Random` are input sequences.
- Exceptions are an `Access` result: `Thrown`, or a `Value`.

## Model

| member | source | states |
|---|---|---|
| GameObjects.LowerAscii | src/bost7517/AgentUtils.java:116 | The case folding under the team-name comparison: a capital letter moves up by 32 code points; every other character is kept. |
| GameObjects.EqualsIgnoreCaseIsEquivalence | src/bost7517/AgentUtils.java:116 | The case-insensitive team comparison holds of equal names, and is symmetric and transitive. |
| GameObjects.EqualsIgnoreCaseIsWeaker | src/bost7517/AgentUtils.java:240 | The two team tests differ: `equals` (isDangerous) tells "Team" from "TEAM", but `equalsIgnoreCase` (findNearestBase) does not. |
| JavaNum.IntCast | src/bost7517/oldprojects/BDSM_BadSearchAgent.java:220 | The `(int)` cast of a double lands in the 32-bit range. In range it truncates toward zero: r <= x < r+1 for x >= 0, and r-1 < x <= r for x < 0. Beyond the range it saturates at the bound. |
| JavaNum.IntCastBracket | src/spacesettlers/bost7517/BDSM_AStarTestAgent.java:252 | A non-negative double in [i, i+1) casts to i. |
| JavaNum.Quot | src/spacesettlers/bost7517/AStarGraph.java:395-396 | Java int division by a positive divisor truncates toward zero: q*b <= a < q*b + b for a >= 0, and q*b - b < a <= q*b <= 0 for a < 0. |
| JavaNum.DoubleCompareSign | src/bost7517/AStarPath.java:72 | `Double.compare` is negative, zero or positive exactly when the first value is below, equal to or above the second. It is antisymmetric. |
| AgentUtils.ArgMin | src/bost7517/AgentUtils.java:115-125 | The strict running minimum of the findNearest* loops returns nothing exactly when no kept object is below the bound. Otherwise it returns a kept object below the bound that is no farther than any other kept object, and strictly nearer than every kept object before it, so the first one wins ties. |
| AgentUtils.FindNearestBase | src/bost7517/AgentUtils.java:111-125 | Returns a base of the ship's team (team names compared ignoring case) that is at least as near as every such base and strictly nearer than every such base before it in iteration order, so the first of equally near bases wins. Returns null exactly when no such base is nearer than Double.MAX_VALUE. |
| AgentUtils.FindNearestAiCore | src/bost7517/AgentUtils.java:134-148 | The same rule over the team's AI cores: nearest of the team's cores, the first of equally near cores winning, null exactly when none is nearer than Double.MAX_VALUE. |
| AgentUtils.FindNearestBeacon | src/bost7517/AgentUtils.java:157-173 | Returns a beacon of any team, nearest of all and strictly nearer than every beacon before it in iteration order, starting from infinity. It is null exactly when there are no beacons. |
| AgentUtils.FindNearestEnergySource | src/bost7517/AgentUtils.java:54-101 | Never returns a base. The result is an own-team core or a beacon, nearer than Double.MAX_VALUE and strictly nearer than every own base. It is at least as near as every own core and every beacon. A core wins a tie with a beacon, so a beacon is returned only when it is strictly nearer than every own core. Among equally near cores, or equally near beacons, the first one found wins. The result is null exactly when some own base is at least as near as every own core and every beacon. |
| AgentUtils.LastSegment | src/bost7517/AgentUtils.java:175-179 | The suffix after the last '.': it holds no dot, it ends the name, and the character before it is a dot unless it is the whole name. |
| AgentUtils.DropTrailingDots | src/bost7517/AgentUtils.java:177 | What `String.split` drops: the result is a prefix that does not end in '.', and everything removed is '.'. |
| AgentUtils.GetAbstractType | src/bost7517/AgentUtils.java:175-179 | Fails (index -1 out of bounds) exactly on a non-empty name made only of dots. Otherwise it returns a dot-free last component. |
| AgentUtils.AbstractTypeOfQualifiedName | src/bost7517/AgentUtils.java:175-179 | A qualified class name `pkg.Simple` gives `Simple`. |
| AgentUtils.LastSegmentAfterDot | src/bost7517/AgentUtils.java:178 | The last segment of `pkg.simple` is `simple`, for any package prefix. |
| AgentUtils.ClassifiersDiffer | src/bost7517/AgentUtils.java:235-257 | How isDangerous and isObstacle differ. A dead object is never dangerous. A missile or an own base is an obstacle but not dangerous. A live enemy ship is both. The ship itself is neither. |
| AgentUtils.BestAsteroidWithin | src/bost7517/AgentUtils.java:266-278 | The result is exactly the greedy fold `BestSoFar`: each asteroid in turn replaces the best so far when it is mineable, closer than optDist and than the best so far (initially the start bound), and richer (initially Integer.MIN_VALUE). So the result is a mineable asteroid closer than optDist and the start bound. It is null exactly when no asteroid beats the starting bar. After the chosen asteroid, no later one is both closer and richer. |
| AgentUtils.BestSoFarBar | src/bost7517/AgentUtils.java:266-278 | The greedy fold's best asteroid is mineable, closer than optDist and the start bound, and richer than Integer.MIN_VALUE. The fold yields none exactly when no asteroid beats that starting bar. |
| AgentUtils.BestSoFarAt | src/bost7517/AgentUtils.java:266-278 | The fold's best asteroid sits at an index where it beat the distance and money of the best held before it, and no later asteroid beats its own distance and money. |
| AgentUtils.BestSoFarIs | src/bost7517/AgentUtils.java:266-278 | Conversely, an asteroid that beat the best held before it, and that no later asteroid beats, is the fold's result. With BestSoFarAt this characterises the loop's choice completely. |
| AgentUtils.GetBestAsteroidWtOptDist | src/spacesettlers/bost7517/AgentUtils.java:284-298 | The spacesettlers copy starts the distance bound at Double.MAX_VALUE. The result is the greedy fold `BestSoFar` over the asteroids, with the distance to the ship and that bound. It sits at an index where it beat the best held before it, and no later asteroid beats it. A non-null result is a mineable asteroid nearer than optDist (and Double.MAX_VALUE). The result is null exactly when no asteroid is mineable, nearer than both bounds, and richer than Integer.MIN_VALUE. |
| AgentUtils.GetBestAsteroidWtOptDistIntBound | src/bost7517/AgentUtils.java:260-280 | The bost7517 copy starts the distance bound at Integer.MAX_VALUE. The result is the greedy fold `BestSoFar` with that bound. It sits at an index where it beat the best held before it, and no later asteroid beats it. A non-null result is mineable and nearer than both optDist and that bound. The result is null exactly when no asteroid qualifies under those bounds. |
| TeamClients.ReplanSchedule | src/spacesettlers/bost7517/BDSM_AStarTestAgent.java:247-256 | From a count in 0..20, the count after k chases is (start + k) mod 21. A search runs exactly on the chases where start + k is 20 modulo 21. Starting from 20, that is the first chase and every 21st after. |
| TeamClients.CountStep | src/bost7517/oldprojects/BDSM_BadSearchAgent.java:190-201 | Counting one further modulo 21 wraps from 20 to 0 and otherwise adds one, as the reset-or-increment does. |
| TeamClients.Unclaimed | src/spacesettlers/bost7517/FriendyAgentBDSM.java:340 | The free asteroids are exactly those whose id is not a key of the claim map. |
| TeamClients.PickHighestValueNearestFreeAsteroid | src/spacesettlers/bost7517/FriendyAgentBDSM.java:333-354 | The result is the greedy fold `BestSoFar` over the unclaimed asteroids, in order (`BestFree`). It beat the best held before it, and after it no free asteroid is both richer and nearer. A non-null result is unclaimed, mineable and nearer than Double.MAX_VALUE. The result is null exactly when no unclaimed asteroid is mineable, near and richer than Integer.MIN_VALUE. |
| TeamClients.ClaimBook.constructor | src/spacesettlers/bost7517/FriendyAgentBDSM.java:421-424 | All three maps start empty. |
| TeamClients.ClaimBook.Claim | src/spacesettlers/bost7517/FriendyAgentBDSM.java:188 | The asteroid is claimed by the ship, and every other claim is kept. |
| TeamClients.ClaimBook.ClearFlags | src/spacesettlers/bost7517/FriendyAgentBDSM.java:166-167 | The ship is marked as neither having just hit the base nor aiming for it; no other entry changes. |
| TeamClients.ClaimBook.SetAiming | src/spacesettlers/bost7517/FriendyAgentBDSM.java:154 | Only the ship's aimingForBase entry changes. |
| TeamClients.NearestEnergySource | src/bost7517/AgentUtils.java:54-101 | findNearestEnergySource over the space's own lists meets `EnergySource`: the nearest own core or beacon that is strictly nearer than every own base, a core winning a tie with a beacon and the first found winning among equals, or null exactly when an own base is at least as near as all of them. |
| TeamClients.ClaimBook.SeekEnergy | src/spacesettlers/bost7517/BDSM_AStarTestAgent.java:171-191 | Rule 1 moves toward findNearestEnergySource's answer (`EnergySource`: the nearest own core or beacon, as that method picks it), or returns null when there is none. Since that answer is never a base, aimingForBase is recorded false when there is a target and left untouched otherwise. |
| TeamClients.ClaimBook.Deposit | src/spacesettlers/bost7517/BDSM_AStarTestAgent.java:194-203 | Rule 2 moves, without leading, toward an own-team base at least as near as every other. The target is null exactly when no own base is nearer than Double.MAX_VALUE. The ship is then marked aiming for base. |
| TeamClients.ClaimBook.Retarget | src/spacesettlers/bost7517/BDSM_AStarTestAgent.java:208-245 | Rule 3 clears both flags for the ship and picks the best free asteroid over the claims as they were, exactly as the greedy loop does (`BestFree`). When one exists, that asteroid is claimed by this ship and nothing else changes. |
| TeamClients.ClaimBook.RemoveFinishedClaimsAsWritten | src/spacesettlers/bost7517/FriendyAgentBDSM.java:385-397 | As written, the clean-up throws exactly when some claimed id no longer resolves to an object. Without a throw, the remaining claims are exactly those on living, unmoveable asteroids. After a throw, no claim on a living or unresolved asteroid has been lost. No claim ever changes its ship. |
| TeamClients.ClaimBook.RemoveFinishedClaims | src/spacesettlers/bost7517/FriendyAgentBDSM.java:387-397 | Corrected clean-up: exactly the claims on ids that resolve to a living, unmoveable asteroid remain, with the same ships. |
| TeamClients.ClaimBook.MarkBaseHits | src/spacesettlers/bost7517/FriendyAgentBDSM.java:400-412 | The bounce rule throws exactly when a ship aiming for base no longer resolves. Otherwise a ship stays aiming for base exactly when it was aiming and still holds resources, and justHitBase gains or sets exactly the ships that were aiming and now hold nothing. Either way the rule only clears aim flags and only sets hit flags. |
| TeamClients.ClaimBook.MarkOne | src/spacesettlers/bost7517/FriendyAgentBDSM.java:401-410 | One turn of the bounce loop throws exactly when its id is aiming and gone. Otherwise it extends the rule's invariant by that id. |
| TeamClients.ClaimBook.GetMovementEnd | src/spacesettlers/bost7517/FriendyAgentBDSM.java:384-415 | The end of turn with the corrected clean-up (RemoveFinishedClaims, which drops an unresolved claim where the source throws; see "## Left out"). The claims left are exactly those on living, unmoveable asteroids. It throws exactly when an aiming ship is gone. On success the bounce rule holds of every ship, as in MarkBaseHits. |
| TeamClients.CollectFinished | src/spacesettlers/bost7517/FriendyAgentBDSM.java:385-393 | finishedAsteroids, as collected in key order, is the list of lookups that are null, dead or moveable. |
| TeamClients.HitMarkedMonotone | src/spacesettlers/bost7517/FriendyAgentBDSM.java:400-412 | However far the bounce loop has got, it has kept the aimingForBase keys, only cleared aim flags and only set hit flags. |
| TeamClients.HitMarkedAll | src/spacesettlers/bost7517/FriendyAgentBDSM.java:400-412 | Once every aiming id has been visited without a throw, no aiming ship is gone, each aim flag is (was aiming and holds resources), and each hit flag is (bounced or was already set). |
| TeamClients.FinishedFacts | src/spacesettlers/bost7517/FriendyAgentBDSM.java:387-393 | finishedAsteroids holds a null exactly when some claimed id does not resolve. Its other entries are exactly the dead or moveable claimed asteroids. |
| TeamClients.FinishedDistinct | src/spacesettlers/bost7517/FriendyAgentBDSM.java:395-397 | With distinct claimed ids, no asteroid is on finishedAsteroids twice, so each remove hits a different claim. |
| TeamClients.FarFromBases | src/spacesettlers/bost7517/FriendyAgentBDSM.java:487-495 | buyBase ends true exactly when no own-team base (team compared ignoring case) is nearer to the ship than the limit. |
| TeamClients.FirstBaseSite | src/spacesettlers/bost7517/FriendyAgentBDSM.java:481-502 | The chosen ship is the first actionable ship with no own base within the limit. The result is null exactly when there is no such ship. |
| TeamClients.FirstOfKind | src/spacesettlers/bost7517/FriendyAgentBDSM.java:508-515 | The first actionable object of the kind, or null exactly when there is none. |
| TeamClients.GetTeamPurchases | src/spacesettlers/bost7517/FriendyAgentBDSM.java:470-518 | At most one purchase is made. A BASE is bought exactly when a base is affordable and some ship is a base site, and it goes to the first base site in iteration order. A SHIP is bought exactly when no base was bought, a ship is affordable and there is a base, and it goes to the first base. Nothing else is bought. |
| CsvRows.DigitValue | src/bost7517/oldprojects/BDSM_BadSearchAgent.java:221 | The value of a decimal digit character, the inverse of the digit printed for it. |
| CsvRows.Quot10 | src/bost7517/oldprojects/BDSM_BadSearchAgent.java:221 | n / 10, bracketed: 10q <= n < 10q + 10. |
| CsvRows.NatRoundTrip | src/bost7517/oldprojects/BDSM_BadSearchAgent.java:221 | The decimal digits `%d` prints for a natural number are non-empty, all digits, and read back as the number. |
| CsvRows.FormatIntRoundTrip | src/bost7517/oldprojects/BDSM_BadSearchAgent.java:221 | Parsing the `%d` text of any int, negative ones included, gives the int back. The text is non-empty and holds no comma. |
| CsvRows.Split | other/bdsm_plot_search_results.py:6 | Cutting a line at every ',' gives at least one field. |
| CsvRows.SplitNoComma | other/bdsm_plot_search_results.py:6 | A comma-free text is a single field. |
| CsvRows.SplitAfterField | other/bdsm_plot_search_results.py:6 | A comma-free field followed by a comma splits off as the first field. |
| CsvRows.SplitJoin | other/bdsm_plot_search_results.py:6 | Splitting comma-free fields joined by ',' gives back the same fields. |
| CsvRows.FormatAll | src/spacesettlers/bost7517/BDSM_AStarTestAgent.java:280 | One `%d` text per number, in order. |
| CsvRows.ParseAll | other/bdsm_plot_search_results.py:6 | A successful parse gives one number per field. |
| CsvRows.ParseAllOf | other/bdsm_plot_search_results.py:6 | Fields that each parse as a number parse together as those numbers, in order. |
| CsvRows.ParseFormatAll | other/bdsm_plot_search_results.py:6 | Parsing the formatted numbers gives them back. |
| CsvRows.RowRoundTrip | src/spacesettlers/bost7517/BDSM_AStarTestAgent.java:277-283 | Round trip: a non-empty row of ints, formatted as the agents write it and read back with a ',' delimiter, is the same numbers in the same column order. |
| CsvRows.LoadText | other/bdsm_plot_search_results.py:6 | `np.loadtxt(..., delimiter=',', skiprows=1)` loads one row of values per line after the header, as a list of rows. |
| CsvRows.LoadParsedLines | other/bdsm_plot_search_results.py:6-11 | A header line followed by lines that each parse as a row loads as exactly those rows, in order. |
| CsvRows.FormattedLinesParse | src/spacesettlers/bost7517/BDSM_AStarTestAgent.java:280-282 | Every line written parses back as the row it came from. |
| CsvRows.LoadWrittenRows | other/bdsm_plot_search_results.py:6-11 | A data file made of a header and formatted rows loads back under LoadText as exactly those rows, so column 0 is the first value written, column 1 the second, and so on. |
| CsvRows.FormatRows | src/spacesettlers/bost7517/BDSM_AStarTestAgent.java:281-282 | One line per row, in the order written. |
| SearchCommon.CapHitFirstAt | src/spacesettlers/bost7517/AStarGraph.java:156-169 | The debug cap never fires before poll 200001, and it fires on that poll. |
| SearchCommon.OpenEdgesMembers | src/spacesettlers/bost7517/AStarGraph.java:189-191 | A vertex is among the open edges exactly when it is an edge and is not closed. |
| SearchCommon.WalkStaysClosed | src/spacesettlers/bost7517/AStarGraph.java:150-198 | Once the queue is empty, the closed set is closed under edges, so every walk from a closed start stays inside it. |
| SearchCommon.SkipKeepsFrontier | src/spacesettlers/bost7517/AStarGraph.java:176 | Dropping a polled path whose last vertex is already closed keeps the frontier invariant: every edge out of the closed set leads to a closed or queued vertex. |
| SearchCommon.CloseKeepsFrontier | src/spacesettlers/bost7517/AStarGraph.java:176-196 | Closing the polled vertex and queueing paths to its open neighbours keeps the frontier invariant. |
| BadSearchAgents.BDSMBadSearchAgent.constructor | src/bost7517/oldprojects/BDSM_BadSearchAgent.java:301-310 | Empty maps, the count at 20, no steps or planning time, and a data file holding only the header. |
| BadSearchAgents.BDSMBadSearchAgent.ExportData | src/bost7517/oldprojects/BDSM_BadSearchAgent.java:217-229 | Throws exactly when the path is null, and then writes nothing. Otherwise it appends one line, the `%d,%d,%d,%d` row of planning time, tree size, path cost and the truncated distance, and records that row. |
| BadSearchAgents.BDSMBadSearchAgent.GetAsteroidCollectorAction | src/bost7517/oldprojects/BDSM_BadSearchAgent.java:128-215 | Every call clears both flags for the ship and claims the best free asteroid, the one the greedy loop picks (`BestFree`). With no free asteroid it does nothing and leaves the count and the file alone. Otherwise the count steps as NextTimeSincePlan. Below 20 it writes nothing; at 20 it records the search's time and exports its row, throwing on a null path. A returned chase is a leading move to the asteroid and counts a step. |
| BadSearchAgents.BDSMBadSearchAgent.Chase | src/bost7517/oldprojects/BDSM_BadSearchAgent.java:187-212 | The replan step once an asteroid is claimed: reset and export at 20 (throwing on a null path), increment below it. A returned action is the leading move. |
| BadSearchAgents.BDSMBadSearchAgent.ActionFor | src/bost7517/oldprojects/BDSM_BadSearchAgent.java:106-117 | A do-nothing action for anything but a ship. A ship gets nothing or a leading move. |
| BadSearchAgents.BDSMBadSearchAgent.GetMovementStart | src/bost7517/oldprojects/BDSM_BadSearchAgent.java:96-120 | Without a throw, the actions' keys are exactly the actionable ids, and every non-ship is told to do nothing. |
| BadSearchAgents.DataFileLoads | src/bost7517/oldprojects/BDSM_BadSearchAgent.java:307-310 | The data file, read back line by line after its header as LoadText reads one, gives exactly the rows exported, four columns each, under a header that splits into planTime, treeSize, pathCost and bestDistance, in that order. |
| AStarTestAgents.BDSMAStarTestAgent.constructor | src/spacesettlers/bost7517/BDSM_AStarTestAgent.java:360-391 | Empty maps, the count at 20, no steps, and a data file holding only the header. |
| AStarTestAgents.BDSMAStarTestAgent.ExportData | src/spacesettlers/bost7517/BDSM_AStarTestAgent.java:277-288 | Appends exactly one line, the `%d,%d,%d` row of (minimum, A*, GBFS) cost, and records that row. |
| AStarTestAgents.BDSMAStarTestAgent.ChaseAsteroid | src/spacesettlers/bost7517/BDSM_AStarTestAgent.java:206-268 | Rule 3 clears both flags, then picks and claims the best free asteroid. With none, the current action is kept. Below 20 the count goes up and the ship chases with leading. At 20 both searches run. The call throws exactly when either path is null, writing nothing; otherwise it appends the (truncated distance, A* cost, GBFS cost) row. |
| AStarTestAgents.BDSMAStarTestAgent.GetAsteroidCollectorAction | src/spacesettlers/bost7517/BDSM_AStarTestAgent.java:128-275 | The cascade, in priority order. Energy below 1500 seeks energy, touching only aimingForBase. Otherwise resources above 2500 deposit and set aimingForBase. Otherwise an idle, finished or just-bounced ship retargets as in ChaseAsteroid. The energy target is the one findNearestEnergySource picks (`EnergySource`), and the asteroid the one the greedy loop picks (`BestFree`). Otherwise the current action is kept and nothing changes. Every returned action counts a step. |
| AStarTestAgents.BDSMAStarTestAgent.LaterRules | src/spacesettlers/bost7517/BDSM_AStarTestAgent.java:205-274 | Rules 3 and 4 once the energy and deposit rules did not fire: retarget, to the asteroid the greedy loop picks (`BestFree`), exactly when idle or just back from base, else keep the current action; either way a returned action counts a step. |
| AStarTestAgents.BDSMAStarTestAgent.ActionFor | src/spacesettlers/bost7517/BDSM_AStarTestAgent.java:106-117 | Anything but a ship is told to do nothing. |
| AStarTestAgents.BDSMAStarTestAgent.GetMovementStart | src/spacesettlers/bost7517/BDSM_AStarTestAgent.java:93-120 | Without a throw, exactly one action per actionable id, and do-nothing for every non-ship. |
| AStarTestAgents.DataFileLoads | src/spacesettlers/bost7517/BDSM_AStarTestAgent.java:383-388 | The data file reads back under LoadText, after its header, as exactly the rows exported, three columns each, in the column order of the header: the header splits into minCost, astarCost and gbfsCost, the columns the plotting script reads as 0, 1 and 2. |
| FriendyAgents.FriendyAgentBDSM.constructor | src/spacesettlers/bost7517/FriendyAgentBDSM.java:421-424 | Empty claim and flag maps and no previous action. |
| FriendyAgents.FriendyAgentBDSM.GetAsteroidCollectorAction | src/spacesettlers/bost7517/FriendyAgentBDSM.java:104-206 | The cascade, in priority order. Energy below 1500 moves toward the energy source findNearestEnergySource picks (`EnergySource`) and records aimingForBase false only when there is one; nothing else changes. Otherwise resources above 1500 deposit and set aimingForBase. Otherwise an idle, finished or just-bounced ship clears both flags and chases the best free asteroid, the one the greedy loop picks (`BestFree`), claiming it, or gets null when there is none. Otherwise it keeps its current action and nothing changes. previousAction is the action the ship had. |
| FriendyAgents.FriendyAgentBDSM.PickNearestFreeAsteroid | src/spacesettlers/bost7517/FriendyAgentBDSM.java:262-279 | Returns an unclaimed mineable asteroid at least as near as every other, the first one found winning ties. It is null exactly when no unclaimed mineable asteroid is nearer than Double.MAX_VALUE. |
| FriendyAgents.FriendyAgentBDSM.GetMovementStart | src/spacesettlers/bost7517/FriendyAgentBDSM.java:69-96 | Exactly one action per actionable id; every non-ship is told to do nothing. |
| ModelBasedAgents.Observe | src/spacesettlers/bost7517/BDSMFriendyModelBasedAgent.java:119-124 | The stored energy becomes the current energy. The recorded change is current minus previous when the previous reading was positive, and 0 otherwise. Nothing else in the state changes. |
| ModelBasedAgents.ShipState.constructor | src/spacesettlers/bost7517/BDSMFriendyModelBasedAgent.java:52-67 | A new ShipState has target NO_TARGET, both base flags false, energy and its change 0, it is not running, and it has no previous action. |
| ModelBasedAgents.UpdateStateFacts | src/spacesettlers/bost7517/BDSMFriendyModelBasedAgent.java:353-370 | The state loop throws for a ship exactly when it is aiming for base and gone, or when its target is set and gone. Otherwise the target ends NO_TARGET or alive, and aimingForBase survives only for a ship that still holds resources. justHitBase is set exactly when it was, or when the ship was aiming and is empty. The target changes only to NO_TARGET, once it has died, which also forgets the previous action. Nothing else changes. |
| ModelBasedAgents.UpdateStateIdempotent | src/spacesettlers/bost7517/BDSMFriendyModelBasedAgent.java:353-370 | Running the state loop's update a second time on the same objects changes nothing more. |
| ModelBasedAgents.EndStateFacts | src/spacesettlers/bost7517/BDSMFriendyModelBasedAgent.java:340-370 | After getMovementEnd no ship's target is dead, and a ship whose claimed asteroid died has no target. |
| ModelBasedAgents.ClearedAllStep | src/spacesettlers/bost7517/BDSMFriendyModelBasedAgent.java:340-348 | Handling one more finished asteroid: a dead one makes its claimant forget its target; a living (moveable) one changes no state. |
| ModelBasedAgents.KilledInFinished | src/spacesettlers/bost7517/BDSMFriendyModelBasedAgent.java:333-348 | A ship loses its target in the clean-up loop exactly when one of its claimed asteroids is dead. |
| ModelBasedAgents.GetTeamPurchases | src/spacesettlers/bost7517/BDSMFriendyModelBasedAgent.java:375-408 | Only bases are bought, at most one. A purchase happens exactly when a base is affordable and some ship has no own base within 350. It goes to the first such ship in iteration order. |
| ModelBasedAgents.ShipIdsOf | src/spacesettlers/bost7517/BDSMFriendyModelBasedAgent.java:112-118 | The ids of the ships among the actionable objects, and no others. |
| ModelBasedAgents.ObserveAllKeys | src/spacesettlers/bost7517/BDSMFriendyModelBasedAgent.java:112-126 | After the energy pass every ship seen has a state, and no other state is added. |
| ModelBasedAgents.ObserveAllUntouched | src/spacesettlers/bost7517/BDSMFriendyModelBasedAgent.java:112-126 | A state whose ship is not actionable is left as it was. |
| ModelBasedAgents.ObserveAllShips | src/spacesettlers/bost7517/BDSMFriendyModelBasedAgent.java:116-124 | With distinct ids, each actionable ship's state is its earlier state (a fresh one on first sight) having observed that ship's energy. |
| ModelBasedAgents.UpdatedForStep | src/spacesettlers/bost7517/BDSMFriendyModelBasedAgent.java:353-371 | Updating one more ship's state changes that entry alone. |
| ModelBasedAgents.UpdatedForAll | src/spacesettlers/bost7517/BDSMFriendyModelBasedAgent.java:353-371 | When the state loop has visited every ship without a throw, no ship's update throws, and each state is the update of its earlier state. |
| ModelBasedAgents.UpdateStateObject | src/spacesettlers/bost7517/BDSMFriendyModelBasedAgent.java:354-370 | The in-place update of one ShipState throws exactly when UpdateState does, and otherwise leaves the fields as UpdateState gives them. |
| ModelBasedAgents.BDSMFriendyModelBasedAgent.constructor | src/spacesettlers/bost7517/BDSMFriendyModelBasedAgent.java:411-414 | The claim map and the state map start empty. |
| ModelBasedAgents.BDSMFriendyModelBasedAgent.StateOf | src/spacesettlers/bost7517/BDSMFriendyModelBasedAgent.java:154-157 | A ship's state is looked up, created fresh on first sight. The map gains at most that key, and every other entry keeps its object. |
| ModelBasedAgents.BDSMFriendyModelBasedAgent.ObserveEnergy | src/spacesettlers/bost7517/BDSMFriendyModelBasedAgent.java:115-124 | The ship's state (fresh on first sight) observes its energy. Every other state is unchanged. |
| ModelBasedAgents.BDSMFriendyModelBasedAgent.ObserveObject | src/spacesettlers/bost7517/BDSMFriendyModelBasedAgent.java:112-125 | One turn of the energy pass: a ship observes its energy, and any other object changes nothing. |
| ModelBasedAgents.BDSMFriendyModelBasedAgent.ObtainEnergy | src/spacesettlers/bost7517/BDSMFriendyModelBasedAgent.java:260-288 | The target is findNearestEnergySource's answer (`EnergySource`: the nearest own core or beacon, as that method picks it). When it is a new target, the ship moves to it, records it, and sets aimingForBase false (the answer is never a base). When it is absent or the same as before, the ship does nothing and the target resets to NO_TARGET. The action is remembered as the previous action. |
| ModelBasedAgents.BDSMFriendyModelBasedAgent.DepositResources | src/spacesettlers/bost7517/BDSMFriendyModelBasedAgent.java:242-251 | Moves toward the nearest own base, as DepositMove states, and sets aimingForBase; nothing else in the state changes. |
| ModelBasedAgents.BDSMFriendyModelBasedAgent.PursueTarget | src/spacesettlers/bost7517/BDSMFriendyModelBasedAgent.java:205-233 | Clears both flags, then picks the best free asteroid, the one the greedy loop picks (`BestFree`). On success the asteroid is claimed by the ship, becomes its target, and is chased with leading. Without one the ship does nothing and keeps its old target. |
| ModelBasedAgents.BDSMFriendyModelBasedAgent.ShipAction | src/spacesettlers/bost7517/BDSMFriendyModelBasedAgent.java:159-196 | The rule cascade, in order (ShipRules). Low energy seeks the energy source findNearestEnergySource picks. Over 2000 resources, a ship already aiming for base keeps its action and any other deposits. Then a ship that is idle, finished or just back from base, or whose target died, pursues the asteroid the greedy loop picks. A target lookup that finds nothing throws. Otherwise the ship continues, remembering its current action. |
| ModelBasedAgents.BDSMFriendyModelBasedAgent.GetBDSMShipAction | src/spacesettlers/bost7517/BDSMFriendyModelBasedAgent.java:152-196 | Creates the ship's state on first sight, then applies ShipRules to it (energy target as `EnergySource`, asteroid as `BestFree`). No other ship's state changes. |
| ModelBasedAgents.BDSMFriendyModelBasedAgent.ShipStep | src/spacesettlers/bost7517/BDSMFriendyModelBasedAgent.java:132-134 | The ship gets its state entry, and states are only reused or created fresh. |
| ModelBasedAgents.BDSMFriendyModelBasedAgent.GetMovementStart | src/spacesettlers/bost7517/BDSMFriendyModelBasedAgent.java:109-143 | Every actionable ship has a state afterwards. Without a throw, exactly the ships and bases get an action, and every base is told to do nothing. |
| ModelBasedAgents.BDSMFriendyModelBasedAgent.DecideActions | src/spacesettlers/bost7517/BDSMFriendyModelBasedAgent.java:129-142 | The second pass: without a throw, exactly the ships and bases get an action, and bases do nothing. No state is dropped. |
| ModelBasedAgents.DecidedStep | src/spacesettlers/bost7517/BDSMFriendyModelBasedAgent.java:131-140 | A ship or base whose id differs from the earlier ones gets its entry, a base a do-nothing one, and the map still holds exactly the ships and bases seen, each base doing nothing. |
| ModelBasedAgents.DecidedSkip | src/spacesettlers/bost7517/BDSMFriendyModelBasedAgent.java:131-140 | An object that is neither ship nor base adds no entry. |
| ModelBasedAgents.DecidedAll | src/spacesettlers/bost7517/BDSMFriendyModelBasedAgent.java:129-142 | After every object, the keys are exactly the ids of the actionable ships and bases, and each base does nothing. |
| ModelBasedAgents.BDSMFriendyModelBasedAgent.ObserveEnergies | src/spacesettlers/bost7517/BDSMFriendyModelBasedAgent.java:112-126 | The first pass: the states become ObserveAll of the old ones. The map's keys grow by exactly the actionable ships. |
| ModelBasedAgents.BDSMFriendyModelBasedAgent.DropClaim | src/spacesettlers/bost7517/BDSMFriendyModelBasedAgent.java:341-347 | The claim is removed. If the asteroid is dead, its claimant's target becomes NO_TARGET; no other state changes. |
| ModelBasedAgents.BDSMFriendyModelBasedAgent.DropAll | src/spacesettlers/bost7517/BDSMFriendyModelBasedAgent.java:340-348 | The removal loop throws exactly when finishedAsteroids holds a null. Otherwise exactly the finished claims are removed, and the claimants of dead asteroids forget their targets. Surviving claims keep their ships. |
| ModelBasedAgents.BDSMFriendyModelBasedAgent.ClearFinishedClaims | src/spacesettlers/bost7517/BDSMFriendyModelBasedAgent.java:331-348 | Throws exactly when a claimed id no longer resolves. Otherwise the claims left are exactly those on living, unmoveable asteroids, and each state has been cleared as Cleared states. |
| ModelBasedAgents.BDSMFriendyModelBasedAgent.UpdateShipState | src/spacesettlers/bost7517/BDSMFriendyModelBasedAgent.java:354-370 | One ship's state takes UpdateState's value, or the call throws exactly when UpdateState does. |
| ModelBasedAgents.BDSMFriendyModelBasedAgent.UpdateShipStates | src/spacesettlers/bost7517/BDSMFriendyModelBasedAgent.java:353-371 | The state loop throws exactly when some ship's update would. Otherwise every state is its update. |
| ModelBasedAgents.BDSMFriendyModelBasedAgent.UpdateLoop | src/spacesettlers/bost7517/BDSMFriendyModelBasedAgent.java:353-371 | A throw names a ship whose update throws. Without one, every update succeeded and the states are UpdatedFor of the earlier ones. |
| ModelBasedAgents.BDSMFriendyModelBasedAgent.UpdateNext | src/spacesettlers/bost7517/BDSMFriendyModelBasedAgent.java:354-370 | One turn of the state loop extends UpdatedFor by the next ship, or throws exactly when that ship's update throws. |
| ModelBasedAgents.BDSMFriendyModelBasedAgent.GetMovementEnd | src/spacesettlers/bost7517/BDSMFriendyModelBasedAgent.java:330-372 | Throws exactly when a claimed id is gone or some ship's EndState throws. Otherwise the claims left are exactly those on living, unmoveable asteroids, and every ship's state is its EndState. |
| FlagCollectors.GetFlagCarrier | src/bost7517/BDSMFlagCollector.java:225-237 | Null exactly when no actionable ship carries a flag. Otherwise the result is a flag-carrying ship with no carrier before it in iteration order. |
| FlagCollectors.LastEnemyFlagNone | src/bost7517/BDSMFlagCollector.java:244-254 | The enemy flag found is null exactly when every flag belongs to the client's own team (compared ignoring case). |
| FlagCollectors.LastEnemyFlagLast | src/bost7517/BDSMFlagCollector.java:246-252 | A flag found is another team's, and no other team's flag follows it: the last one wins. |
| FlagCollectors.GetEnemyFlag | src/bost7517/BDSMFlagCollector.java:244-254 | The loop ends with the last flag of another team, or null. |
| FlagCollectors.HealthiestEligible | src/bost7517/BDSMFlagCollector.java:264-293 | The healthiest-ship search returns null exactly when no ship has energy above 2000 and a distance below Double.MAX_VALUE. A ship it returns meets both conditions. |
| FlagCollectors.HealthiestUnbeaten | src/bost7517/BDSMFlagCollector.java:276-289 | No ship after the returned one is both nearer the flag and healthier than it, with energy above 2000. |
| FlagCollectors.FindHealthiestShipNearFlag | src/bost7517/BDSMFlagCollector.java:264-293 | Throws exactly when there is no enemy flag and some actionable object is a ship. With no flag and no ship the result is null. Otherwise the result is the search's answer for the flag's position. |
| FlagCollectors.ChooseFlagShip | src/bost7517/BDSMFlagCollector.java:93-99 | Throws exactly when no ship carries a flag, there is no enemy flag and some ship exists. A chosen ship is an actionable ship. One not carrying a flag was chosen only because no ship carries one, and it is eligible for the enemy flag. |
| FlagCollectors.PickNearestCore | src/bost7517/BDSMFlagCollector.java:377-392 | A core returned is strictly nearer than minimumDistance, and no core is nearer; the first one found wins ties. The result is null exactly when every core is at minimumDistance or more. |
| FlagCollectors.GetPowerups | src/bost7517/BDSMFlagCollector.java:753-771 | The powerup map has exactly the ids of the flag-carrying ships whose drone powerup is valid, and each of them launches a drone. |
| FlagCollectors.LastNearNone | src/bost7517/BDSMFlagCollector.java:589-600 | When no ship passes the guard search's test, bestShip keeps the value it had before the loop. |
| FlagCollectors.LastNearLast | src/bost7517/BDSMFlagCollector.java:589-600 | When some ship passes, the search ends with a passing ship after which no ship passes. Since minDistance is never lowered, the last passing ship wins, not the nearest. |
| FlagCollectors.LastShipNear | src/bost7517/BDSMFlagCollector.java:609-623 | The loop computes the last-passing-ship search, optionally skipping the first guard. |
| FlagCollectors.PostHasBase | src/bost7517/BDSMFlagCollector.java:628-646 | base1Exist stays true exactly when some own base lies within the limit of the post. |
| FlagCollectors.NoBaseBelow | src/bost7517/BDSMFlagCollector.java:648-658 | base2Exist stays true exactly when no own base is strictly nearer the second post than the limit. |
| FlagCollectors.GuardAtPost | src/bost7517/BDSMFlagCollector.java:663-678 | The loop finds a ship exactly when a ship with the guard's id stands within 20 of the post. |
| FlagCollectors.BuyersDiffer | src/bost7517/BDSMFlagCollector.java:559-578 | The drone buyer and the core buyer are different ships, since one holds a core and the other none. |
| FlagCollectors.BuyDronesAndCores | src/bost7517/BDSMFlagCollector.java:556-578 | At most one drone and one core are bought. The drone goes to the first ship holding a core and the core to the first ship holding none. Each is bought exactly when it is affordable and such a ship exists. |
| FlagCollectors.BuyerEntries | src/bost7517/BDSMFlagCollector.java:559-578 | The entries the first buyers make satisfy every clause of BuyDronesAndCores. |
| FlagCollectors.FirstBuyerFound | src/bost7517/BDSMFlagCollector.java:563-575 | After the loop, a buyer was found exactly when the purchase is affordable and some ship qualifies. |
| FlagCollectors.BDSMFlagCollector.constructor | src/bost7517/BDSMFlagCollector.java:45-62 | The counter starts at 10 and the base side is still to be checked. Both guards and the waypoint list are null. All four maps are empty. |
| FlagCollectors.BDSMFlagCollector.CheckBaseLocation | src/bost7517/BDSMFlagCollector.java:70-87 | Only on the first call, an own base with x below 800 sets baseIsLeft and one above 800 sets baseIsRight. Afterwards the check is off. |
| FlagCollectors.BDSMFlagCollector.GetAsteroidCollectorAction | src/bost7517/BDSMFlagCollector.java:302-368 | The rules apply in order: deposit (more than 1000 resources or any core), refuel at a nearest beacon (energy below 3000, or do nothing with no beacon), chase a nearest core within 200, retarget when idle or just off the base, keep the current action. For each rule the contract gives the action and the exact new aimingForBase, goingForCore, justHitBase and claim maps. Retargeting claims the best free asteroid, the one the greedy loop picks (`BestFree`), or returns null. |
| FlagCollectors.BDSMFlagCollector.FlagShipAction | src/bost7517/BDSMFlagCollector.java:109-145 | A carrier heads for a nearest own base and aims for it. Otherwise the counter advances modulo 21 and the waypoint list is replanned at 20 and then polled. The call throws exactly when there is no enemy flag, or a replan finds no path. The action returned is always the leading move to the enemy flag. |
| FlagCollectors.BDSMFlagCollector.GuardAction | src/bost7517/BDSMFlagCollector.java:152-196 | Throws exactly when there is no enemy flag. Otherwise the stored guard moves to the flag when it is within grab distance, and back to the post when not. aimingForBase changes only when the stored guard carries the flag. |
| FlagCollectors.BDSMFlagCollector.ActionFor | src/bost7517/BDSMFlagCollector.java:93-213 | The entry fits the object's role: do nothing for non-ships, the drone action for drones, GuardMove for the guards, the flag move for the flag ship, and for a collector never a bare position unless it keeps its action. A throw needs a missing enemy flag or a missing path. |
| FlagCollectors.BDSMFlagCollector.ActionsFor | src/bost7517/BDSMFlagCollector.java:93-213 | The map's keys are exactly the actionable ids, and every entry fits its object's role. A throw needs a missing enemy flag or a missing path. |
| FlagCollectors.BDSMFlagCollector.GetMovementStart | src/bost7517/BDSMFlagCollector.java:66-216 | The base side is recorded once. A flag ship is an actionable ship that either carries a flag or, when none does, is eligible for the last enemy flag. The map has exactly the actionable ids, each entry fitting its role. The call throws only with no enemy flag or a missing path. |
| FlagCollectors.BDSMFlagCollector.RemoveFinishedAsteroids | src/bost7517/BDSMFlagCollector.java:475-487 | Exactly the claims on ids that are unresolved, or that resolve to a living and unmoveable asteroid, remain, each with the same ship. |
| FlagCollectors.BDSMFlagCollector.MarkBaseHits | src/bost7517/BDSMFlagCollector.java:490-501 | Throws exactly when a ship aiming for base no longer resolves. Otherwise a ship stays aiming exactly when it was aiming and still holds resources, flags or cores. The emptied ships, and only these, are added to or set in justHitBase and cleared in goingForCore. |
| FlagCollectors.BDSMFlagCollector.MarkOne | src/bost7517/BDSMFlagCollector.java:491-500 | One visit throws exactly when its id is aiming and gone. Otherwise it extends the loop invariant by that id. |
| FlagCollectors.BDSMFlagCollector.MarkAll | src/bost7517/BDSMFlagCollector.java:490-501 | The bounce loop keeps the aim keys. It throws only when some aiming ship is gone, and without a throw it has applied the bounce rule to every key. |
| FlagCollectors.BDSMFlagCollector.GetMovementEnd | src/bost7517/BDSMFlagCollector.java:474-503 | The claim clean-up result of RemoveFinishedAsteroids, then the bounce rule of MarkBaseHits, including its throw condition. |
| FlagCollectors.BDSMFlagCollector.ChooseGuards | src/bost7517/BDSMFlagCollector.java:583-626 | A missing first guard becomes the last ship passing the test near (950,500). The call throws exactly when it is still null, because its position is then read. Once the first guard is within 150 of its post, the second guard becomes the last other ship passing the test near the second post, starting from the first search's answer. |
| FlagCollectors.BDSMFlagCollector.GuardBase | src/bost7517/BDSMFlagCollector.java:628-697 | A base is bought exactly when the first guard qualifies (no own base within 150 of post 1, guard at post 1) or the second does (a base within 150 of post 1, one strictly within 100 of post 2, guard at post 2). The buyer is that guard. noflagGuard1Base is cleared exactly on a purchase. |
| FlagCollectors.BDSMFlagCollector.GetTeamPurchases | src/bost7517/BDSMFlagCollector.java:537-744 | Throws exactly when a base is affordable, there is no first guard and no ship passes the search. Then the first guard is as chosen and the second guard and noflagGuard1Base are unchanged. Without an affordable base no field changes. With one, the guards are chosen as ChooseGuards says. On success noflagGuard1Base is cleared exactly when a base is bought. The map buys at most one of each type. A drone or core is bought only when affordable, and only by the first ship holding a core or none. When affordable, that first ship buys it unless its entry became the base purchase. A base is bought by a qualifying guard exactly when one qualifies. A ship is bought by the first base exactly when affordable and no base was bought. |
| FlagCollectors.MarkedAll | src/bost7517/BDSMFlagCollector.java:490-501 | Once every key is visited, no aiming ship was missing. The aim, hit and core maps are then exactly the bounce rule applied to the starting maps. |
| FlagCollectors.MarkedUntouched | src/bost7517/BDSMFlagCollector.java:490-501 | An id not yet visited keeps its starting aim flag. |
| FlagCollectors.MarkedSkip | src/bost7517/BDSMFlagCollector.java:491-493 | Visiting an id that does not bounce keeps the invariant, with nothing changed. |
| FlagCollectors.MarkedBounce | src/bost7517/BDSMFlagCollector.java:493-499 | Visiting an emptied aiming ship clears its aim and core flags, sets its hit flag, and keeps the invariant. |
| FlagCollectors.BuildPurchases | src/bost7517/BDSMFlagCollector.java:542-743 | Given the qualifying guard, the drone, core, base and ship steps together meet the whole purchase promise of GetTeamPurchases. |
| FlagCollectors.AddBasePurchase | src/bost7517/BDSMFlagCollector.java:661-697 | A base is bought exactly when there is a buyer, and only by that buyer. Every other entry is an earlier drone or core purchase, left unchanged. |
| FlagCollectors.AddShipPurchase | src/bost7517/BDSMFlagCollector.java:729-741 | When allowed and the client has a base, the first actionable base buys one ship and nothing else changes. Otherwise no ship is bought. |
| FlagCollectors.DronesCoresAndBase | src/bost7517/BDSMFlagCollector.java:556-697 | After the drone, core and base steps, every entry belongs to an actionable ship and none buys a ship. The base entry is the buyer's, there exactly when there is a buyer. Drones and cores are bought as the first buyers say, unless replaced by the base. |
| FlagCollectors.DronesAndCoresKept | src/bost7517/BDSMFlagCollector.java:559-697 | Through the base step, at most one drone and one core are bought. Each is bought only when affordable and by the first qualifying ship. When affordable, the first qualifying ship keeps its purchase unless its entry became the base. |
| FlagCollectors.FirstBuyerKept | src/bost7517/BDSMFlagCollector.java:559-697 | For one of the two types, the first-buyer facts of the drone and core loop survive the base step, except where the base replaced the entry. |
| FlagCollectors.ShipPurchaseKeeps | src/bost7517/BDSMFlagCollector.java:729-741 | Adding the ship purchase leaves the drone and core facts as they were. |
| FlagCollectors.BasesAndShipsFit | src/bost7517/BDSMFlagCollector.java:661-741 | At most one base is bought, by the qualifying guard. A ship is bought exactly when affordable, no base was bought and the client has a base. |
| FlagCollectors.SameIdSameObject | src/bost7517/BDSMFlagCollector.java:614 | With distinct ids, Ship.equals (id equality) picks out a single object. |
| AStarGraphs.Obstructions | src/spacesettlers/bost7517/AStarGraph.java:316-323 | The obstruction set holds exactly the objects that AgentUtils.isObstacle accepts for the ship and whose id differs from the target's. The target is never in it. |
| AStarGraphs.GridIsClearOfObstacles | src/spacesettlers/bost7517/AStarGraph.java:367-377 | The result is true exactly when every obstruction lies farther from the cell centre than 3/4 of the cell size (Java integer division) plus twice its radius. A false result names an obstruction within that reach. |
| AStarGraphs.Expand | src/spacesettlers/bost7517/AStarGraph.java:189-195 | The paths the loop adds go behind the existing queue, which keeps its order. Their last vertices are exactly the edges of the expanded vertex that are not closed, in edge order. Each new path is the expanded path plus that vertex, and is a valid path from the start. Afterwards every edge of the expanded vertex leads to a closed or queued vertex. |
| AStarGraphs.OpenChildren | src/spacesettlers/bost7517/AStarGraph.java:189-195 | One child per edge that is not closed, in edge order. Each child is the path plus that edge's vertex and is a valid path from the start. |
| AStarGraphs.Child | src/spacesettlers/bost7517/AStarGraph.java:192-193 | The duplicate extended by an edge is a fresh valid path from the start, and its vertices are the original's plus the new vertex. |
| AStarGraphs.Visit | src/spacesettlers/bost7517/AStarGraph.java:171-196 | A goal is reported exactly when the polled path ends at an unclosed vertex that is an end or has heuristic 0. Otherwise every queued path stays valid, the closed set stays distinct and goal-free, and the frontier invariant holds. Each visit either shortens the queue or closes one new vertex. |
| AStarGraphs.Search | src/spacesettlers/bost7517/AStarGraph.java:141-198 | A path found is valid from the start and ends at a goal vertex. An emptied queue means no walk from the start reaches a goal. The poll cap can stop the search only in debug mode. |
| AStarGraphs.ExpandGBFS | src/spacesettlers/bost7517/AStarGraph.java:278-284 | The paths the greedy search's child loop adds go behind the existing queue, which keeps its order. Their last vertices are exactly the edges not explored, in edge order. Each new path is the expanded path plus that vertex, and is a valid GBFS path from the start. Afterwards every edge of the expanded vertex leads to an explored or queued vertex. |
| AStarGraphs.OpenChildrenGBFS | src/spacesettlers/bost7517/AStarGraph.java:278-284 | One GBFS child per edge that is not explored, in edge order. Each child is the path plus that edge's vertex. |
| AStarGraphs.ChildGBFS | src/spacesettlers/bost7517/AStarGraph.java:281-282 | The duplicate extended by an edge is a fresh valid GBFS path from the start, and its vertices are the original's plus the new vertex. |
| AStarGraphs.VisitGBFS | src/spacesettlers/bost7517/AStarGraph.java:260-285 | The greedy search's visit, with the same promise as Visit for GBFS paths. |
| AStarGraphs.SearchGBFS | src/spacesettlers/bost7517/AStarGraph.java:230-287 | A path found is a valid GBFS path to a goal vertex. An emptied queue means no walk from the start reaches a goal. The cap can stop the search only in debug mode. |
| AStarGraphs.AStarGraph.constructor | src/spacesettlers/bost7517/AStarGraph.java:72-80 | The matrix has windowWidth / GRID_SIZE columns and windowHeight / GRID_SIZE rows (Java division). Every cell is a fresh, unmarked vertex on the wrapped grid, with an empty blocked list. |
| AStarGraphs.AStarGraph.GetVertex | src/spacesettlers/bost7517/AStarGraph.java:394-407 | A cell returned lies in the grid. The result is null exactly when the matrix is empty or a coordinate is at or below -GRID_SIZE, where the truncated index falls below 0. |
| AStarGraphs.AStarGraph.VertexOfCentre | src/spacesettlers/bost7517/AStarGraph.java:384-398 | getVertex of a vertex's central coordinate is that vertex. |
| AStarGraphs.AStarGraph.VertexBeyondWindow | src/spacesettlers/bost7517/AStarGraph.java:395-396 | A position beyond the window's right and bottom edges is clamped into the last row and column. |
| AStarGraphs.AStarGraph.SetHeuristicsFor | src/spacesettlers/bost7517/AStarGraph.java:314-356 | The start and end marks do not change. Every cell's h value is Double.MAX_VALUE when it is not clear of the obstructions, and otherwise its centre's distance to the target. blockedGrids holds exactly the cells that are not clear. |
| AStarGraphs.AStarGraph.Begin | src/spacesettlers/bost7517/AStarGraph.java:123-130 | Every h value becomes 0. Only the ship's cell gains a start mark. Only the target's cell gains an end mark, and only when the ship's cell was found. The cells are returned exactly when both lookups succeed. |
| AStarGraphs.AStarGraph.Finish | src/spacesettlers/bost7517/AStarGraph.java:201-203 | Both marks are cleared. |
| AStarGraphs.AStarGraph.SearchFrom | src/spacesettlers/bost7517/AStarGraph.java:132-204 | With the target's cell marked as an end on a connected grid, the search never runs dry. A path ends at the target's cell, a zero-heuristic cell or an end cell. The target's end mark is cleared on success and kept when the debug cap returns early. |
| AStarGraphs.AStarGraph.GetPathTo | src/spacesettlers/bost7517/AStarGraph.java:118-205 | The result is null-cell exactly when either lookup fails, and never "no path". A path found is valid from the ship's cell and ends at the target's cell, a zero-heuristic cell or an end cell. The contract also gives the end marks left behind and every cell's final h value. |
| AStarGraphs.AStarGraph.SearchFromGBFS | src/spacesettlers/bost7517/AStarGraph.java:221-293 | The greedy version of SearchFrom, with the same promise. |
| AStarGraphs.AStarGraph.GetPathToGBFS | src/spacesettlers/bost7517/AStarGraph.java:207-294 | The greedy version of GetPathTo, with the same promise for GBFS paths. |
| AStarGraphs.GraphHolder.constructor | src/spacesettlers/bost7517/AStarGraph.java:28 | The singleton slot starts null. |
| AStarGraphs.GraphHolder.GetInstance | src/spacesettlers/bost7517/AStarGraph.java:39-44 | The first call builds a graph from its arguments. Every later call returns that same graph. |
| TorusGrid.EdgesInGrid | src/spacesettlers/bost7517/AStarGraph.java:95-107 | Every grid vertex has exactly four edges, and each leads to a grid vertex. |
| TorusGrid.AdjacencySymmetric | src/spacesettlers/bost7517/AStarGraph.java:98-105 | Each of a vertex's four neighbours (up, down, left, right, wrapping on both axes) has that vertex among its own edges. |
| TorusGrid.EdgeBack | src/spacesettlers/bost7517/AStarGraph.java:95-107 | Every edge of a grid vertex can be taken back. |
| TorusGrid.EdgeDist | src/spacesettlers/bost7517/AStarGraph.java:95-107 | One edge changes the wrapped grid distance to a fixed vertex by at most one. |
| TorusGrid.WalkLengthBound | src/spacesettlers/bost7517/AStarGraph.java:95-107 | A walk takes at least as many edges as the wrapped grid distance it covers. |
| TorusGrid.ExtendWalk | src/spacesettlers/bost7517/AStarGraph.java:189-194 | A walk extended by an edge of its last vertex is still a walk, as the child paths of the search are. |
| TorusGrid.JoinWalks | src/spacesettlers/bost7517/AStarGraph.java:95-107 | Two walks joined at the first one's last vertex form one walk. |
| TorusGrid.StraightEdges | src/spacesettlers/bost7517/AStarGraph.java:98-105 | The unwrapped steps down, up, right and left are edges. |
| TorusGrid.ColumnWalkIsWalk | src/spacesettlers/bost7517/AStarGraph.java:98-101 | The straight walk along a column reaches the target row. |
| TorusGrid.RowWalkIsWalk | src/spacesettlers/bost7517/AStarGraph.java:102-105 | The straight walk along a row reaches the target column. |
| TorusGrid.TorusConnected | src/spacesettlers/bost7517/AStarGraph.java:95-107 | Some walk leads from any grid vertex to any other. |
| TorusGrid.GridVerticesBound | src/spacesettlers/bost7517/AStarGraph.java:87 | A list of distinct grid vertices has at most rows times cols entries. This bounds how many vertices a search can close. |
| TorusGrid.InitMatrix | src/spacesettlers/bost7517/AStarGraph.java:85-108 | The result is a fresh rows x cols matrix of unmarked vertices. vMtx[row][col] sits at (col, row), and its edges are exactly up, down, left and right with wrap-around. |
| TorusGrid.NewMatrix | src/spacesettlers/bost7517/AStarGraph.java:87-90 | Every cell holds a fresh, unmarked vertex at its own column and row, with no edges yet. |
| TorusGrid.NewRow | src/spacesettlers/bost7517/AStarGraph.java:89-90 | One row of fresh vertices at the given row, numbered by column. |
| TorusGrid.ConnectEdges | src/spacesettlers/bost7517/AStarGraph.java:95-107 | Every vertex ends with its four edges in the order up, down, left, right. Marks and h values are unchanged. |
| TorusGrid.ConnectRow | src/spacesettlers/bost7517/AStarGraph.java:96-106 | Each cell of the row gets its four wrapped edges, in the source's order, and nothing else changes. |
| TorusGrid.ConnectCell | src/spacesettlers/bost7517/AStarGraph.java:97-105 | The four edges are appended in the order up, down, left, right. |
| TorusGrid.ClearHeuristics | src/spacesettlers/bost7517/AStarGraph.java:298-304 | Every h value becomes 0. Marks and edges stay as they were. |
| TorusGrid.ClearRow | src/spacesettlers/bost7517/AStarGraph.java:300-302 | One row's h values become 0, with marks and edges unchanged. |
| TorusGrid.SetHeuristics | src/spacesettlers/bost7517/AStarGraph.java:326-351 | Every cell's h value is Double.MAX_VALUE when its centre is not clear, and the centre's distance to the target otherwise; the preliminary 0 for the end cell is overwritten. The returned list holds exactly the blocked grid cells. |
| TorusGrid.BlockedStep | src/spacesettlers/bost7517/AStarGraph.java:327-350 | Appending one row's blocked cells gives the blocked cells of all rows up to and including it. |
| TorusGrid.RowsApart | src/spacesettlers/bost7517/AStarGraph.java:87-90 | Distinct rows hold distinct vertices. |
| TorusGrid.SetRow | src/spacesettlers/bost7517/AStarGraph.java:328-349 | One row gets its heuristics as SetHeuristics states, with marks and edges unchanged. |
| TorusGrid.SetStartMark | src/bost7517/Vertex.java:103-112 | markStart or markNotStart changes only that vertex's start mark. |
| TorusGrid.SetEndMark | src/bost7517/Vertex.java:117-126 | markEnd or markNotEnd changes only that vertex's end mark. |
| GridGeometry.NextValue | src/spacesettlers/bost7517/AStarGraph.java:100 | (i+1) % n in an axis of length n is the next index, wrapping from the last to the first. |
| GridGeometry.PrevNextInverse | src/spacesettlers/bost7517/AStarGraph.java:98-105 | The up and down indices (left and right likewise) stay on the axis and undo each other. |
| GridGeometry.CycleDistStepTo | src/spacesettlers/bost7517/AStarGraph.java:98-105 | One wrapped step changes the number of steps to a fixed index by at most one. |
| GridGeometry.CentralCoordinate | src/spacesettlers/bost7517/AStarGraph.java:384-386 | The centre of cell (col, row) lies inside that cell: col times the cell size up to, but not including, col+1 times it (and likewise for the row). |
| GridGeometry.ClampedIndexRange | src/spacesettlers/bost7517/AStarGraph.java:395-396 | The clamped index is below the count. It is non-negative exactly when the count is positive and the coordinate is above -GRID_SIZE. |
| GridGeometry.CellOf | src/spacesettlers/bost7517/AStarGraph.java:394-407 | A cell found lies in the grid. The lookup is null exactly when the matrix is empty or a coordinate is at or below -GRID_SIZE. |
| GridGeometry.CellOfClamps | src/spacesettlers/bost7517/AStarGraph.java:395-396 | A position beyond the last row and column is clamped into them. |
| GridGeometry.CellOfCentre | src/spacesettlers/bost7517/AStarGraph.java:384-398 | The lookup of a cell's central coordinate gives back that cell. |
| GridGeometry.CentreIndex | src/spacesettlers/bost7517/AStarGraph.java:385 | The centre coordinate of index i lies in int range and divides back to i. |
| GridGeometry.CellOfByCounts | src/spacesettlers/bost7517/astar/AStarGraph.java:232-236 | As written, the older lookup divides the coordinates by the row and column counts. Any cell it returns is in range. Any other access throws. |
| GridGeometry.CellOfByCountsMissesCentre | src/spacesettlers/bost7517/astar/AStarGraph.java:232-236 | On a 200 by 200 window with 10-unit cells, the centre (55, 55) of cell (5, 5) is looked up as cell (2, 2). |
| GridGeometry.CellOfBySize | src/spacesettlers/bost7517/astar/AStarGraph.java:232-236 | The intended lookup divides by the cell size. Any cell it returns is in range. |
| GridGeometry.CellOfBySizeCentre | src/spacesettlers/bost7517/astar/AStarGraph.java:222-236 | With the intended lookup, a cell's central coordinate leads back to that cell. |
| GridGeometry.CentreRatio | src/spacesettlers/bost7517/astar/AStarGraph.java:223 | The central coordinate of index i divided by the cell size lies in [i, i+1). |
| AStarGraphV2.Expand | src/spacesettlers/bost7517/astar/AStarGraph.java:128-132 | One child per edge, open or not, is queued behind the existing paths in edge order, and each is a valid path from the start. An edge back onto the path queues a copy of the path itself. |
| AStarGraphV2.Children | src/spacesettlers/bost7517/astar/AStarGraph.java:128-132 | There is one child per edge of the current vertex, in edge order. Each child is the path extended by that edge, or unchanged when the vertex is already on it. |
| AStarGraphV2.Child | src/spacesettlers/bost7517/astar/AStarGraph.java:129-130 | The duplicate extended by an edge is a fresh valid path. Its vertices are the original's, plus the new vertex when it was not already on the path. |
| AStarGraphV2.Visit | src/spacesettlers/bost7517/astar/AStarGraph.java:118-132 | The polled path is replaced by its four children, and every queued path stays valid. A polled path of two or more vertices is put back as an unchanged copy with the same key. |
| AStarGraphV2.Search | src/spacesettlers/bost7517/astar/AStarGraph.java:108-133 | Unlike the newer graph, the queue never runs dry. A path found is valid from the start and ends at an end-marked vertex, with a key no greater than that of any stalled path polled before it. |
| AStarGraphV2.DiagonalTargetStalls | src/spacesettlers/bost7517/astar/AStarGraph.java:116-132 | Every walk from cell (0, 0) to cell (2, 2) has at least five vertices. Its cost therefore exceeds 2g + g·sqrt(5), the key a two-vertex path to a neighbour of (0, 0) has. Once such a path is polled and stalls, Search's contract rules out a return. |
| AStarGraphV2.AStarGraph.constructor | src/spacesettlers/bost7517/astar/AStarGraph.java:46-52 | The matrix has windowWidth / GRID_SIZE columns and windowHeight / GRID_SIZE rows. Every cell is a fresh, unmarked vertex on the wrapped grid. |
| AStarGraphV2.AStarGraph.GetVertexAsWritten | src/spacesettlers/bost7517/astar/AStarGraph.java:232-236 | The lookup as written divides by the row and column counts. A vertex it returns is in the grid; an out-of-range index throws. |
| AStarGraphV2.AStarGraph.GetVertex | src/spacesettlers/bost7517/astar/AStarGraph.java:232-236 | The intended lookup divides by GRID_SIZE. A vertex it returns is in the grid. |
| AStarGraphV2.AStarGraph.VertexOfCentre | src/spacesettlers/bost7517/astar/AStarGraph.java:222-236 | The intended lookup of a vertex's central coordinate is that vertex. |
| AStarGraphV2.AStarGraph.SetHeuristicsFor | src/spacesettlers/bost7517/astar/AStarGraph.java:160-195 | Marks do not change. Every cell's h value is Double.MAX_VALUE when the obstacle sweep around its centre meets an obstruction, and its centre's distance to the target otherwise. |
| AStarGraphV2.AStarGraph.Begin | src/spacesettlers/bost7517/astar/AStarGraph.java:96-102 | Every h value becomes 0. The ship's cell gains the start mark, and the target's cell the end mark only when the ship's cell was found. The cells are returned exactly when both lookups succeed. |
| AStarGraphV2.AStarGraph.SearchFrom | src/spacesettlers/bost7517/astar/AStarGraph.java:104-138 | The search either finds a path or runs out of polls. A path found is valid from the ship's cell, ends at a cell that was marked end, and has no greater key than any stalled poll. Afterwards both marks are cleared, however the search ended. |
| AStarGraphV2.AStarGraph.GetPathTo | src/spacesettlers/bost7517/astar/AStarGraph.java:90-139 | The result is null-cell exactly when either lookup fails, and the search is never "no path" and never capped. A path found runs from the ship's cell; with no stale end mark it ends at the target's cell. The contract also gives the marks and every h value left behind. |
| AStarPaths.AStarPath.Empty | src/bost7517/AStarPath.java:25-28 | A new path has no vertices and cost 0. |
| AStarPaths.AStarPath.AddVertex | src/bost7517/AStarPath.java:43-46 | The vertex is appended, the cost grows by GRID_SIZE, and the vertex becomes the current one. |
| AStarPaths.AStarPath.QueueValue | src/bost7517/AStarPath.java:64-66 | The int cast of cost plus heuristic is its integer part for keys in int range, and saturates at Integer.MAX_VALUE above it. |
| AStarPaths.AStarPath.CompareTo | src/bost7517/AStarPath.java:69-73 | The sign of compareTo is the order of the two keys (cost plus the last vertex's heuristic), in both directions. |
| AStarPaths.AStarPath.GetPositions | src/bost7517/AStarPath.java:52-58 | One position per vertex, in path order, each the central coordinate of its cell. |
| AStarPaths.AStarPath.MakePath | src/bost7517/AStarPath.java:81-85 | A fresh path holding only v, with cost GRID_SIZE. |
| AStarPaths.AStarPath.DuplicatePath | src/bost7517/AStarPath.java:93-99 | A fresh path with the same vertices and the same cost. |
| AStarPaths.CompareToIsOrder | src/bost7517/AStarPath.java:69-73 | compareTo is antisymmetric in sign and transitive, as PriorityQueue needs. |
| AStarPaths.ChildPath | src/spacesettlers/bost7517/AStarGraph.java:192-193 | The child path is fresh, has the parent's vertices plus the child, and costs one more grid unit. |
| AStarPaths.Poll | src/spacesettlers/bost7517/AStarGraph.java:152 | The polled path has the least key in the queue. |
| GBFSPaths.GBFSPath.Empty | src/spacesettlers/bost7517/GBFSPath.java:17-20 | A new path has no vertices and cost 0. |
| GBFSPaths.GBFSPath.AddVertex | src/spacesettlers/bost7517/GBFSPath.java:35-38 | The vertex is appended, the cost grows by GRID_SIZE, and the vertex becomes the current one. |
| GBFSPaths.GBFSPath.QueueValue | src/spacesettlers/bost7517/GBFSPath.java:56-58 | The int cast of the last vertex's heuristic is its integer part in int range, and saturates above it. |
| GBFSPaths.GBFSPath.CompareTo | src/spacesettlers/bost7517/GBFSPath.java:61-65 | The sign of compareTo is the order of the last vertices' heuristics alone, in both directions. |
| GBFSPaths.GBFSPath.GetPositions | src/spacesettlers/bost7517/GBFSPath.java:44-50 | One central coordinate per vertex, in path order. |
| GBFSPaths.GBFSPath.MakePath | src/spacesettlers/bost7517/GBFSPath.java:73-77 | A fresh path holding only v, with cost GRID_SIZE. |
| GBFSPaths.GBFSPath.DuplicatePath | src/spacesettlers/bost7517/GBFSPath.java:85-91 | A fresh path with the same vertices and the same cost. |
| GBFSPaths.CompareToIsOrder | src/spacesettlers/bost7517/GBFSPath.java:61-65 | compareTo is antisymmetric in sign and transitive. |
| GBFSPaths.ChildPath | src/spacesettlers/bost7517/AStarGraph.java:281-282 | The child path is fresh, has the parent's vertices plus the child, and costs one more grid unit. |
| GBFSPaths.Poll | src/spacesettlers/bost7517/AStarGraph.java:241 | The polled path has the least heuristic in the queue. |
| DedupPaths.DedupPath.Empty | src/spacesettlers/bost7517/astar/AStarPath.java:22-25 | A new path has no vertices and cost 0. |
| DedupPaths.DedupPath.AddVertex | src/spacesettlers/bost7517/astar/AStarPath.java:40-45 | A vertex already on the path changes nothing. Otherwise it is appended and the cost grows by GRID_SIZE. |
| DedupPaths.DedupPath.CompareTo | src/spacesettlers/bost7517/astar/AStarPath.java:61-65 | The sign of compareTo is the order of cost plus heuristic, in both directions. |
| DedupPaths.DedupPath.MakePath | src/spacesettlers/bost7517/astar/AStarPath.java:72-76 | A fresh path holding only v, with cost GRID_SIZE. |
| DedupPaths.DedupPath.DuplicatePath | src/spacesettlers/bost7517/astar/AStarPath.java:83-89 | Re-adding the distinct vertices reproduces the path exactly: the same vertices and the same cost. |
| DedupPaths.ChildPath | src/spacesettlers/bost7517/astar/AStarGraph.java:129-130 | The child never repeats a vertex and costs one grid unit per distinct vertex. It gains the child only when the child was not already on the path. |
| DedupPaths.Poll | src/spacesettlers/bost7517/astar/AStarGraph.java:118 | The polled path has the least key in the queue. |
| Vertices.Vertex.constructor | src/bost7517/Vertex.java:35-42 | A new vertex has the given coordinates, heuristic 0, no marks and no edges. |
| Vertices.Vertex.AddEdge | src/bost7517/Vertex.java:96-98 | The edge is appended, keeping the earlier ones. |
| Vertices.Vertex.MarkStart | src/bost7517/Vertex.java:103-105 | The vertex is marked as start. |
| Vertices.Vertex.MarkNotStart | src/bost7517/Vertex.java:110-112 | The start mark is cleared. |
| Vertices.Vertex.MarkEnd | src/bost7517/Vertex.java:117-119 | The vertex is marked as end. |
| Vertices.Vertex.MarkNotEnd | src/bost7517/Vertex.java:124-126 | The end mark is cleared. |
| Vertices.Vertex.ClearHValue | src/bost7517/Vertex.java:131-133 | The heuristic becomes 0. |
| Vertices.Vertex.SetHValue | src/bost7517/Vertex.java:139-141 | The heuristic becomes the given value. |
| FrozenVertex.NewVertexGetters | src/spacesettlers/bost7517/astar/Vertex.java:33-88 | The constructor's initial state as the getters read it: the given column and row, heuristic 0, no marks and no edges. |
| FrozenVertex.NewVertexInjective | src/spacesettlers/bost7517/astar/Vertex.java:33-40 | As values, two new vertices have the same fields exactly when they were built from the same coordinates. Vertex defines no equals, so two Java vertices are distinct objects; this row compares their contents only. |
| PathFollowing.CurrentVertex | src/amy/astar/FollowPathAction.java:41-47 | The lookup is null for a negative index, and the waypoint at the index exactly when the path exists and the index is within it. Any other case throws. |
| PathFollowing.IdleWithoutPath | src/amy/astar/FollowPathAction.java:59-64 | Without a path or with a negative index, followPath does nothing, records that as the last command and keeps the index. |
| PathFollowing.AdvanceRule | src/amy/astar/FollowPathAction.java:66-80 | The index advances by one exactly when there is no last command or it has finished. Otherwise the follower is unchanged and the last command is repeated. |
| PathFollowing.DoneAtEnd | src/amy/astar/FollowPathAction.java:70-73 | Advancing past the last waypoint issues do-nothing and leaves the index at or beyond the end. |
| PathFollowing.IdleAfterEnd | src/amy/astar/FollowPathAction.java:66-83 | Once past the end with do-nothing as the last command, the follower keeps doing nothing. |
| PathFollowing.FirstMoveSkipsOrigin | src/amy/astar/FollowPathAction.java:66-78 | On a fresh path of two or more waypoints, the first move goes from the ship's position to waypoint 1, not waypoint 0. |
| PathFollowing.MoveTargetsCurrentVertex | src/amy/astar/FollowPathAction.java:74-78 | After a move is issued, getCurrentVertex is the waypoint the move heads to. |
| PathFollowing.FasterExtendsStep | src/amy/astar/FollowPathActionFaster.java:48-83 | The faster follower issues the same command as the plain one. Its index is the plain one's plus one exactly when the command decelerates on some axis, and otherwise the same. |
| PathFollowing.FasterIndexBounds | src/amy/astar/FollowPathActionFaster.java:58-79 | The faster follower's index never decreases and grows by at most two per call. |
| PathFollowing.FollowPathAction.constructor | src/amy/astar/FollowPathAction.java:21-25 | No path, index -1, no last command. |
| PathFollowing.FollowPathAction.WithPath | src/amy/astar/FollowPathAction.java:27-30 | The given path at index 0, with no last command. |
| PathFollowing.FollowPathAction.FollowNewPath | src/amy/astar/FollowPathAction.java:32-35 | The new path at index 0. The last command is kept. |
| PathFollowing.FollowPathAction.FollowPath | src/amy/astar/FollowPathAction.java:55-84 | The follower steps exactly as the step function does, so every Step lemma above applies to it. |
| PathFollowing.FollowPathActionFaster.constructor | src/amy/astar/FollowPathActionFaster.java:26-30 | No path, index -1, no last command. |
| PathFollowing.FollowPathActionFaster.WithPath | src/amy/astar/FollowPathActionFaster.java:32-35 | The given path at index 0, with no last command. |
| PathFollowing.FollowPathActionFaster.FollowNewPath | src/amy/astar/FollowPathActionFaster.java:37-40 | The new path at index 0. The last command is kept. |
| PathFollowing.FollowPathActionFaster.FollowPath | src/amy/astar/FollowPathActionFaster.java:48-83 | The follower steps as the faster step function does: the plain step plus the deceleration skip. |
| GAPopulation.Zip | src/spacesettlers/bost7517/AtkiGAPopulation.java:29-35 | Each chromosome is paired with its score, one pair per slot. |
| GAPopulation.SwapFacts | src/spacesettlers/bost7517/AtkiGAPopulation.java:167-174 | A swap keeps the length and the multiset, exchanges the two slots and leaves every other slot alone. |
| GAPopulation.ShuffleFrom | src/spacesettlers/bost7517/AtkiGAPopulation.java:152-159 | The Fisher-Yates result has the population's length. |
| GAPopulation.ShufflePermutes | src/spacesettlers/bost7517/AtkiGAPopulation.java:152-159 | Shuffling with draws in 0..i at each step i permutes the population: the multiset is kept. |
| GAPopulation.WinnerRule | src/spacesettlers/bost7517/AtkiGAPopulation.java:194-201 | Both scores below -1 give null. Otherwise the one with the higher score wins, and a tie goes to the first of the pair. |
| GAPopulation.Selection | src/spacesettlers/bost7517/AtkiGAPopulation.java:192-204 | Selection returns half as many winners as members, rounded down. |
| GAPopulation.BestFitness | src/spacesettlers/bost7517/AtkiGAPopulation.java:111-116 | The exported value is at least -1 and at least every score. It is -1 or one of the scores. |
| GAPopulation.Tournament | src/spacesettlers/bost7517/AtkiGAPopulation.java:189-204 | Winner k is the winner of pair (2k, 2k+1). There are half as many winners as members. |
| GAPopulation.Breed | src/spacesettlers/bost7517/AtkiGAPopulation.java:124-141 | A fresh array of the population size. Child k is the crossover of its two drawn parents, then mutated when its draw is at most 0.10. |
| GAPopulation.AtkiGAPopulation.constructor | src/spacesettlers/bost7517/AtkiGAPopulation.java:51-67 | A population of the given size with the given chromosomes in order, zero scores and the cursor at 0. |
| GAPopulation.AtkiGAPopulation.UpdateScore | src/spacesettlers/bost7517/AtkiGAPopulation.java:231-233 | The score to record next becomes d. |
| GAPopulation.AtkiGAPopulation.EvaluateFitnessForCurrentMember | src/spacesettlers/bost7517/AtkiGAPopulation.java:74-76 | The current score goes to the cursor's slot and nowhere else. A cursor at the end throws (out of bounds), changing nothing. |
| GAPopulation.AtkiGAPopulation.GetNextMember | src/spacesettlers/bost7517/AtkiGAPopulation.java:97-100 | The cursor advances by one, and the member at the cursor modulo the size is returned. An empty population throws, after the advance. |
| GAPopulation.AtkiGAPopulation.GetCurrentMember | src/spacesettlers/bost7517/AtkiGAPopulation.java:235-238 | The cursor is reduced modulo the size and that member is returned. An empty population throws before any change. |
| GAPopulation.AtkiGAPopulation.SwapChromosomes | src/spacesettlers/bost7517/AtkiGAPopulation.java:167-174 | The scored pairs are swapped at the two slots, so every chromosome keeps its score. |
| GAPopulation.AtkiGAPopulation.ShufflePopulation | src/spacesettlers/bost7517/AtkiGAPopulation.java:152-159 | The scored pairs become their Fisher-Yates shuffle under the draws. |
| GAPopulation.AtkiGAPopulation.DoSelection | src/spacesettlers/bost7517/AtkiGAPopulation.java:184-205 | The pairs are shuffled. The result is a fresh array holding the winner of every shuffled pair. |
| GAPopulation.AtkiGAPopulation.MakeNextGeneration | src/spacesettlers/bost7517/AtkiGAPopulation.java:105-147 | A one-member population throws, because drawing a parent from an empty selection fails. Otherwise the population becomes the offspring of the shuffled selection, and the cursor returns to 0. The scores stay with the shuffled slots either way. |
| PlanStates.LocationRegions | src/bost7517/BDSM_PlanState.java:261-266 | An object maps to one of the four base locations exactly when it is alive, and to NA exactly when it is dead. On the red half of the map, RedAlcove1 is the top third and RedAlcove2 the bottom third. |
| PlanStates.StateShip.FromShip | src/bost7517/BDSM_PlanState.java:196-204 | A state ship built from a game ship mirrors it. It has the ship's liveness, region and id. It is low on energy at 2750 or less and loaded at 2000 resources or more. It is a guard exactly for the FlagBoy role, and a collector exactly when it is not a guard. |
| PlanStates.StateShip.Padding | src/bost7517/BDSM_PlanState.java:206-214 | The no-argument state ship is a padding slot: dead, at NA, with no flags and no id. |
| PlanStates.BaseOf | src/bost7517/BDSM_PlanState.java:226-229 | A state base is alive exactly when its base is, is at NA exactly when the base is dead, and is home exactly when its location is Home. |
| PlanStates.GetStateShipById | src/bost7517/BDSM_PlanState.java:86-88 | The lookup finds a ship exactly when the id is in the id-to-state-ship map, and then returns that map entry. |
| PlanStates.NearIsEquivalence | src/bost7517/BDSM_PlanState.java:117-130 | Nearness is reflexive, symmetric and transitive. An object near one at a location is at that location too. |
| PlanStates.GuardedMeansBothThere | src/bost7517/BDSM_PlanState.java:140-142 | A base is guarded at a location exactly when the base and the ship are both alive and both there. A dead ship or a padding base never guards. |
| PlanStates.GoalMeansAlcovesHeld | src/bost7517/BDSM_PlanState.java:154-164 | The goal is reached exactly when slots 1, 2 and 3 hold a live base and a live ship together at RedAlcove1, RedAlcove2 and RedCenter. |
| PlanStates.IsGoalStateAsWritten | src/bost7517/BDSM_PlanState.java:158-164 | As written, the goal test always throws: its loop reaches index 4 of arrays of length 4. Its accumulator also starts false, so it could never report true. |
| PlanStates.IsGoalState | src/bost7517/BDSM_PlanState.java:154-164 | The corrected goal test reports true exactly when the goal is reached. |
| PlanStates.ShipsOf | src/bost7517/BDSM_PlanState.java:48-53 | The ships collected are actionable objects, all of them ships, and no more than there are objects. |
| PlanStates.BasesOf | src/bost7517/BDSM_PlanState.java:48-55 | The bases collected are actionable objects, all of them bases, and no more than there are objects. |
| PlanStates.IdMapSnoc | src/bost7517/BDSM_PlanState.java:51 | Putting one more id into a map built from ids and values gives the map built from both sequences extended by that pair. |
| PlanStates.IdMapKeys | src/bost7517/BDSM_PlanState.java:51 | The keys of the map built from ids and values are exactly those ids. |
| PlanStates.IdMapLast | src/bost7517/BDSM_PlanState.java:51 | For each key, the map holds the value paired with the key's last occurrence among the ids. |
| PlanStates.Ids | src/bost7517/BDSM_PlanState.java:51 | The ids of a sequence of objects are those objects' ids, position by position. |
| PlanStates.IdsSnoc | src/bost7517/BDSM_PlanState.java:51 | The ids of a sequence extended by one object are its ids extended by that object's id. |
| PlanStates.InitState | src/bost7517/BDSM_PlanState.java:44-78 | Without slot arrays initState throws. With n slots it throws exactly when there are more than n ships or more than n bases. Otherwise it records both id maps, mirrors each ship and base into its slot, and pads the remaining slots. |
| PlanStates.CollectActionable | src/bost7517/BDSM_PlanState.java:48-56 | The collecting loop yields the ships and the bases among the objects, in order, and maps each ship's id to that ship. |
| PlanStates.FillShips | src/bost7517/BDSM_PlanState.java:61-68 | Filling n ship slots throws exactly when there are more than n ships. Otherwise slot j mirrors ship j, the remaining slots are padding, and the id map sends each ship's id to its slot. |
| PlanStates.MirrorShips | src/bost7517/BDSM_PlanState.java:61-64 | The first loop throws exactly when there are more ships than slots. Otherwise each new state ship mirrors its game ship and is recorded under that ship's id. |
| PlanStates.MirrorShip | src/bost7517/BDSM_PlanState.java:63 | The state ship made for the next game ship is new and mirrors it. |
| PlanStates.RecordedStep | src/bost7517/BDSM_PlanState.java:62-64 | Recording one more ship under its id keeps the map in step with the ships mirrored so far. |
| PlanStates.PadShips | src/bost7517/BDSM_PlanState.java:66-68 | Padding keeps the filled slots and fills every later slot up to n with a new padding ship. |
| PlanStates.FillBases | src/bost7517/BDSM_PlanState.java:71-77 | Filling n base slots throws exactly when there are more than n bases. Otherwise slot j is the state of base j and the rest are padding bases. |
| PlanStates.NewPlanStateAsWritten | src/bost7517/BDSM_PlanState.java:21-22 | As written, building a plan state always throws, because the slot arrays are never allocated before initState stores into them. |
| PlanStates.NewPlanState | src/bost7517/BDSM_PlanState.java:32-78 | With four slots allocated, building a state throws exactly when there are more than four ships or more than four bases. Otherwise the state is well formed and mirrors the objects. |
| PlanStates.MakeCopyOf | src/bost7517/BDSM_PlanState.java:280-289 | The copy shares the slot arrays and has the same ids, each mapped to the same state ship. It has no game-ship map and zero counts. It is well formed, and reaches the goal, exactly when the original does. |
| PlanStates.CopyEntries | src/bost7517/BDSM_PlanState.java:285-287 | The copying loop gives a map with the same keys and the same value under each key. |
| PlanActions.GetAllActions | src/bost7517/BDSM_PlanActions.java:22-30 | The list of all actions has seven distinct entries, none of them DoNothing. |
| PlanActions.AllActionsAreTheRest | src/bost7517/BDSM_PlanActions.java:16-30 | An action kind is in that list exactly when it is not DoNothing. |
| PlanActions.PlanAction.GetEnergyFor | src/bost7517/BDSM_PlanActions.java:40-43 | A new get-energy action holds the state and actor, has no cached precondition, and looks up its actor's state ship by id. |
| PlanActions.PlanAction.DoNothingFor | src/bost7517/BDSM_PlanActions.java:88-90 | A new do-nothing action holds the state and actor and has no cached precondition. |
| PlanActions.PlanAction.Evaluate | src/bost7517/BDSM_PlanActions.java:46-95 | Do-nothing's precondition is true. Get-energy's is its actor's low-energy flag, and it throws when no state ship has the actor's id. |
| PlanActions.PlanAction.PreCondition | src/bost7517/BDSM_PlanAction.java:32-34 | preCondition is true once it has held. Otherwise it evaluates the precondition and caches exactly a true result. |
| PlanActions.PlanAction.GetAction | src/bost7517/BDSM_PlanActions.java:57-105 | Get-energy reports GetEnergy and do-nothing reports DoNothing. |
| PlanActions.PlanAction.SetState | src/bost7517/BDSM_PlanAction.java:78-80 | setState replaces the action's state. |
| PlanActions.PlanAction.ApplyAction | src/bost7517/BDSM_PlanActions.java:62-110 | Applying returns the action's state. Get-energy clears its actor's low-energy flag, and throws exactly when it has no actor ship. |
| PlanActions.Kept | src/bost7517/BDSM_PlanActions.java:68-118 | The ids that get an action come from the iteration order. Do-nothing keeps all of them. Get-energy keeps only ships that are low on energy. |
| PlanActions.KeptIsComplete | src/bost7517/BDSM_PlanActions.java:70-75 | Every ship in the iteration order that is low on energy gets a get-energy action. |
| PlanActions.GenAllActions | src/bost7517/BDSM_PlanActions.java:68-119 | genAllActions gives one action per kept id, in order, with a cached precondition exactly for get-energy. Get-energy throws exactly when some id has no state ship. Do-nothing never throws. |
| PlanActions.GenDoNothingActions | src/bost7517/BDSM_PlanActions.java:113-119 | The do-nothing generator gives one action per ship id, in order, none with a cached precondition. |
| PlanActions.NewGetEnergy | src/bost7517/BDSM_PlanActions.java:71-72 | A candidate get-energy action for a ship has a precondition equal to the ship's low-energy flag, and caches it. That test throws exactly when the id has no state ship. |
| PlanActions.GenGetEnergyActions | src/bost7517/BDSM_PlanActions.java:68-77 | The get-energy generator throws exactly when some id has no state ship. Otherwise it keeps exactly the low-energy ships, in order, each with its precondition cached. |
| PlanActions.LookupAction | src/bost7517/BDSM_PlanActions.java:123-147 | lookupAction gives a new get-energy action for GetEnergy and a new do-nothing action for every other kind, over the given state and actor. |
| PlanActions.GenAllPossibleActions | src/bost7517/BDSM_PlanActions.java:149-153 | genAllPossibleActions is always empty. |
| MultiAgentPlanning.FirstByActorFacts | src/bost7517/BDSM_MultiAgentPlanner.java:109-116 | The action map holds an actor exactly when some added action has that actor and it is not NO_ACTOR. The entry is that actor's first action. |
| MultiAgentPlanning.PlanPath.constructor | src/bost7517/BDSM_MultiAgentPlanner.java:91-95 | A new path has no actions, an empty action map and the given state. |
| MultiAgentPlanning.PlanPath.GetNextActionForActor | src/bost7517/BDSM_MultiAgentPlanner.java:97-100 | The result is the actor's recorded action, or else a new do-nothing action for that actor over the path's state. |
| MultiAgentPlanning.PlanPath.AddAction | src/bost7517/BDSM_MultiAgentPlanner.java:109-116 | addAction throws exactly when applying the action throws, and then changes nothing. Otherwise the state becomes the action's state and the action is appended. |
| MultiAgentPlanning.CopyPath | src/bost7517/BDSM_MultiAgentPlanner.java:118-124 | makeCopyOf throws exactly when one of the path's actions throws when applied. Otherwise the copy has the same actions and action map. Its state is the last action's state, or a copy of the path's state when there are no actions. |
| MultiAgentPlanning.Expand | src/bost7517/BDSM_MultiAgentPlanner.java:63-69 | The sweep keeps the queue as a prefix and appends exactly one successor per candidate whose precondition held, in candidate order. The record met is true at a candidate exactly when its precondition held there. A candidate left out and not repeated later ends with its flag false. Each successor is a new path: the polled path's actions plus that candidate. No candidates leave the queue as it was. |
| MultiAgentPlanning.ChosenSnoc | src/bost7517/BDSM_MultiAgentPlanner.java:64-65 | Sweeping one more candidate appends it to the taken ones exactly when its precondition held. |
| MultiAgentPlanning.ChosenMembers | src/bost7517/BDSM_MultiAgentPlanner.java:64-65 | An action is taken exactly when it is a candidate at some position where its precondition held. |
| MultiAgentPlanning.SweepStep | src/bost7517/BDSM_MultiAgentPlanner.java:64-67 | One step of the sweep extends the queue it has built, records the candidate's outcome, and keeps the sweep's invariant. |
| MultiAgentPlanning.QueuedStep | src/bost7517/BDSM_MultiAgentPlanner.java:64-67 | Appending the successor of a candidate whose precondition held, or nothing otherwise, keeps the queue equal to the old queue followed by one successor per taken candidate. |
| MultiAgentPlanning.EvaluateCandidate | src/bost7517/BDSM_MultiAgentPlanner.java:65 | Evaluating the next candidate extends the record by its outcome: a taken candidate's cached precondition is true, and one not taken has it false unless the same action comes again later. |
| MultiAgentPlanning.ExtendWith | src/bost7517/BDSM_MultiAgentPlanner.java:64-67 | A successor is made exactly when the candidate's precondition holds, which is when it was cached true or evaluates true now. A cached true precondition stays true. The successor is a new path: the polled path's actions plus this one. |
| MultiAgentPlanning.MultiAgentPlanner.constructor | src/bost7517/BDSM_MultiAgentPlanner.java:35-38 | The planner holds the given state and the ship's id as its actor. |
| MultiAgentPlanning.MultiAgentPlanner.GetNextAction | src/bost7517/BDSM_MultiAgentPlanner.java:46-78 | With the corrected goal test (IsGoalState, not the throwing one as written; see "## Left out"), getNextAction on a well-formed state always tells the ship to do nothing, because genAllPossibleActions is always empty. |
| P4Relations.GuardingIsNearness | src/bost7517/BDSM_P4_Relations.java:46-48 | A ship guards a base exactly when the two are near each other. The liveness tests of isGuarding add nothing to those of isNear. |
| P4Relations.NearBoundary | src/bost7517/BDSM_P4_Relations.java:34-36 | Two live objects at a shortest distance of exactly 50 are near. Objects farther apart are not. A dead object is near nothing, in either order. |
| P4Relations.NearIsSymmetric | src/bost7517/BDSM_P4_Relations.java:34-36 | When the distance is symmetric, nearness is symmetric. |
| P4Planning.DoActionPhases | src/bost7517/BDSM_P4_Action.java:61-95 | Before the precondition is met, doAction begins and performs the action exactly when the precondition holds. While running, it ends the action when the postcondition holds and performs it again otherwise. After the end it does nothing. The flags are never reset. |
| P4Planning.PostconditionNotCheckedOnStart | src/bost7517/BDSM_P4_Action.java:64-69 | The call that meets the precondition does not depend on the postcondition. |
| P4Planning.StepKeepsConsistent | src/bost7517/BDSM_P4_Action.java:61-95 | One doAction call keeps the hooks called so far consistent with the two flags. |
| P4Planning.RunIsConsistent | src/bost7517/BDSM_P4_Action.java:61-95 | Over any sequence of doAction calls, the hooks stay consistent with the flags: begin once and first, perform only after it, and end at most once and last. |
| P4Planning.ConsistentShape | src/bost7517/BDSM_P4_Action.java:18 | In a consistent record, begin can only come first and only once the precondition is met. End can only come last and only once the postcondition is met. |
| P4Planning.P4Action.constructor | src/bost7517/BDSM_P4_Action.java:22-24 | A new action holds its state, has neither condition met, and has called no hook. |
| P4Planning.P4Action.GetState | src/bost7517/BDSM_P4_Action.java:26-28 | getState returns the state the action was made with. |
| P4Planning.P4Action.DoAction | src/bost7517/BDSM_P4_Action.java:61-95 | doAction keeps the hooks consistent with the flags. Its reply and new flags are those of the phase it runs in. |
| P4Planning.OfKind | src/bost7517/BDSM_P4_State.java:43-50 | The objects selected by kind are actionable objects of that kind, and no more than there are objects. |
| P4Planning.OfKindIsComplete | src/bost7517/BDSM_P4_State.java:43-50 | Every object of the kind is selected. |
| P4Planning.OfKindStep | src/bost7517/BDSM_P4_State.java:43-50 | Looking at one more object selects it exactly when it is of the kind, after those already selected. |
| P4Planning.OfKindGrows | src/bost7517/BDSM_P4_State.java:43-50 | A prefix of the objects selects no more than the whole sequence does. |
| P4Planning.GuardingSlot | src/bost7517/BDSM_P4_State.java:71-73 | The goal test of one slot throws exactly when the ship slot is empty, or when the ship is alive and the base slot is empty. It is true exactly when both are present and the ship guards the base. |
| P4Planning.Filled | src/bost7517/BDSM_P4_State.java:43-50 | Filling slots with objects puts object j in slot j and leaves the later slots as they were. |
| P4Planning.FilledStep | src/bost7517/BDSM_P4_State.java:45-48 | Filling with one more object is the earlier filling with that object stored in the next slot. |
| P4Planning.Store | src/bost7517/BDSM_P4_State.java:45-48 | Storing into an array throws exactly when the index is out of bounds, and then changes nothing. Otherwise only that slot changes. |
| P4Planning.StoreNext | src/bost7517/BDSM_P4_State.java:45-48 | Storing the next object throws exactly when the array is full. Otherwise the array holds the filling extended by that object. |
| P4Planning.P4State.Allocate | src/bost7517/BDSM_P4_State.java:32-33 | The constructor allocates two distinct arrays of four empty slots. |
| P4Planning.P4State.InitStateArrays | src/bost7517/BDSM_P4_State.java:41-51 | initStateArrays throws exactly when there are more ships or more bases than the arrays hold. Otherwise the ships and the bases fill their arrays from the start, in order. |
| P4Planning.P4State.PlaceOne | src/bost7517/BDSM_P4_State.java:44-49 | One turn of the loop throws exactly when the ships or the bases seen so far overflow their array. Otherwise it keeps both arrays filled with what has been seen and advances the right index. |
| P4Planning.P4State.IsGoalState | src/bost7517/BDSM_P4_State.java:61-80 | isGoalState is false when an array has the wrong size. Otherwise it throws exactly when some slot's test throws, and is true exactly when every ship guards the base of its index. |
| P4Planning.P4State.ApplyAction | src/bost7517/BDSM_P4_State.java:37-39 | applyAction has exactly the effect of the action's doAction. |
| P4Planning.NewP4State | src/bost7517/BDSM_P4_State.java:31-35 | Building a state throws exactly when there are more than four ships or more than four bases. Otherwise slot i holds the i-th ship and the i-th base, or nothing. |
| P4Planning.FewShipsThrow | src/bost7517/BDSM_P4_State.java:69-78 | With fewer than four ships, some slot's test throws, so the goal test throws rather than answering. |
| KMeansClusters.Divide | src/bost7517/oldprojects/BDSM_KMeansAsteroidCluster.java:91 | Double division is exact for a non-zero finite divisor. A non-zero number over zero is an infinity of its sign. Zero over zero, or anything over NaN, is NaN. |
| KMeansClusters.CompareIsTotalOrder | src/bost7517/oldprojects/BDSM_KMeansAsteroidCluster.java:91 | Double.compare is zero only for equal values, antisymmetric and transitive. On finite values it orders by value. |
| KMeansClusters.KMeansAsteroidCluster.constructor | src/bost7517/oldprojects/BDSM_KMeansAsteroidCluster.java:24-33 | A new cluster holds one asteroid, and its sums are that asteroid's coordinates and resources. It has no centroid and records the ship's position with a distance of zero. |
| KMeansClusters.KMeansAsteroidCluster.Add | src/bost7517/oldprojects/BDSM_KMeansAsteroidCluster.java:35-40 | add records the asteroid under its id and adds its coordinates and resources to the sums, even when the id was already present. |
| KMeansClusters.KMeansAsteroidCluster.Clear | src/bost7517/oldprojects/BDSM_KMeansAsteroidCluster.java:42-49 | clear empties the cluster and zeroes its sums. |
| KMeansClusters.KMeansAsteroidCluster.ResetCentroid | src/bost7517/oldprojects/BDSM_KMeansAsteroidCluster.java:51-58 | The centroid is the mean position of the members, and the recorded distance is the centroid's distance to the ship. An empty cluster gets a NaN centroid and a NaN distance. |
| KMeansClusters.KMeansAsteroidCluster.GetCentroid | src/bost7517/oldprojects/BDSM_KMeansAsteroidCluster.java:60-62 | getCentroid returns the last centroid computed. |
| KMeansClusters.KMeansAsteroidCluster.GetBestAsteroid | src/bost7517/oldprojects/BDSM_KMeansAsteroidCluster.java:76-86 | getBestAsteroid is null exactly for an empty cluster, and otherwise returns a member. With non-negative totals it is the first member, in iteration order, holding the most resources. |
| KMeansClusters.CompareTo | src/bost7517/oldprojects/BDSM_KMeansAsteroidCluster.java:88-92 | compareTo puts the cluster with more resources per unit of distance first. It is zero exactly at equal ratios. |
| KMeansClusters.ClusterOrder | src/bost7517/oldprojects/BDSM_KMeansAsteroidCluster.java:88-92 | The order of clusters is antisymmetric. Between finite ratios, the higher ratio sorts first. |
| KMeansClusters.UncomputedDistance | src/bost7517/oldprojects/BDSM_KMeansAsteroidCluster.java:24-33 | A cluster whose distance is still zero has ratio +infinity when it holds resources and NaN when it holds none. With resources, it sorts before every cluster with a finite ratio. |

## Left out

- Physics and geometry: the engine's toroidal distances, position wrap-around, velocities and `Vector2D` are not modelled. Distance is a function parameter, and the obstacle sweep `isPathClearOfObstructions` is a parameter too.
- `AgentUtils.targetedByOpponent` and `getRunawayPosition`: floating-point projections through the engine's geometry, not modelled. Only agents outside this model call them.
- Double arithmetic is taken as exact real arithmetic: rounding and signed zero are not modelled. Where a division can meet zero (the k-means cluster), the result is taken among the infinities and NaN.
- Concurrency: the `TimeoutChecker` threads and their busy-waiting agents are not modelled; their sequential rules repeat the cascades that are modelled.
- I/O: the knowledge load and save in `initialize`/`shutDown`, and the `BufferedWriter` calls in `exportData`, are not modelled. The data files are the sequences of lines written to them.
- I/O: the fitness export of `makeNextGeneration` (`fitness_per_gen.csv`) and all `System.out`/`System.err` logging are not modelled. Each is output only and changes no state.
- Clocks: `System.currentTimeMillis` is not modelled. The planning time of a timed search is an input.
- Graphics: `getGraphics`, `showGraphics`, `drawGrid`, `drawSearchTree` and `drawBlockedGrids` are not modelled, nor the search-tree list kept only for drawing.
- The GA client glue, `AtkiGAChromosome` and `AtkiGAState` are not part of this model. `doCrossover` and `mutate` are parameters of the population model.
- `AtkiGAPopulation.getFirstMember`, `getMember`, `getCurrentPopulation` and `initMembers`: plain reads of the arrays, or calls into the chromosome class, and not modelled.
- `BDSM_P4_Planner` and `BDSM_P4_Actions` are not part of this model: the first is a stub and the second does not match the action class it extends.
- `BDSM_P4_State.getShips` returns the array field, which the model reads directly.
- `PriorityQueue` tie-breaking is not modelled. `Poll` is specified only to return a path with a least key, as the Java heap does, and the searches rely on nothing more.
- `hashCode`, UUID generation and `NO_ACTOR` are not modelled: ids are opaque values, and `NO_ACTOR` is a distinct actor value.
- Hash iteration order is not modelled: each loop over a `HashSet` or a key set takes its order as a sequence parameter without repeats.
- Casts that would throw `ClassCastException` are not modelled: objects are selected by their kind, so the ones cast are always of the kind cast to.
- Ships are compared by id, as `Ship.equals` does.
- GameObjects.LowerAscii: `equalsIgnoreCase` folds only the ASCII letters A to Z. Java's folding of other letters is not modelled, so `GameObjects.EqualsIgnoreCase` differs from Java on team names outside ASCII.
- Affordability: `PurchaseCosts.canAfford` is an engine call. It becomes the parameter `canAfford` of FlagCollectors.BDSMFlagCollector.GetTeamPurchases, and the booleans `canAffordBase` and `canAffordShip` of TeamClients.GetTeamPurchases.
- The engine's actions are values naming what the ship is told to do. Their execution, and the movement commands issued by the followers, are not modelled.
- `AStarGraph.getPathTo` (version 0.3) calls `AStarPath.makePath(this, v)`, but the factory in `bost7517.AStarPath` takes one vertex. The model uses that factory, with the grid size as a parameter.
- The version 0.2 graph calls `markStart`, `markEnd` and the heuristic setters on `astar.Vertex`, which has only getters. Its grid is built from the mutable `bost7517.Vertex`, and `astar.Vertex` is modelled on its own as a value (module `FrozenVertex`).
- AStarGraphV2.AStarGraph.GetPathTo: uses the corrected cell lookup, so that the search can be stated over the start and target cells. The lookup as written is `GetVertexAsWritten`.
- MultiAgentPlanning.MultiAgentPlanner.GetNextAction: uses the corrected goal test `PlanStates.IsGoalState`, and so returns do-nothing. The source's `getNextAction` throws ArrayIndexOutOfBoundsException at its first `isGoalState` call on every state, because that loop reads `bases[4]` of a 4-slot array (`PlanStates.IsGoalStateAsWritten`). The model does not carry that throw.
- TeamClients.ClaimBook.GetMovementEnd: uses the corrected clean-up `RemoveFinishedClaims`, and so drops a claim whose asteroid id no longer resolves. The source's `getMovementEnd` throws NullPointerException at `asteroid.getId()` in that case (`RemoveFinishedClaimsAsWritten`). The model does not carry that throw.
- AStarGraphV2.Search: polls at most `maxPolls` times and then gives up. The source loop has no bound and, on a target it stalls on, does not end.
- KMeansClusters.KMeansAsteroidCluster.Add: the Java `int` resource total does not wrap at 2^31 in the model.
- MultiAgentPlanning.MultiAgentPlanner.constructor: takes a built state. The source builds it with `new BDSM_PlanState`, which always throws (see `NewPlanStateAsWritten`).
- FriendyAgents.FriendyAgentBDSM.GetMovementStart: states only the key set and the non-ship entries. Each ship's entry is stated by the collector action of that ship.
- AStarTestAgents.BDSMAStarTestAgent.GetMovementStart: states only the key set and the non-ship entries, for the same reason.
- BadSearchAgents.BDSMBadSearchAgent.GetMovementStart: states only the key set and the non-ship entries, for the same reason.
- ModelBasedAgents.BDSMFriendyModelBasedAgent.GetMovementStart: states which objects get an action and the base entries. Each ship's entry is stated by the ship-action methods.
- FlagCollectors.BDSMFlagCollector.GetMovementStart: states the role split and the key set. The collector entries are stated by `GetAsteroidCollectorAction`, not through the loop.
- AStarTestAgents.BDSMAStarTestAgent.ChaseAsteroid: the parameter `costs` stands for the two calls `graph.getPathTo` and `graph.getPathToGBFS` and the path costs read from them. The searches themselves are modelled by AStarGraphs.GetPathTo and GetPathToGBFS, but the agent's rules are not composed with them. The same holds for GetAsteroidCollectorAction and LaterRules.
- BadSearchAgents.BDSMBadSearchAgent.Chase: the parameter `search` stands for the timed call `graph.getPathToGBFS`, with its path cost, tree size and planning time. That graph is `bost7517.AStarGraph`, which is not part of this model. Its counterpart in `spacesettlers.bost7517` is modelled by AStarGraphs.GetPathToGBFS. The same holds for GetAsteroidCollectorAction, ActionFor and GetMovementStart.
- FlagCollectors.BDSMFlagCollector.FlagShipAction: the parameter `plan` stands for the call `AStarGraph.getPathTo(ship, enemyFlag, space)`. That class is `bost7517.AStarGraph`, which is not part of this model.
- FlagCollectors.BDSMFlagCollector.GetMovementStart: the parameter `droneAction` stands for the engine call `drone.getDroneAction(space)`, which is outside this model.
- AStarPaths.AStarPath.AddVertex: `totalCost` is a Java `int`, so it would wrap after about 2^31 / GRID_SIZE vertices. The model adds without wrapping. Paths on the grid are far shorter than that. The same holds for GBFSPaths.GBFSPath.AddVertex and DedupPaths.DedupPath.AddVertex.
- BadSearchAgents.BDSMBadSearchAgent.ActionFor: a ship's entry is stated only as nothing or a leading move. What the ship is told is stated by `GetAsteroidCollectorAction`, which it calls.
- AStarTestAgents.BDSMAStarTestAgent.ActionFor: only the non-ship entry is stated. A ship's entry is stated by `GetAsteroidCollectorAction`, which it calls.
- ModelBasedAgents.BDSMFriendyModelBasedAgent.ShipStep: states the ship's state entry, not its action. The action is stated by `GetBDSMShipAction`, which it calls.
- ModelBasedAgents.BDSMFriendyModelBasedAgent.DecideActions: states which objects get an action and the base entries, not the ships' actions. Those are stated by `GetBDSMShipAction` for each ship.
- FlagCollectors.BDSMFlagCollector.ActionFor: a collector's entry is stated only as never a bare position unless it keeps its action. What the collector is told is stated by `GetAsteroidCollectorAction`, which it calls.
- FlagCollectors.BDSMFlagCollector.ActionsFor: states the role split and the key set, not the collector entries. Those are stated by `GetAsteroidCollectorAction`.
- CsvRows.LoadText: models `np.loadtxt` as a list of rows, one per data line. The array shape is not modelled. With the default ndmin=0, a file with one data row loads as a 1-D array and a file with none as an empty array, and in both cases `data[:,1]` in the plotting script raises IndexError. `np.loadtxt` also rejects rows of unequal width, which LoadText accepts. The exported files always have rows of one width, but a file with fewer than two data rows does not plot.
- AStarGraphV2.DiagonalTargetStalls: proves the cost bound on every walk to the target. It does not follow Search's first polls to show that the two-vertex path of key 2g + g·sqrt(5) is polled and enters the stalls.
- AtkiGAPopulation's constructor and the Vertex[][] allocation in the graph constructors throw NegativeArraySizeException on a negative size. The model requires the sizes to be non-negative (`size: nat` in GAPopulation, `Quot(window, g) >= 0` in the graph constructors), because the agents always pass positive window sizes and a positive population size.
- `ship.setCurrentAction(null)` in the replanning branch of the flag ship's rule in `BDSMFlagCollector` is not modelled. It clears the engine's record of the ship's action, which the model does not keep, and the rule returns a new action right after (FlagCollectors.BDSMFlagCollector.FlagShipAction).
- A null element in the path array given to `FollowPathAction` is not modelled. The searches build their paths from grid vertices, none of which is null.

## Findings

| source | as written | input that shows it | evidently intended | confidence | as-written member | corrected member |
|---|---|---|---|---|---|---|
| src/bost7517/BDSM_PlanState.java:158-164 | The goal test starts its accumulator at false, combines with `&=`, and runs i from 1 to 4 over arrays of length 4. | Any state: the call at i = 4 evaluates its arguments left to right, so it reads `bases[4]`, past the end of the 4-slot array, and throws ArrayIndexOutOfBoundsException. Even without the throw, the result could never be true. | A conjunction, from true, over slots 1 to 3. | not executed | PlanStates.IsGoalStateAsWritten | PlanStates.IsGoalState |
| src/bost7517/BDSM_PlanState.java:21-22 | `ships` and `bases` have no initialiser, and `initState` stores into them. | Any set of actionable objects: the first store into `ships`, or `ships.length` when there is no ship, throws NullPointerException. | Arrays of `TOTAL_SHIPS` and `TOTAL_BASES` slots allocated before they are filled. | not executed | PlanStates.NewPlanStateAsWritten | PlanStates.NewPlanState |
| src/spacesettlers/bost7517/astar/AStarGraph.java:116-132 | With no closed set, a polled path's child back to its previous vertex is, after the de-duplicating `addVertex`, a copy of the polled path, so it is enqueued again at the same key. | A 5 by 5 grid, start cell (0, 0), target cell (2, 2): the path to (0, 1) has key 2g + g·√5. Every path reaching the target costs at least 5g, so it is never polled and the loop does not end. | A search that expands each vertex once, as the closed set of version 0.3 does. | not executed | AStarGraphV2.DiagonalTargetStalls | AStarGraphs.AStarGraph.GetPathTo |
| src/spacesettlers/bost7517/astar/AStarGraph.java:232-236 | `getVertex` divides the coordinates by the row and column counts. | 10-unit cells in a 200 by 200 window: the centre (55, 55) of cell (5, 5) is looked up as cell (2, 2). | Division by the cell size, so that each cell's centre maps back to that cell. | not executed | GridGeometry.CellOfByCountsMissesCentre | GridGeometry.CellOfBySizeCentre |
| src/spacesettlers/bost7517/FriendyAgentBDSM.java:385-397 | The end-of-turn loop adds the looked-up asteroid even when it is null, and the removal loop then calls `getId` on it. | A claim on an asteroid id that the space no longer holds: NullPointerException. | Such a claim is dropped along with those on dead or moveable asteroids. | not executed | TeamClients.ClaimBook.RemoveFinishedClaimsAsWritten | TeamClients.ClaimBook.RemoveFinishedClaims |
