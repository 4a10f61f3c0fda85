# A verified model of the skirmish rules engine

Skirmish is a two-player strategy game played on a grid. This project models
its rules engine in Dafny and proves properties of the model. The model covers:

- **The map**: a grid of characters from the alphabet `01269`, parsed from
  lines and validated, then only queried. `9` is an obstacle and `6` is a mine.
- **Units**: eight unit types driven by an attribute table and an
  attacker-by-defender damage table. A unit object changes in place when it
  moves, attacks, takes damage, resets each turn and, for a Base, builds
  another unit.
- **Players**: an id, a name, a gold counter and an ordered roster that starts
  with the player's Base.
- **The helpers of the bundled AI player**:
  - a breadth-first distance field over the map;
  - the nearest-cell search built on it;
  - the two readers of the status file, one for the player's own units and one
    for the enemy's.

Layout, one module per file:

| file | module | models |
|---|---|---|
| common.dfy | `Common` | `Option`, `Result`, `Outcome`; the `unsigned short` and `unsigned int` ranges; conversion to `unsigned short` |
| unit_tables.dfy | `UnitTables` | unit types and names, `unitTypeMap`, the attribute and damage tables |
| grid.dfy | `Grid` | `Map`: parsing, validation and the `const` queries |
| units.dfy | `Units` | `UnitValue` (a unit's state as a value), one specification function per unit operation, and class `Unit` with in-place methods proved against those functions |
| unit_properties.dfy | `UnitProperties` | the rules proved about the unit functions, and the corrected build pipeline |
| players.dfy | `Players` | class `Player` |
| pathfinding.dfy | `Pathfinding` | `performBFS`, and the proof that its result holds shortest walk lengths |
| nearest.dfy | `Nearest` | `findSpecifiedObject` |
| status.dfy | `Status` | `readStatusFile` and `getEnemyUnits` |

Modelling choices:

- **Exceptions** become `Result`/`Outcome` values. The error datatype names
  the check that threw. An operation that throws leaves the state as the
  source leaves it at that point.
- **Copies of units** become `UnitValue`. This covers the copies held in
  vectors, in a Base's build slot and in a player's roster. `currentCreation`
  is an `Option<UnitValue>`, held by value.
- **`attackAction`'s caller vector**, which the source writes through
  `const_cast`, is an `array<UnitValue>`.
- **`unsigned short` arithmetic** is explicit through `ToU16`
  (reduction modulo 2^16). It covers:
  - the distance in `calculateDistance`;
  - coordinates stored by `setPosition`;
  - the BFS neighbour coordinates, where 0 - 1 becomes 65535;
  - the returned cell of `findSpecifiedObject`;
  - the ids and damage read from the status file.
- **Inputs from I/O**:
  - the map file becomes a sequence of lines;
  - the status file becomes a sequence of lines after extraction. Each line
    records its first character, the number `iss >> gold` reads from it, and
    the type token and four integers `iss >> dummy >> unitType >> id >> x >> y >> hp`
    reads from it.

## Model

| member | source | states |
|---|---|---|
| Common.ToU16 | include/unit.hpp:37-43 | storing an integer in an `unsigned short` keeps it modulo 2^16 and leaves 0..65535 unchanged |
| UnitTables.TypeOfName | src/unit.cpp:4-14 | a name is found in the attribute table exactly when it is the name of one of the eight types, and it then denotes that type |
| UnitTables.TypeOfInitial | include/unit.hpp:8-17 | `unitTypeMap` maps a character to t exactly when the character is the first letter of t's name, and holds no other key |
| UnitTables.NamesDistinct | include/unit.hpp:8-17 | the eight names are pairwise distinct, and so are their initials, so a name and an initial each determine the type |
| UnitTables.Attributes | src/unit.cpp:4-14 | the attribute rows; only a Base has speed 0 and building time 0; every health is positive |
| UnitTables.DamageEntry | src/unit.cpp:17-26 | the damage table has a row for every attacker except Base |
| UnitTables.CalculateDamage | src/unit.cpp:100-118 | the damage is the table entry, or 0 exactly when the attacker has no row; it never exceeds 50 |
| UnitTables.ArcherHitsSwordsman | src/unit.cpp:21 | an Archer deals a Swordsman 15 |
| Grid.Map.GetCell | src/map.cpp:36-41 | it throws `out_of_range` exactly when x >= width or y >= height; otherwise it returns `grid[y][x]`, a character of the alphabet |
| Grid.IsValidCellCharacter | src/map.cpp:95-101 | true exactly for the five characters `0`, `1`, `2`, `6` and `9` |
| Grid.IsValidDimensions | src/map.cpp:103-106 | true exactly when neither dimension is 0 |
| Grid.Map.Width | src/map.cpp:28-30 | 0 exactly for an empty grid or an empty first row; on a rectangular grid, the length of every row |
| Grid.Map.Height | src/map.cpp:32-34 | 0 exactly for an empty grid |
| Grid.Map.GetBasePosition | src/map.cpp:43-54 | the result is an in-bounds cell holding c with no earlier cell in row-major order holding c; it throws only when no cell holds c |
| Grid.Parse | src/map.cpp:7-26 | construction succeeds exactly on non-empty rectangular lines over `01269`; the grid is then the lines, the height their number and the width the first line's length; otherwise the error is the one of the first check that fails (character, row width, dimensions) |
| Units.Construct | src/unit.cpp:29-44 | an unknown name throws; otherwise the attributes are the table row, `hasAttacked` is false, `baseSpeed == speed` and no creation is in progress |
| Units.GetInitial | src/unit.cpp:87-92 | the initial of a unit's name is the `unitTypeMap` key that maps back to the unit's type |
| Units.IsWorkerOnMine | src/unit.cpp:303-313 | true exactly for a Worker standing on a `6` cell; a Worker outside the map makes `getCell` throw |
| Units.IsWorker | src/unit.cpp:267-269 | true exactly when the unit's name is `Worker` |
| Units.Distance | src/unit.cpp:121-123 | the Manhattan distance modulo 2^16, equal to it when it is below 2^16 |
| Units.FlooredHealth | src/unit.cpp:230-236 | health after damage is health minus the amount, or 0; it never exceeds the old health |
| Units.MoveResult | src/unit.cpp:196-227 | a successful move puts the unit on (x, y) in bounds, on no obstacle and on no enemy, with speed lowered by the distance |
| Units.FindById | src/unit.cpp:155-161 | the index of the first unit with the id, or none when no unit has it |
| Units.AttackResult | src/unit.cpp:143-193 | a successful attack requires a non-Base attacker with speed left that has not attacked; it finds the target and costs one speed |
| Units.TickResult | src/unit.cpp:239-248 | throws exactly on a Base; otherwise it lowers the building time by one while it is positive, changes nothing else, and reports whether it is now 0 |
| Units.ResetState | src/unit.cpp:251-254 | speed equals the base speed and the attack flag is clear |
| Units.DeployResult | src/unit.cpp:257-264 | succeeds exactly for a unit that is a Base, placing it on the base's cell |
| Units.CreateResult | src/unit.cpp:271-300 | a non-Base throws; a creation of a different id in progress throws; a normal return always leaves a creation in the slot; a cleared slot means nothing changed |
| Units.Unit.constructor | src/unit.cpp:29-44 | the new unit's state is the type's table row, at (0, 0), with no creation in progress |
| Units.Unit.New | src/unit.cpp:29-34 | it throws for an unknown name; otherwise it yields a fresh unit whose state is `Construct`'s |
| Units.Unit.GetCurrentCreation | include/unit.hpp:131-133 | the unit in the build slot, `None` for the null pointer |
| Units.Unit.SetPosition | src/unit.cpp:94-97 | the coordinates become x and y modulo 2^16; nothing else changes |
| Units.Unit.MoveAction | src/unit.cpp:196-227 | the new state is `MoveResult`'s; a refused move returns its error and changes nothing |
| Units.Unit.AttackAction | src/unit.cpp:143-193 | the attacker and the caller's array become `AttackResult`'s; a refused attack changes neither |
| Units.Unit.TakeDamage | src/unit.cpp:230-236 | the new state is the old one with the floored health |
| Units.Unit.BuildingTick | src/unit.cpp:239-248 | the result and new state are `TickResult`'s; on a Base it throws and changes nothing |
| Units.Unit.Reset | src/unit.cpp:251-254 | the new state is `ResetState` of the old |
| Units.Unit.Deploy | src/unit.cpp:257-264 | the new state is `DeployResult`'s; a refused deploy changes nothing |
| Units.Unit.CreateUnit | src/unit.cpp:271-300 | the new state and outcome are `CreateResult`'s |
| Units.FindByIdFirst | src/unit.cpp:155-161 | the search loop that breaks at the first match computes `FindById` |
| UnitProperties.NewUnitWellFormed | src/unit.cpp:29-44 | a fresh unit is well formed, has no creation in progress, and its initial maps back to its type |
| UnitProperties.TakeDamageFloors | src/unit.cpp:230-236 | health drops to 0 when the amount reaches it and by exactly the amount otherwise; nothing else changes; well-formedness is kept |
| UnitProperties.MoveGuards | src/unit.cpp:196-221 | each refusal (Base, too far, outside the map, obstacle) reports its own error in the source's order; a move succeeds exactly when none applies and no enemy is on the target, and then only position and speed change |
| UnitProperties.MoveSpendsManhattanDistance | src/unit.cpp:223-226 | a successful move over a true distance below 2^16 spends exactly that distance |
| UnitProperties.AttackGuards | src/unit.cpp:143-177 | Base, no speed, already attacked, target not found, ally target and out of range each report their own error, in the source's order, and an attack is accepted exactly when none of the six applies |
| UnitProperties.ArcherWoundsSwordsman | src/unit.cpp:143-177 | an Archer attacking an enemy Swordsman on its own cell is accepted and leaves the Swordsman with 45 of its 60 health |
| UnitProperties.AttackHitsFirstMatch | src/unit.cpp:155-189 | the first unit with the id is an enemy in range and takes the table's damage, floored; every other unit is unchanged; the attacker loses one speed and is marked |
| UnitProperties.AttackDistanceWraps | src/unit.cpp:121-123 | a target 65536 cells away is at computed distance 0 and can be hit |
| UnitProperties.SecondAttackRefused | src/unit.cpp:147-152 | after a successful attack, every further attack before `reset` is refused |
| UnitProperties.ResetProperties | src/unit.cpp:251-254 | `reset` is idempotent and keeps well-formedness; after it an attack is never refused as a second attack, nor for lack of speed on a well-formed non-Base unit |
| UnitProperties.TicksComplete | src/unit.cpp:239-248 | after k >= 1 ticks the building time is max(t - k, 0), and the tick reports completion exactly when k >= t |
| UnitProperties.BuildTimeline | src/unit.cpp:271-300 | an idle Base ordered k times to build a non-Base unit of building time t holds it with t - k to go while k < t; from the t-th order on, every order throws from `deploy` and the finished unit stays in the slot |
| UnitProperties.BusyCheckUsesIds | src/unit.cpp:279 | an order for a different unit with the same id advances the creation in progress |
| UnitProperties.BuildingABaseFillsSlot | src/unit.cpp:290-293 | ordering a Base to be built fills the slot before the tick throws |
| UnitProperties.WorkerBuildNeverDeploys | src/unit.cpp:258-262 | a Worker's first order returns normally and its second throws, leaving it in the slot |
| UnitProperties.DeployIntended | src/unit.cpp:257-264 | the corrected `deploy` succeeds exactly for a non-Base unit and places it on the base's cell |
| UnitProperties.CreateIntended | src/unit.cpp:271-300 | with the corrected `deploy`, a handed-back unit stands on the base's cell and the slot is cleared |
| UnitProperties.IntendedBuildDeploys | src/unit.cpp:271-300 | with the corrected `deploy`, the t-th order hands the unit back on the base's cell with the slot cleared, and no earlier order hands anything back |
| Players.Player.constructor | src/player.cpp:3-5 | the player has the given id and name, gold 0, and exactly one unit: a Base whose owner is the id and whose unit id is that id as 0 or 1 |
| Players.Player.GetID | src/player.cpp:7-9 | the id field, a `const` the constructor fixes to the id given |
| Players.Player.GetName | src/player.cpp:11-13 | the name field, a `const` the constructor fixes to the name given |
| Players.Player.GetPlayerUnits | src/player.cpp:15-17 | a copy of the roster with the same units in the same order |
| Players.Player.GetGold | include/player.hpp:28 | the gold `setGold` last stored (declared, with no definition in the source) |
| Players.Player.SetGold | include/player.hpp:50 | `getGold` then yields the amount; the units are unchanged |
| Players.Player.AddUnitToPlayerUnits | src/player.cpp:19-21 | one more unit, the given one last, every earlier unit unchanged, gold unchanged |
| Pathfinding.PerformBFS | src/offensive.cpp:21-53 | the result is a distance field from the start: height by width, 0 at the start and nowhere else, every entry >= -1, every cell at d >= 1 one step from a cell at d - 1, and the open neighbours of every reached cell reached within one more step |
| Pathfinding.QueueFits | src/offensive.cpp:43-46 | a cell is queued only once, so the queue never holds more entries than the map has cells, which bounds the loop |
| Pathfinding.PathBound | src/offensive.cpp:31-47 | every walk from the start that avoids obstacles ends at a reached cell whose distance is at most the walk's length |
| Pathfinding.PathTo | src/offensive.cpp:45 | every reached cell has a walk from the start exactly as long as its distance |
| Pathfinding.ShortestWalks | src/offensive.cpp:21-53 | each entry is the length of the shortest obstacle-free 4-neighbour walk from the start, and -1 exactly when there is no such walk |
| Pathfinding.ObstaclesUnreached | src/offensive.cpp:42-43 | a `9` cell other than the start stays -1 |
| Pathfinding.EdgeStepsLeaveMap | src/offensive.cpp:38-42 | stepping left from column 0 or up from row 0 wraps to 65535, outside every map under 65536 cells wide and high |
| Nearest.DistanceFieldUnique | src/offensive.cpp:61 | two distance fields from the same start are equal, so the BFS result is determined |
| Nearest.FindSpecifiedObject | src/offensive.cpp:56-79 | a BFS distance field exists, and for it (for any, since it is unique) the result is the row-major running-minimum scan of the distances over the cells holding the object, truncated to `unsigned short` |
| Nearest.NoMatchGivesOrigin | src/offensive.cpp:64-78 | with no cell holding the object, the result is (0, 0) |
| Nearest.GridScanBest | src/offensive.cpp:68-76 | with every match reachable, after each row the choice is the nearest match scanned so far, and ties go to the first |
| Nearest.NearestMatch | src/offensive.cpp:68-76 | with every match reachable and one existing, the result holds the object at the least distance, and every match before it in row-major order is strictly farther |
| Nearest.NearestAnswer | src/offensive.cpp:56-79 | on a map below 2^16 in each dimension whose matching cells are all reachable, the returned pair is a matching cell, and no walk from the start to any matching cell is shorter than the shortest walk to it |
| Nearest.UnreachableTakesOver | src/offensive.cpp:70 | an unreachable match replaces whatever was chosen, since -1 is below every distance |
| Nearest.LastUnreachableWins | src/offensive.cpp:68-76 | if the last match in row-major order is unreachable, the result is that cell, however near the others are |
| Status.TokenInitial | src/offensive.cpp:118 | `unitType[0]` is the token's first character, or `'\0'` for an empty token |
| Status.DecodeLine | src/offensive.cpp:115-125 | a line fails exactly when its initial is not in `unitTypeMap`, with that token; otherwise the unit has the mapped type, the owner, and the id and position modulo 2^16 |
| Status.ReadUnits | src/offensive.cpp:112-128 | the loop appends exactly `DecodeUnits` of the lines and leaves gold alone; it throws exactly when `DecodeUnits` fails, with its error |
| Status.ReadStatusFile | src/offensive.cpp:94-131 | "Player 2" with id true; gold from the first line; units `Roster` with tag `E`; throws exactly when the roster fails |
| Status.GetEnemyUnits | src/offensive.cpp:133-166 | "Player 1" with id false; gold 0; units `Roster` with tag `P`; throws exactly when the roster fails |
| Status.DecodeErrorPersists | src/offensive.cpp:118-120 | once a line throws, later lines do not change the outcome |
| Status.DecodeFailsIff | src/offensive.cpp:112-120 | reading fails exactly when some tagged line has an unknown initial, and then with the token of the first such line |
| Status.DecodeFollowsTagged | src/offensive.cpp:112-127 | on success there is one unit per tagged line, in file order, each that line's unit |
| Status.DecodeIgnoresUntagged | src/offensive.cpp:113 | lines without the tag can be removed without changing the result |
| Status.DecodeAppend | src/offensive.cpp:126 | one more line appends its unit when tagged and nothing otherwise |
| Status.LineHealthExact | src/offensive.cpp:125 | an hp between 1 and the type's full health becomes the unit's health |
| Status.LineHealthNonPositive | src/offensive.cpp:125 | an hp of 0 or below, down to full health minus 65535, gives health 0 |
| Status.LineHealthAboveFull | src/offensive.cpp:125 | an hp above full health, up to 65536, wraps the damage and gives health 0 |
| Status.LineHealthBounds | src/offensive.cpp:125 | the health read never exceeds full health and is 0 or congruent to the hp modulo 2^16 |
| Status.DecodedWellFormed | src/offensive.cpp:123-126 | every unit read is well formed, belongs to the side read, and builds nothing |
| Status.RosterShape | src/offensive.cpp:94-131 | a roster starts with the owner's Base, followed by one unit per tagged line after the first line; a stream that did not open gives the Base alone |

## Left out

- `mediator.cpp`, `main.cpp`, `timerFunction`, `main` and `performTurn` are not part of this model. They are process orchestration, threads, argument parsing and a random move generator.
- File and stream handling (`loadMapFromFile`, the stream constructor, `is_open`, `getline`, `istringstream` extraction) is out. Inputs are already-split lines, and for the status file already-extracted fields. So a malformed line that makes extraction fail, and keep the previous line's values, is not represented.
- Grid.Parse models both map constructors. They run the same loop and the same `validateMapData`; only how the file is opened differs.
- Exception message texts are out; each exception is a named error.
- `getGold`, `setGold` and `getUnitByID` are declared in include/player.hpp but never defined. The first two are modelled with their declared meaning over `playerGold`. `getUnitByID` is left out.
- Players.Player.constructor: gold starts at 0, where the source leaves `playerGold` uninitialised. A unit's position, also uninitialised, starts at (0, 0).
- The header declares a three-argument Player constructor, but the source defines a two-argument one. The model follows the source.
- `unitTypeMap` is defined twice, once in the unit header and once in the AI file. It is modelled once.
- Status.GetEnemyUnits returns the player it builds. The source falls off the end of the function without a `return`, which is undefined behaviour.
- `performTurn` reuses the status stream for the enemy reader after it is exhausted. That belongs to `performTurn`; here each reader takes its own file.
- Units.TickResult follows the code. The header's doc comment for `buildingTick` describes the result differently.
- Pathfinding.PerformBFS requires the start to lie inside the map. The source indexes `distance[startY][startX]` unchecked, so anything else is undefined behaviour.
- The const-ness of the map queries is carried by `Map` being an immutable value. `getPlayerUnits` returning a copy is carried by units being values.

## Findings

| source | as written | input that shows it | evidently intended | confidence | as-written member | corrected member |
|---|---|---|---|---|---|---|
| src/unit.cpp:257-264 | `deploy` places the unit only when the unit itself is a Base and throws otherwise. `buildingTick` throws on a Base, so no build started by `createUnit` ever deploys: every finished unit throws and stays in the slot for good | an idle Base ordered twice to build a Worker (building time 2): the second order throws from `deploy` | deploy a finished non-Base unit onto the base's cell and clear the slot | not executed | UnitProperties.WorkerBuildNeverDeploys | UnitProperties.IntendedBuildDeploys |
