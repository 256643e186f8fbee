# lux-rl agent core in Dafny

This project models the per-turn decision logic of the lux-rl agent for the
Lux AI game. It covers five parts:

- **Grid matrices of `lux/game.py`.** The resource score and collection-rate
  matrices (five-cell neighbourhood sums, with coal and uranium gated by
  research), the maxpool local-dominance filter, the city-tile count matrix,
  the empty-tile matrix and the nearest-empty-tile search.
- **Mission store of `lux/game.py`.** One mission (target, action, delay
  counter) per unit id, with `add`, `delete`, `cleanup` and `get_targets`.
- **`find_best_cluster` of `lux/find_cluster.py`.** A row-major argmax over
  the cells with a positive score within a worker's travel range.
- **Planning and movement of `lux/actions.py`.**
  - `make_city_actions`: research or build a worker per city tile, with a
    running unit count and cap.
  - `make_unit_missions`: the ordered branches that give units targets.
  - `make_unit_actions`: the sweep that repeats until a pass adds no command.
  - `attempt_direction_to`: picks the nearest admissible neighbour and
    updates the shared occupied-tile set.
- **Label parser of `imitation-learning/utils/preprocess.py`.** `to_label` and
  `depleted_resources`.

How the source's forms map onto Dafny:

- **Matrices.** Matrices are `seq<seq<int>>` indexed `[y][x]`. They are built
  by methods with the same nested loops as the source, and each method is
  proved equal to a specification function.
- **State changed in place.** The mission store is the class
  `LuxMissions.Missions`, with a `map` field updated by its methods. The units
  and the occupied set that the movement code changes are fields of the class
  `LuxState.Game`.
- **Searches.** `find_best_cluster` and `get_nearest_empty_tile` are loops
  proved equal to row-major folds (`BestCluster`, `NearestEmpty`). Lemmas then
  prove that the folds are argmax/argmin searches where the first cell wins a
  tie.
- **The action sweep.** `make_unit_actions` is proved against a ghost log of
  events. Each event is an arrival or a move. It is justified by the unit
  and its mission as they were at the start of the call, by the shuffled
  order of its own pass and by the occupied set at its moment, which is a
  fold of the earlier moves over the starting set (`OccAfter`). The events
  are logged in visiting order, pass by pass and unit by unit, and every
  unit visited without an event had nothing to do at that moment. The
  output, the units, the store and the final occupied set are functions of
  that log.

Inputs the code cannot see are parameters:

- the shuffled direction orders, as `orders(pass, unit)`;
- the `random.uniform` distance multipliers, as `freshMult(i)` and
  `relocateMult(i)`;
- the floating-point weight `score * distance ** multiplier`, as an abstract
  positive function `Weight`;
- the game constants: fuel and collection rates in `FuelTable`, and the worker
  cooldown in `Snapshot.workerCooldown`.
- the game-state attributes that the core reads but no code of the model
  sets: `convolved_fuel_matrix`, `convolved_rate_matrix`, `turns_to_night`
  and `turns_to_dawn`, as the `Snapshot` fields `fuelMatrix`, `rateMatrix`,
  `turnsToNight` and `turnsToDawn`.

The code and the surrounding design disagree in three places. The model
follows the code's evident intent and keeps one store:

- `lux/actions.py` calls `get_nearest_empty_tile_and_distance`, which
  `lux/game.py` does not define. The model uses `get_nearest_empty_tile`,
  which returns the same pair.
- `lux/actions.py` reads and writes `target_positions` and `target_actions`,
  and calls `delete` and a one-argument `cleanup(player)`. The model maps all
  of these onto the one `Missions` store of `lux/game.py`, with its
  three-argument `cleanup`. The city-tile sets come from the turn's snapshot.
- A fresh unit's mission action `None` (lux/actions.py:160) is modelled as the
  empty string. Both are falsy, and the sweep tests only truthiness.

## Model

| member | source | states |
|---|---|---|
| LuxBasics.ById | lux/game.py:44-48 | every unit id is a key; each entry is a unit filed under its own id; with distinct ids each unit is found under its id |
| LuxGame.ResourceScoresAndRates | lux/game.py:178-213 | both matrices have height rows of width entries; entry (x, y) is the neighbourhood sum of fuel·amount (scores) and of fuel·collection rate (rates) |
| LuxGame.CellSums | lux/game.py:188-207 | the inner loop over the five offsets yields exactly the two neighbourhood sums of the cell |
| LuxGame.ScorePositiveIff | lux/game.py:190-206 | with positive fuel values, a score is positive iff the cell or an in-bounds orthogonal neighbour holds a mineable resource with amount left |
| LuxGame.ResearchNeverLowersScores | lux/game.py:196-199 | more research never lowers a score or a rate; a strict rise needs a coal or uranium cell in the neighbourhood |
| LuxGame.BeatsIntegerForm | lux/game.py:222-226 | on integer scores the tie-break `n + 0.2dx + 0.1dy > s` means n >= s for an east or south neighbour, n > s for west or north, and never for the cell itself |
| LuxGame.MaxpoolValue | lux/game.py:217-229 | each maxpool entry is 0 or the cell's own score |
| LuxGame.MaxpoolMatrix | lux/game.py:215-231 | the pool has height rows of width entries; an entry keeps the own score exactly when no in-bounds neighbour dominates the cell |
| LuxGame.RicherNeighbourSuppresses | lux/game.py:222-227 | a cell with a strictly richer in-bounds orthogonal neighbour gets 0 |
| LuxGame.StrictLocalMaximumKept | lux/game.py:222-229 | a cell strictly richer than all its in-bounds neighbours keeps its score |
| LuxGame.AdjacentCellsNotBothKept | lux/game.py:222-229 | of two orthogonally adjacent cells at most one keeps a non-zero entry |
| LuxGame.MaxpoolAsWrittenKeepsDominatedCell | lux/game.py:220-229 | on a 3x3 input the loop as written keeps the score of a cell that a richer west neighbour dominates, and the intended filter gives 0 |
| LuxGame.ZeroMatrix | lux/game.py:183-184 | height rows of width zeros |
| LuxGame.ZeroMatrixAsWrittenHasOneRow | lux/game.py:181-182 | the allocation as written has one row, so on a map of two or more rows it is not a height×width grid, and row 1 is out of range |
| LuxGame.CityTileMatrix | lux/game.py:233-243 | entry (x, y) counts the player's city tiles at (x, y) |
| LuxGame.EmptyTileMatrix | lux/game.py:245-259 | entry (x, y) is 1 exactly when the cell has no resource with an amount left and no city tile, and 0 otherwise |
| LuxGame.NearestEmptyTile | lux/game.py:261-276 | the running minimum of the nested loops equals the row-major fold `NearestEmpty` |
| LuxGame.NearestEmptyIsNearest | lux/game.py:264-276 | the result is an empty tile at minimal distance, the first in row-major order on ties; with none nearer than width + height the result is no tile at distance width + height; from a tile on the map, no tile exactly when there is no empty tile |
| LuxMissions.NewMission | lux/game.py:18-22 | a new mission carries the given unit, target and action (default ""), with delays 0 |
| LuxMissions.Head | lux/game.py:51 | Python's `a[:5]`: a prefix of length min(|a|, 5) |
| LuxMissions.Pruned | lux/game.py:39-64 | cleanup only deletes: surviving keys are old keys with unchanged missions; every survivor belongs to a live unit, is not a build-city mission of an empty-cargo unit, does not target an opponent city tile, and its unit is not on an own city tile; every mission passing all the tests survives |
| LuxMissions.PrunedIdempotent | lux/game.py:39-64 | cleaning up twice gives the same store as cleaning up once |
| LuxMissions.PrunedAfterAdd | lux/game.py:36-64 | after an upsert, cleanup decides the new mission by the rules alone and every other entry as before |
| LuxMissions.AsWrittenKeepsEmptyBuilder | lux/game.py:50-54 | with `unit.cargo == 0` as written, an empty worker keeps its build-city mission, while the intended rule drops it |
| LuxMissions.Missions.constructor | lux/game.py:33-34 | a new store is empty |
| LuxMissions.Missions.Add | lux/game.py:36-37 | upsert: the new mission is filed under its unit, and every other entry is unchanged |
| LuxMissions.Missions.Delete | lux/actions.py:217 | removes exactly the unit's entry |
| LuxMissions.Missions.Cleanup | lux/game.py:39-64 | the loop that deletes keys one by one leaves exactly `Pruned` of the old store |
| LuxMissions.Missions.Targets | lux/game.py:69-70 | the targets are exactly the target positions of the stored missions |
| LuxFindCluster.TravelRange | lux/find_cluster.py:21-22 | never negative; it is 0 or turns_to_night // cooldown − 2, and at least the latter |
| LuxFindCluster.ClusterDistance | lux/find_cluster.py:32 | at least 1 and at least the Manhattan distance; equal to it when the two positions differ, and 1 when they coincide |
| LuxFindCluster.FindBestCluster | lux/find_cluster.py:13-47 | the nested loops return the row-major fold `BestCluster` with the travel range of the turn |
| LuxFindCluster.BestClusterIsArgmax | lux/find_cluster.py:26-42 | with no candidate the result is (position, −1); otherwise a candidate of maximal weight, the first in row-major order among equal weights |
| LuxFindCluster.BestClusterWithinRange | lux/find_cluster.py:31-42 | a returned cell lies within the travel range and has a positive score |
| LuxUnitActions.ChosenDirectionIsNearest | lux/actions.py:242-260 | CENTER exactly when no neighbour is admissible; otherwise an admissible, unoccupied neighbour strictly nearest to the target, the earliest in the shuffled order among equally near ones |
| LuxUnitActions.AttemptDirectionTo | lux/actions.py:234-268 | returns the chosen direction; on a move the old tile leaves the occupied set, the new tile joins it unless it is an own city tile, and cooldown rises by 2; on CENTER nothing changes |
| LuxUnitActions.Emits | lux/actions.py:212-214 | an arrival emits its action exactly when that action is non-empty; a move emits the unit's move command; never more than one command |
| LuxUnitActions.MoveKeepsClaims | lux/actions.py:250-265 | a move onto an unoccupied tile keeps the occupied set covering every claimed tile and keeps claims of non-city tiles distinct |
| LuxUnitActions.QuietAfterCenter | lux/actions.py:221-224 | a unit for which the search returns CENTER has no admissible neighbour |
| LuxUnitActions.Arrive | lux/actions.py:209-218 | a unit on its target logs an arrival in this pass with its mission's action, emits that action if non-empty and loses its mission; the units and the occupied set are unchanged; the event log, output and claims stay consistent |
| LuxUnitActions.StepTowards | lux/actions.py:220-227 | a unit off target either stays with nothing admissible, or logs a move of this unit in this pass, recording the occupied set it saw, moves in the chosen direction, emits the move command and updates the occupied set by that move (`OccStep`) |
| LuxUnitActions.ActOn | lux/actions.py:199-227 | one unit's turn in a pass: nothing for a unit that cannot act or has no mission, else arrive or step; any event is this unit's, in this pass, and a move records the occupied set it saw; the new occupied set is that set after the event; a command always shrinks the set of active units |
| LuxUnitActions.SweepPass | lux/actions.py:199-227 | one pass keeps the sweep state and claims, extends the visiting-order trace by a whole pass with the occupied set still the fold of the log, and records whether this pass emitted a command; a pass that adds no command leaves every unit with nothing left to do |
| LuxUnitActions.VisitUnit | lux/actions.py:200-227 | one iteration of the pass loop: the trace, the occupied-set fold and the per-pass emission record move on from unit k to unit k + 1 |
| LuxUnitActions.MakeUnitActions | lux/actions.py:186-231 | every command comes from one event per unit, each justified by the unit and mission at the start, the order of its own pass and the occupied set at its moment; events are in visiting order and each move's occupied set is the fold `OccAfter` of the earlier moves; units visited without an event had nothing to do then; the final occupied set is `OccAfter` of the whole log; a pass emits a command exactly when it is not the last; movers get cooldown + 2 and arrivals lose their mission; at most one command per unit and at most #units + 1 passes; at the end no unit can do anything; when the starting occupied set covered every unit (`Tracked`), no two movers claim the same non-city tile and every claim is in the occupied set |
| LuxUnitActions.LoneUnitHeadsEast | lux/actions.py:234-268 | a lone worker at (0, 0) with target (3, 0) and shuffled order N, E, S, W is logged moving East, the only neighbour nearer to the target |
| LuxPlanning.SortDescending | lux/actions.py:73-76 | the tiles are reordered by descending cluster value, as a permutation, and the sort is stable: tiles with equal values keep their input order |
| LuxPlanning.InsertStable | lux/actions.py:73-76 | inserting a tile into a descending list puts it before the tiles with its value and keeps their order |
| LuxPlanning.DecideSound | lux/actions.py:78-113 | only a tile that can act acts, and only on itself; a build needs units_cnt < units_cap and a positive cluster value; before uranium every tile that can act acts, and at night it researches; with coal and uranium researched it only builds |
| LuxPlanning.DecideTile | lux/actions.py:79-113 | the loop body's chain of `continue`s gives the decision `Decide` |
| LuxPlanning.VisitCityTiles | lux/actions.py:78-115 | the loop with its running unit count gives `CityDecisions` over the tiles |
| LuxPlanning.MakeCityActions | lux/actions.py:43-115 | no actions without city tiles; otherwise the decisions over the sorted tiles, starting from the player's unit count, with a cap of one unit per city tile |
| LuxPlanning.DecisionsFromActingTiles | lux/actions.py:78-113 | every action belongs to a distinct input tile that can act |
| LuxPlanning.DecisionTilesIn | lux/actions.py:78-113 | every tile that acts is an input tile |
| LuxPlanning.BuildsWithinCap | lux/actions.py:60-105 | builds never take the unit count past the cap, nor past its start when that is already at or over the cap |
| LuxPlanning.EveryTileActsBeforeUranium | lux/actions.py:87-111 | before uranium the acting tiles are exactly the tiles that can act, in order, and none builds when night is under 6 turns away |
| LuxPlanning.OnlyBuildsWhenResearched | lux/actions.py:84-105 | with coal and uranium researched every action is a build |
| LuxPlanning.DecisionsKeepOrder | lux/actions.py:73-78 | tiles visited in descending value act in descending value |
| LuxPlanning.ActingCount | lux/actions.py:73-79 | sorting does not change how many tiles can act |
| LuxPlanning.CityActionsPerTile | lux/actions.py:66-115 | in a whole turn each city tile acts at most once and only when it can, and better-placed tiles act first |
| LuxPlanning.CityActionsCounts | lux/actions.py:51-115 | in a whole turn builds respect the cap; before uranium every tile that can act acts, and none builds at night; with coal and uranium researched every action is a build |
| LuxPlanning.PlanUnit | lux/actions.py:125-172 | one unit's branch chain leaves the store as `PlanFor` says and reports the no-build-site case |
| LuxPlanning.MakeUnitMissions | lux/actions.py:117-183 | plans every unit in order over the store, then cleans it up with the player's units and both city-tile sets; fails exactly when some unit meets the no-build-site case |
| LuxPlanning.PlanForSkips | lux/actions.py:126-131 | a unit that cannot act or is on its mission target gets nothing new; any new mission belongs to the unit and has delays 0 |
| LuxPlanning.ActionKinds | lux/actions.py:142-171 | the build-city command starts with "bcity"; the empty action and the stay-put move do not |
| LuxPlanning.PlanForBuildsCity | lux/actions.py:136-143 | a full unit with an empty tile nearer than turns_to_night − 5 gets a build-city mission to the nearest empty tile, the first in row-major order on ties, whatever mission it had |
| LuxPlanning.PlanForKeepsExisting | lux/actions.py:136-146 | an existing mission is replaced only by that build-city override |
| LuxPlanning.PlanForClusterTarget | lux/actions.py:145-172 | other missions go to units without a mission, off camping spots; a fresh unit gets no action, a starving unit a stay-put move; the target is a best-cluster candidate, or the unit's own tile when there is none |
| LuxPlanning.PlanForLocal | lux/actions.py:125-172 | a unit's plan depends on the store only through its own entry |
| LuxPlanning.PlannedUntouched | lux/actions.py:125-172 | planning leaves the entries of other ids untouched |
| LuxPlanning.PlannedPerUnit | lux/actions.py:125-172 | with distinct ids, each unit's final entry is what its own plan against the starting store made of it |
| LuxPlanning.PlannedFails | lux/actions.py:136-182 | planning fails exactly when some unit meets the no-build-site case |
| Preprocess.Split | imitation-learning/utils/preprocess.py:7 | `split(' ')` yields at least one piece, and no piece contains the separator |
| Preprocess.SplitJoin | imitation-learning/utils/preprocess.py:7 | splitting a join of separator-free words gives the words back |
| Preprocess.JoinSplit | imitation-learning/utils/preprocess.py:7 | joining the pieces of a split gives the string back |
| Preprocess.ToLabel | imitation-learning/utils/preprocess.py:6-15 | on success the unit id is the second token and the label is at most 4 |
| Preprocess.ToLabelCases | imitation-learning/utils/preprocess.py:6-15 | fails exactly on fewer than two tokens, or a move without a known direction letter (a KeyError when the letter is present); label 4 exactly for `bcity`; labels below 4 only for moves; no label for `m c` and other command words |
| Preprocess.MoveRoundTrip | imitation-learning/utils/preprocess.py:9-10 | parsing a unit's move command gives back the unit id and the direction's label (n 0, s 1, w 2, e 3, c none); distinct directions get distinct labels |
| Preprocess.BuildCityRoundTrip | imitation-learning/utils/preprocess.py:11-12 | parsing a build-city command gives back the unit id and label 4 |
| Preprocess.ResourceUpdateForm | imitation-learning/utils/preprocess.py:20 | an update's first token is `r` exactly when it is "r" or starts with "r " |
| Preprocess.DepletedResources | imitation-learning/utils/preprocess.py:18-22 | true exactly when no update's first token is `r` |

## Left out

- Message parsing (`Game._initialize`, `_update`, `_end_turn`, `_reset_player_states`): its results come in as the `Snapshot` and the `Game` fields. The classes it fills (`GameMap`, `Player`, `City`, `Unit`, `Position`) are in lux/game_map.py and lux/game_objects.py, which are not part of this model.
- Command strings: they follow the game's `m <id> <dir>` and `bcity <id>` formats, because lux/game_objects.py is not part of this model.
- Debug output: `pretty_print`, the DEBUG `print` closures, `__str__` of missions, and the `score_matrix_wrt_pos` matrix of `find_best_cluster`, which is only printed.
- Randomness: `random.shuffle` and `random.uniform` are parameters (`orders`, `freshMult`, `relocateMult`). The model does not constrain the multipliers to the source's ranges, since no contract depends on them.
- Floating point: `score * distance ** multiplier` is an abstract positive `Weight`, and the maxpool tie-break is exact real arithmetic.
- Carts: every unit is treated as a worker with capacity 100, because the cargo space of other unit types is defined in a file that is not part of this model.
- LuxMissions.Missions.Targets: returns a set of targets, not a list, so duplicates and order are not kept.
- LuxMissions.Mission: `delays` is set to 0 and never changed, as in the source, and no code reads it.
- LuxPlanning.MakeCityActions: returns `Research`/`BuildWorker` values naming the tile, not the `r x y`/`bw x y` strings of lux/game_objects.py, which is not part of this model.
- LuxPlanning.MakeUnitMissions: takes the no-build-site case to be a full unit, with no empty tile, on a map where width + height < turns_to_night − 5. There the source stores a mission without a target, and `cleanup` then fails on `tuple(None)`. The model returns `ok = false` and does not clean up.
- LuxPlanning.MakeUnitMissions: `units_by_id` is rebuilt from the unit list (`ById`, last unit wins), because lux/game_objects.py is not part of this model.
- Where the occupied set comes from: the code shown never builds it; it arrives from the caller and is only read and updated at lux/actions.py:250 and lux/actions.py:263-265. The model takes it as the `Game.occupied` field as it is at the start of `MakeUnitActions`. Annotations and visualisation live in agent.py, which is not part of this model.
- Resource amounts: `HasResource` follows the game kit's `has_resource`, which asks for a resource with an amount above 0. lux/game_map.py, where it is defined, is not part of this model.
- Game-state inputs of the search: `convolved_fuel_matrix` (lux/find_cluster.py:29 and lux/actions.py:165), `convolved_rate_matrix` (lux/actions.py:149), `turns_to_night` (lux/find_cluster.py:22 and lux/actions.py:87 and 139) and `turns_to_dawn` (lux/actions.py:254) are read but set by none of the code modelled here; `Game._update` (lux/game.py:107-176) fills in only the maxpool, city-tile and empty-tile matrices. The model takes the four as free `Snapshot` fields. Nothing links `fuelMatrix` and `rateMatrix`, which `FindBestCluster`, `ClusterKey` and `PlanFor` read, to the score, rate and maxpool matrices that `ResourceScoresAndRates` and `MaxpoolMatrix` compute.
- Cooldowns: the source parses unit cooldowns (lux/game.py:137) and city-tile cooldowns (lux/game.py:157) as floats. The model takes both as a `nat` (`Unit.cooldown`, `CityTile.cooldown`). The `cooldown < 1` tests of `CanAct` and `TileCanAct` and the `+ 2` of lux/actions.py:266 are kept, but a fractional cooldown between 0 and 1, which lets a unit or city tile act in the source, cannot be expressed.
- `create_dataset_from_json` and the training, model, loss, memory and observation code: file I/O and tensor numerics.

## Findings

| source | as written | input that shows it | evidently intended | confidence | as-written member | corrected member |
|---|---|---|---|---|---|---|
| lux/game.py:226-229 | the `if/else` sits inside the neighbour loop, so every neighbour visited before the first dominating one writes the own score; the comparison also reads `[x][y]` | 3x3 scores `[[0,5,0],[5,3,0],[0,0,0]]`, cell (1,1): east, south and the cell itself write 3 before the west neighbour 5 breaks the loop, so 3 is kept | keep the own score only if no in-bounds neighbour dominates the cell | high; not executed | LuxGame.MaxpoolCellAsWritten, LuxGame.MaxpoolAsWrittenKeepsDominatedCell | LuxGame.MaxpoolValue, LuxGame.MaxpoolMatrix |
| lux/game.py:181-182 (also 217-218, 236-237, 247-248) | `[[0 for _ in range(width) for _ in range(height)]]` is one row of width·height zeros | any map with width ≥ 1 and height ≥ 2: the write to row 1 is out of range | height rows of width zeros | high; not executed | LuxGame.ZeroMatrixAsWritten, LuxGame.ZeroMatrixAsWrittenHasOneRow | LuxGame.ZeroMatrix, LuxGame.CityTileMatrix |
| lux/game.py:52 | `unit.cargo == 0` compares a cargo record with the number 0, which is never true | worker `u_1` with empty cargo and mission action `bcity u_1`: the mission is kept | drop a build-city mission when the unit's total cargo is 0 | medium; not executed | LuxMissions.KeepsAsWritten, LuxMissions.AsWrittenKeepsEmptyBuilder | LuxMissions.Keeps, LuxMissions.Pruned, LuxMissions.Missions.Cleanup |
