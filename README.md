# Battle for Moscow — rules core in Dafny

A Dafny model of the rules logic of the Battle for Moscow hex-grid wargame client:

- **Hex geometry.**
  - The offset-column grid: even and odd columns step to their neighbours by different offsets, on a 14 × 10 map.
  - The four-digit hex id.
  - The conversion between hexes and map pixels.
- **Terrain map.**
  - The terrain table.
  - Marking the German and Soviet starting hexes with their side.
  - The load-time check that every river hexside is recorded on both of its hexes.
- **Combat.**
  - The odds pipeline: summed attack strength, floored ratio, one-level shifts for forest, Moscow, a Soviet-held fort and attackers all across a river, and the cap at 6:1.
  - The Combat Results Table.
  - The declared-battle state of a combat phase: declaring, withdrawing, cancelling and clearing battles, picking the pending attacker, and the defenders offered for it.
- **Unit selection for movement.** Which clicked unit may be selected in the current phase.
- **German setup.**
  - The panel of units still to place, kept in roster order.
  - Placement on the German start hexes, with the wrap-around choice of the next unit.
  - Pickup, which undoes a placement, and auto-placement.
  - Completion at 22 units, and the hand-over of the placement to the unit registry.

## Modules

| file | module | models |
|---|---|---|
| `wrappers.dfy` | `Wrappers` | `Option`, for the values the program writes as `null` |
| `hex_utils.dfy` | `HexUtils` | `modules/js/HexUtils.js` (pure functions) |
| `unit_data.dfy` | `UnitData` | the full-strength German roster of `modules/js/UnitData.js` |
| `map_data.dfy` | `MapData` | `modules/js/MapData.js`: the table as functions; the constructor and the validation as a class |
| `unit_manager.dfy` | `UnitManager` | `modules/js/UnitManager.js`, as a class over its three fields |
| `combat_manager.dfy` | `CombatManager` | `modules/js/CombatManager.js`: pure odds and table functions; the battle state as a class |
| `setup_manager.dfy` | `SetupManager` | `modules/js/SetupManager.js`, as a class over the setup state, the panel and the finish button |

Where the source changes objects in place, the model does too:

- **A view function.** Each class exposes its fields as one value: `CombatManager.State()` or `SetupManager.View()`.
- **Method contracts.** Each method's postcondition says the new value is a specification function of the old one. For example, `PlaceGermanUnit` ensures `View() == Place(old(View()), unit, hexId)`.
- **Invariants.** Each state-changing method that the game calls keeps its module's invariant (`MapData.MapData.Valid`, `CombatManager.Inv`, `SetupManager.Inv`). `UnitManager` has none beyond its types.
  Two helpers are used only inside another method and do not promise it alone:
  - `MapData.MapData.MarkStartingHexes` is a step of the constructor, which establishes `Valid`.
  - `SetupManager.SetupManager.AddUnitToPanel` is a step of `pickupGermanUnit`. It starts where the freed unit is available but not yet listed. `PickupGermanUnit` keeps the invariant.
- **Lemmas.** The properties of the specification functions are proved as lemmas on values.

Hex ids are `HexId(col, row)`. The four-character text form is `FormatId`/`ParseId`, which round-trip both ways.

## Model

| member | source | states |
|---|---|---|
| HexUtils.Opposite | modules/js/MapData.js:175-182 | the opposite hexside is a different side |
| HexUtils.OppositeInvolution | modules/js/MapData.js:175-182 | taking the opposite side twice gives back the side |
| HexUtils.StepBack | modules/js/HexUtils.js:44-57 | stepping across a side and back across its opposite side (using the offset table of the new column's parity) returns to the starting hex |
| HexUtils.OnMapOnly | modules/js/HexUtils.js:62-72 | the bounds filter keeps exactly the on-map candidates, no more of them than given, in their given order (a subsequence of the candidates), and keeps a list without repeats free of repeats |
| HexUtils.CandidatesDistinct | modules/js/HexUtils.js:44-58 | the six offsets of either parity lead to six different hexes |
| HexUtils.AdjacentHexes | modules/js/HexUtils.js:32-75 | at most 6 neighbours, all on the map, without repeats, in the order of the six candidate steps; a hex is listed iff it is on the map and one step away in some direction |
| HexUtils.SubsequenceOrder | modules/js/HexUtils.js:62-72 | a list kept by a filter that preserves order lists any two of its entries in the order the original list does |
| HexUtils.AdjacentHexesInDirectionOrder | modules/js/HexUtils.js:44-72 | for every hex, edge hexes included, any two listed neighbours appear in the order of their directions N, NE, SE, S, SW, NW |
| HexUtils.InteriorHexHasSixNeighbours | modules/js/HexUtils.js:36-72 | away from the edge the neighbours are the six steps in the order N, NE, SE, S, SW, NW |
| HexUtils.AdjacencySymmetric | modules/js/HexUtils.js:44-57 | for an on-map hex h, n is a neighbour of h iff n is on the map and h is a neighbour of n |
| HexUtils.TwoDigits | modules/js/HexUtils.js:69 | zero padding to two characters gives two digits |
| HexUtils.FormatId | modules/js/HexUtils.js:69 | the id of a hex has four characters |
| HexUtils.ParseId | modules/js/HexUtils.js:33-34 | parsing succeeds exactly on four-digit texts and yields a column and a row in 0..99 |
| HexUtils.ParseFormat | modules/js/HexUtils.js:69 | parsing the formatted id of a hex gives back the hex |
| HexUtils.FormatParse | modules/js/HexUtils.js:33-34 | formatting a parsed id gives back the text |
| HexUtils.RoundDiv | modules/js/HexUtils.js:116-122 | `Math.round(n / d)` as an integer r with r − ½ ≤ n/d < r + ½ |
| HexUtils.RoundDivUnique | modules/js/HexUtils.js:116-122 | the rounded quotient is the only integer within a half of n/d |
| HexUtils.UnitPixelOffsets | modules/js/HexUtils.js:82-99 | x = 38 + (col−1)·57 − 23 and y = 230 + (row−4)·65 + (33 in even columns) − 22 |
| HexUtils.PixelToHexId | modules/js/HexUtils.js:107-131 | null exactly when the nearest hex lies off the map; otherwise an on-map hex |
| HexUtils.PixelRoundTrip | modules/js/HexUtils.js:107-131 | for every on-map hex, converting its counter position back to a hex gives the hex |
| UnitData.FullRosterShape | modules/js/UnitData.js:10-62 | the German roster has 22 full-strength German units |
| UnitData.FullRosterDistinct | modules/js/UnitData.js:10-62 | no two full-strength German units share an id |
| MapData.HexRows | modules/js/MapData.js:13-154 | the terrain table has 140 entries |
| MapData.HexOrderCoversMap | modules/js/MapData.js:13-154 | the table's ids, column by column, are exactly the on-map hexes |
| MapData.EntryOrderCoversMap | modules/js/MapData.js:223 | `Object.entries` visits every on-map hex and only those, beginning with the integer-like keys (1001 first) and reaching 0101 after the 50 of columns 10 to 14 |
| MapData.KeyedSpec | modules/js/MapData.js:13-154 | every on-map hex has an entry holding its row's attributes, and no entry has a starting side before marking |
| MapData.StartHexesDisjoint | modules/js/MapData.js:10-11 | the starting hexes of both sides are on the map and no hex is a starting hex of both |
| MapData.WithSideSpec | modules/js/MapData.js:157-161 | marking keeps the set of hexes and changes only the starting side of the listed hexes that have an entry |
| MapData.StartingSides | modules/js/MapData.js:156-167 | after construction Soviet starting hexes are Soviet, the other German starting hexes German, and all other hexes have no side |
| MapData.AdjacentHexInDirection | modules/js/MapData.js:185-218 | null exactly when the step leaves the map; otherwise the step, which is among the neighbours the grid lists |
| MapData.AdjacentHexInDirectionAgrees | modules/js/MapData.js:185-218 | the neighbours found direction by direction are exactly the neighbours the grid lists |
| MapData.EdgeErrorIffUnmatched | modules/js/MapData.js:228-245 | a river entry yields an error iff its on-map neighbour is missing or lacks the opposite river; an error names the hex, the side and the neighbour |
| MapData.HexErrorsMembers | modules/js/MapData.js:226-246 | the errors for a hex are exactly the errors of its river entries |
| MapData.RiverErrorsMembers | modules/js/MapData.js:223-247 | the errors for the table are exactly the errors of all river entries of all hexes |
| MapData.RiverErrorsEmptyIffSymmetric | modules/js/MapData.js:223-253 | no error is reported iff every river hexside is recorded on both of its hexes |
| MapData.MapData.constructor | modules/js/MapData.js:8-168 | the table is loaded, then the German and then the Soviet starting hexes are marked; the validation will visit the entries in `Object.entries` order |
| MapData.MapData.MarkStartingHexes | modules/js/MapData.js:157-161 | one marking pass gives the table with the listed hexes marked |
| MapData.MapData.CheckHexRivers | modules/js/MapData.js:226-246 | the inner loop collects exactly the errors of the hex's river entries and counts them |
| MapData.MapData.ValidateRiverData | modules/js/MapData.js:174-254 | `checked` is the number of river entries; `errors` are the errors of all entries, hex by hex in `Object.entries` order; `valid` iff no error iff the rivers are symmetric; the table is not modified |
| UnitManager.AfterClick | modules/js/UnitManager.js:46-74 | an empty hex, a non-armor unit in phase 2, or a unit that already moved (outside phase 4) leaves the selection; otherwise the clicked unit and its hex are selected |
| UnitManager.AfterClickKeepsRegistryAgreement | modules/js/UnitManager.js:46-74 | a selection that names a registry unit at its hex still does after a click |
| UnitManager.AfterClickOnlySelectsMovable | modules/js/UnitManager.js:57-70 | a click that changes the selection selects the clicked registry unit, armor in phase 2, and unmoved unless in phase 4 |
| UnitManager.AfterClickIdempotent | modules/js/UnitManager.js:46-74 | clicking the same hex twice selects what one click selects |
| UnitManager.UnitManager.constructor | modules/js/UnitManager.js:8-15 | no selection, an empty registry and no moved units |
| UnitManager.UnitManager.SelectUnit | modules/js/UnitManager.js:82-102 | the new selection replaces any previous one; the registry and moved set are unchanged |
| UnitManager.UnitManager.OnUnitClick | modules/js/UnitManager.js:46-74 | the selection becomes `AfterClick` of the old one; the registry and the moved set are unchanged |
| CombatManager.IndexOf | modules/js/CombatManager.js:519-523 | `indexOf`: −1 iff absent, else the first position holding the value |
| CombatManager.NatToString | modules/js/CombatManager.js:132-133 | the decimal text of a number is a non-empty digit string that denotes the number (`DigitsValue`), with no leading zero except for 0 itself |
| CombatManager.OddsLevelsAreTexts | modules/js/CombatManager.js:24 | the k-th odds level is the text "k:1" and is found at index k−1 |
| CombatManager.ResolveCombat | modules/js/CombatManager.js:513-526 | a die roll outside 1..6 or an unknown odds level gives NE |
| CombatManager.ResolveAtOdds | modules/js/CombatManager.js:513-526 | a valid roll at k:1 reads row `dieRoll`, column k of the table |
| CombatManager.AttackerLossCell | modules/js/CombatManager.js:14-21 | the table's only AL cell is roll 6 at 1:1 |
| CombatManager.AttackerLossOnlyAtOneToOne | modules/js/CombatManager.js:14-21 | a resolution gives AL iff the roll is 6 and the odds are 1:1 |
| CombatManager.SixToOneHurtsDefender | modules/js/CombatManager.js:14-21 | at 6:1 every valid roll gives DRL or DE |
| CombatManager.ResolveCombatExamples | modules/js/CombatManager.js:513-526 | (3, 3:1) → DR, (6, 6:1) → DE, (1, 1:1) → DR, and a roll of 0 or the level 7:1 gives NE |
| CombatManager.GetCurrentCombatFaction | modules/js/CombatManager.js:255-257 | the Germans attack exactly in phase 3 |
| CombatManager.GetEnemyFaction | modules/js/CombatManager.js:300-302 | the defending side is never the attacking side |
| CombatManager.GetDirectionIff | modules/js/CombatManager.js:265-294 | the direction found from one hex to another is d iff the step across d leads there |
| CombatManager.GetDirectionNeighbours | modules/js/CombatManager.js:265-294 | a direction is found for an on-map hex iff it is a listed neighbour |
| CombatManager.IsAcrossRiverSymmetric | modules/js/CombatManager.js:310-318 | on a table with symmetric rivers, a river between two hexes is seen from both |
| CombatManager.AllAcrossRiverAdjacent | modules/js/CombatManager.js:39-49 | attackers all across a river from the defender are all its neighbours |
| CombatManager.AreAllAttackersAcrossRiver | modules/js/CombatManager.js:39-49 | true iff the list is non-empty and every attacker's hex lists a river on the side facing the defender |
| CombatManager.Modifiers | modules/js/CombatManager.js:81-109 | the forest, Moscow, fortification (Soviet defender only) and river modifiers each apply exactly under their condition, listed in that order |
| CombatManager.ModifiedRatio | modules/js/CombatManager.js:112-121 | the shifted ratio capped at 6 from above and not bounded below |
| CombatManager.OddsLevel | modules/js/CombatManager.js:123-127 | a level exists iff the capped ratio k is at least 1, and it is the k-th odds level |
| CombatManager.OddsFor | modules/js/CombatManager.js:77-137 | the shift is minus the number of modifiers; the odds level is that of the capped, shifted, floored ratio |
| CombatManager.OddsForTexts | modules/js/CombatManager.js:129-137 | the base odds read "a:1"; the modified odds read "Below 1:1" iff the capped ratio is below 1, and otherwise equal the odds level |
| CombatManager.ModifiersOnlyLower | modules/js/CombatManager.js:112-127 | modifiers never raise the ratio; an attack weaker than the defence has no odds level |
| CombatManager.OddsExamples | modules/js/CombatManager.js:57-138 | 12 against 6 is 2:1, 1:1 in a forest, below 1:1 with forest, Moscow and river; 5 against 6 is below 1:1; 40 against 4 has base odds 10:1 capped at 6:1 |
| CombatManager.AttackStrengthAppend | modules/js/CombatManager.js:65-72 | the strength of two groups of attackers is the sum of their strengths |
| CombatManager.CalculateOdds | modules/js/CombatManager.js:57-138 | null iff the defender hex holds no unit; otherwise the odds of the registry strengths (missing attackers count 0) under the modifiers of the defender's hex |
| CombatManager.FindBattle | modules/js/CombatManager.js:354 | −1 iff no battle is against the hex, else the first battle against it |
| CombatManager.BattleWith | modules/js/CombatManager.js:418-427 | −1 iff the hex attacks in no battle, else the first battle it attacks in |
| CombatManager.EmptyStateInv | modules/js/CombatManager.js:26-30 | the initial combat state satisfies the invariant |
| CombatManager.AddAttackerFacts | modules/js/CombatManager.js:356-358 | adding a fresh adjacent attacker to a battle keeps the battles distinct and adds exactly that attacker |
| CombatManager.NewBattleFacts | modules/js/CombatManager.js:360-366 | opening a battle keeps the battles distinct and adds exactly its defender and attacker |
| CombatManager.RemoveBattleFacts | modules/js/CombatManager.js:150-161 | dropping a battle keeps the rest distinct and releases exactly its defender and attackers |
| CombatManager.RemoveAttackerFacts | modules/js/CombatManager.js:489-493 | taking an attacker out of a battle keeps the battles distinct and releases exactly that attacker |
| CombatManager.InvDeclare | modules/js/CombatManager.js:324-378 | declaring an attack keeps the invariant |
| CombatManager.CancelKeeps | modules/js/CombatManager.js:144-167 | cancelling keeps the battles distinct and the sets matching |
| CombatManager.InvCancel | modules/js/CombatManager.js:144-167 | cancelling keeps the invariant |
| CombatManager.InvWithdraw | modules/js/CombatManager.js:475-505 | withdrawing an attacker keeps the invariant |
| CombatManager.InvUnitClick | modules/js/CombatManager.js:393-468 | a combat click on a unit keeps the invariant |
| CombatManager.DeclareEffect | modules/js/CombatManager.js:353-378 | a declaration commits the attacker and the defender, clears the pending attacker, adds a battle only for a new defender, and the attacker then attacks that defender |
| CombatManager.DeclareThenWithdraw | modules/js/CombatManager.js:475-499 | withdrawing the only attacker of a newly opened battle restores the state before the declaration, without a pending attacker |
| CombatManager.WithdrawEffect | modules/js/CombatManager.js:475-505 | a withdrawal releases the attacker; a battle left empty is removed from the list and its defender released; otherwise every other battle and the attacked set stay, and the edited battle keeps its defender and loses exactly that attacker (as a multiset) |
| CombatManager.HasAdjacentEnemies | modules/js/CombatManager.js:431-442 | true iff some neighbour holds a unit of the defending side |
| CombatManager.CombatManager.constructor | modules/js/CombatManager.js:26-30 | no battles, no pending attacker, empty sets |
| CombatManager.CombatManager.CancelBattle | modules/js/CombatManager.js:144-167 | the state becomes `Cancel` of the old one (an invalid index changes nothing); the invariant is kept |
| CombatManager.CombatManager.ClearBattles | modules/js/CombatManager.js:198-202 | all four fields are emptied |
| CombatManager.CombatManager.RemoveAttackerFromBattle | modules/js/CombatManager.js:475-505 | the state becomes `Withdraw` of the old one (an invalid index or absent attacker changes nothing); the invariant is kept |
| CombatManager.CombatManager.OnDefenderClick | modules/js/CombatManager.js:324-387 | the state becomes `Declare` of the old one (no pending attacker or a non-adjacent defender changes nothing); the invariant is kept |
| CombatManager.CombatManager.OnUnitClick | modules/js/CombatManager.js:393-468 | the state becomes `UnitClick` of the old one (deselect, withdraw, or pick as pending attacker); the invariant is kept |
| CombatManager.CombatManager.PotentialDefenders | modules/js/CombatManager.js:876-889 | no defenders without a pending attacker; otherwise exactly its neighbours holding an enemy unit not yet attacked |
| SetupManager.IndexOfId | modules/js/SetupManager.js:348 | `findIndex` by id: −1 or a position holding that id |
| SetupManager.IndexOfIdFirst | modules/js/SetupManager.js:348 | the position found is the first with the id, and −1 means no unit has it |
| SetupManager.IndexOfIdDistinct | modules/js/SetupManager.js:40 | in a roster without repeated ids each unit is found at its own position |
| SetupManager.IdsOfCount | modules/js/SetupManager.js:388 | a roster without repeated ids has as many ids as units |
| SetupManager.IdSeq | modules/js/SetupManager.js:391-414 | the panel entries are the roster's ids, one per unit, in roster order |
| SetupManager.AvailableUnits | modules/js/SetupManager.js:85-87 | exactly the roster units whose id is available, without repeated ids |
| SetupManager.FreeHexes | modules/js/SetupManager.js:90-92 | exactly the start hexes not occupied, without repeats |
| SetupManager.GermanStartHexesDistinct | modules/js/MapData.js:11 | no German start hex is listed twice |
| SetupManager.FirstAvailable | modules/js/SetupManager.js:352-358 | the first available roster position in a range, or −1 when none is |
| SetupManager.NextIndex | modules/js/SetupManager.js:344-368 | the next selection is an available unit other than the placed one, the nearest after it with wrap-around; −1 iff no other unit is available |
| SetupManager.InsertPos | modules/js/SetupManager.js:61-69 | the insert position follows every entry of lower or equal rank and precedes the first of higher rank |
| SetupManager.InsertPosAt | modules/js/SetupManager.js:61-69 | a position after every lower rank and before a higher one is the insert position |
| SetupManager.PanelIndex | modules/js/SetupManager.js:340-341 | −1 iff the id is not listed, else its first position |
| SetupManager.RemoveFirst | modules/js/SetupManager.js:340-341 | removal shortens the panel by one iff the id is listed |
| SetupManager.RemoveTakesOne | modules/js/SetupManager.js:340-341 | removal takes away one occurrence of the id and nothing else |
| SetupManager.InsertKeepsOrder | modules/js/SetupManager.js:58-72 | inserting an id of a rank no entry has keeps the panel in strictly increasing roster order |
| SetupManager.InsertAddsId | modules/js/SetupManager.js:58-72 | insertion adds exactly the new id |
| SetupManager.RemoveKeepsOrder | modules/js/SetupManager.js:340-341 | removal keeps the panel in roster order |
| SetupManager.RemoveDropsId | modules/js/SetupManager.js:340-341 | removing from a sorted panel drops that id and keeps every other |
| SetupManager.InsertThenRemove | modules/js/SetupManager.js:58-72 | inserting an absent id and removing it gives back the panel |
| SetupManager.RemoveThenInsert | modules/js/SetupManager.js:58-72 | removing a listed id from a sorted panel and inserting it again gives back the panel |
| SetupManager.RosterRankInjective | modules/js/SetupManager.js:63 | two ids of the same roster index are the same id |
| SetupManager.NextSelection | modules/js/SetupManager.js:344-368 | the unit selected after a placement is an available roster unit, or none |
| SetupManager.Place | modules/js/SetupManager.js:305-376 | placement keeps the roster and the start hexes and leaves a setup state |
| SetupManager.PlaceEffect | modules/js/SetupManager.js:336-337 | placement puts the unit on the hex and removes its id from the available set |
| SetupManager.AddToPanel | modules/js/SetupManager.js:37-81 | adding to the panel leaves a setup state |
| SetupManager.Pickup | modules/js/SetupManager.js:258-303 | no change once setup is over or on an unoccupied hex; setup stays on or off |
| SetupManager.PickupEffect | modules/js/SetupManager.js:258-303 | a pickup clears the hex, makes the id available, inserts it into the panel in roster order and hides the finish button |
| SetupManager.MapClick | modules/js/SetupManager.js:215-245 | no change without setup state, without selection, off the map, off the German start hexes, or on an occupied hex; otherwise the selected unit is placed on the clicked hex |
| SetupManager.PlaceAll | modules/js/SetupManager.js:95-99 | placing in turn keeps the roster and the start hexes |
| SetupManager.AutoPlace | modules/js/SetupManager.js:83-100 | auto-placement leaves a setup state |
| SetupManager.InvInitial | modules/js/SetupManager.js:8-18 | the game's own roster and start hexes satisfy the setup invariant |
| SetupManager.RosterUnitRanked | modules/js/SetupManager.js:40 | a roster unit has a roster index |
| SetupManager.CompleteIffNoneAvailable | modules/js/SetupManager.js:102-104 | setup is complete (22 placed) iff no unit is left to place |
| SetupManager.RosterPanelSorted | modules/js/SetupManager.js:391-414 | the roster's ids in roster order are sorted by roster index and list its id set |
| SetupManager.InvPopulate | modules/js/SetupManager.js:378-420 | populating the panel establishes the invariant |
| SetupManager.PlaceKeepsPlacements | modules/js/SetupManager.js:336-337 | an available roster unit on a free start hex keeps placements on start hexes, ids unique, and placed plus available at 22 |
| SetupManager.InvPlace | modules/js/SetupManager.js:305-376 | such a placement keeps the invariant |
| SetupManager.PickupKeepsPlacements | modules/js/SetupManager.js:275-276 | a pickup keeps placements on start hexes, ids unique, and placed plus available at 22 |
| SetupManager.InsertKeepsPanelInv | modules/js/SetupManager.js:58-72 | inserting an id that was not available keeps the panel sorted and listing exactly the available ids |
| SetupManager.PickupPanel | modules/js/SetupManager.js:275-279 | after a pickup the panel lists exactly the available ids, in roster order |
| SetupManager.InvPickup | modules/js/SetupManager.js:258-303 | a pickup keeps the invariant |
| SetupManager.InvMapClick | modules/js/SetupManager.js:215-245 | a map click keeps the invariant |
| SetupManager.IdsOfSnoc | modules/js/SetupManager.js:388 | the ids of a roster are those of all but its last unit plus the last one's |
| SetupManager.PlaceAllAvailable | modules/js/SetupManager.js:95-99 | placing in turn removes exactly the placed ids from the available set |
| SetupManager.PlaceAllPlaced | modules/js/SetupManager.js:95-99 | placing in turn occupies exactly the old hexes plus the listed ones and leaves unlisted hexes as they were |
| SetupManager.PlaceAllPuts | modules/js/SetupManager.js:95-99 | with no hex listed twice, each listed hex ends up holding its unit |
| SetupManager.PlaceAllNextAllowed | modules/js/SetupManager.js:95-99 | after the first placements of a batch the next one is still of an available unit on a free start hex |
| SetupManager.InvPlaceAll | modules/js/SetupManager.js:95-99 | placing distinct available roster units on distinct free start hexes keeps the invariant |
| SetupManager.InvAutoPlace | modules/js/SetupManager.js:83-100 | auto-placement keeps the invariant |
| SetupManager.AutoPlacePairs | modules/js/SetupManager.js:83-100 | the i-th available unit in roster order lands on the i-th free start hex for as many pairs as exist; other hexes keep their units; exactly the placed ids stop being available |
| SetupManager.PlaceThenPickup | modules/js/SetupManager.js:258-276 | picking up a unit just placed restores the placements, the available ids, the panel and the button |
| SetupManager.PickupThenPlace | modules/js/SetupManager.js:305-341 | placing a unit back where it was picked up restores the placements, the available ids and the panel |
| SetupManager.SelectInPanel | modules/js/SetupManager.js:247-256 | the clicked unit becomes the selection and nothing else changes |
| SetupManager.InvSelectInPanel | modules/js/SetupManager.js:247-256 | selecting a unit listed in the panel keeps the invariant |
| SetupManager.Finish | modules/js/SetupManager.js:160-165 | the setup state is cleared and the panel and its button are gone |
| SetupManager.InvFinish | modules/js/SetupManager.js:160-165 | finishing keeps the invariant |
| SetupManager.PlacedIdsCount | modules/js/SetupManager.js:104 | placements with distinct ids have as many ids as placements |
| SetupManager.CompleteSetupPlacesRoster | modules/js/SetupManager.js:102-104 | once 22 units are placed every roster unit stands on some hex |
| SetupManager.FinishedRegistryHoldsRoster | modules/js/SetupManager.js:149-150 | after a complete setup is copied into the registry every roster unit stands in the registry |
| SetupManager.SetupManager.constructor | modules/js/SetupManager.js:8-18 | no setup state, an empty panel, no button; the invariant holds |
| SetupManager.SetupManager.OnSetupUnitClick | modules/js/SetupManager.js:247-256 | the view becomes `SelectInPanel` of the old one; selecting a listed roster unit keeps the invariant |
| SetupManager.SetupManager.PopulateGermanUnitPanel | modules/js/SetupManager.js:378-420 | the view becomes `Populate` of the old one: nothing placed, every roster id available, the roster's ids appended to the panel in roster order, the first unit selected; from no setup state the invariant then holds |
| SetupManager.SetupManager.CheckGermanSetupComplete | modules/js/SetupManager.js:102-119 | the button shows iff it showed or 22 units are placed; nothing else changes; the invariant is kept |
| SetupManager.SetupManager.FindNextUnit | modules/js/SetupManager.js:344-368 | the two search loops return `NextIndex` |
| SetupManager.SetupManager.PlaceGermanUnit | modules/js/SetupManager.js:305-376 | the view becomes `Place` of the old one; an allowed placement keeps the invariant |
| SetupManager.SetupManager.AddUnitToPanel | modules/js/SetupManager.js:37-81 | the view becomes `AddToPanel` of the old one: the id is inserted in roster order and selected when it is the only unit left |
| SetupManager.SetupManager.PickupGermanUnit | modules/js/SetupManager.js:258-303 | the view becomes `Pickup` of the old one; the invariant is kept |
| SetupManager.SetupManager.OnMapClick | modules/js/SetupManager.js:215-245 | the view becomes `MapClick` of the old one; the invariant is kept |
| SetupManager.SetupManager.AutoPlaceGermanUnits | modules/js/SetupManager.js:83-100 | the view becomes `AutoPlace` of the old one; the invariant is kept |
| SetupManager.SetupManager.FinishGermanSetup | modules/js/SetupManager.js:145-189 | the registry gains every placed (hex, unit); the selection and moved set are unchanged; the view becomes `Finish` of the old one |

## Left out

- DOM work is not modelled: unit and panel elements, outlines, odds badges, battle markers, the battle list panel, panel positioning, highlights and event listeners (including the `finishSetupHandlerAdded` flag). The panel is modelled as the list of ids it shows; removing the setup panel on finish is modelled as an empty list with the button hidden.
- `setTimeout` deferrals are treated as immediate. Console logging is left out.
- The attacker nudge in the battle display uses floating-point `Math.sqrt` and is not modelled.
- `Math.round` is modelled on integer pixels only, as round-half-up (`RoundDiv`). Map pixels are integers relative to the map, so the subtraction of the map's bounding rectangle in `onMapClick` is outside the model.
- The current phase belongs to the phase manager. It is a parameter here (`phase`, 1..8).
- `modules/js/PhaseManager.js`, `modules/js/Game.js` and the server side are not part of this model. This covers the phase panels shown at the end of `finishGermanSetup` and the call to `enableUnitSelection`.
- Movement range, zones of control and move undo are stubs in the source and are not modelled: `showMovementRange` and `clearMovementRange`. The `moveHistory` field is never read in the core, so it is left out too.
- These combat methods only draw or attach handlers, so they are not modelled: `enableCombatSelection`, `clearAllCombatHighlights`, `showDeclaredBattles`, `showOddsBadge`, `updateBattleListPanel` and `updateCombatUI`.
- The drawing loops of `updateOddsBadges` and `showAdjacentDefenderOdds` are not modelled. What they compute is: `PotentialDefenders` gives the defender filter and `CalculateOdds` the odds they show.
- `confirmCancelAllBattles` asks the browser for confirmation and then calls `clearBattles`. The dialog is I/O, so only `ClearBattles` is modelled.
- These setup methods only build, position or remove DOM elements, so they are not modelled: `setupGermanUnits`, `highlightGermanStartingHexes`, `clearGermanStartingHexHighlights`, `closeGermanSetupPanel`, `positionPanelNextToMap` and `setupSovietStartingUnits`.
- `UnitManager.enableUnitSelection` only attaches click handlers and is not modelled.
- Only the full-strength German units of the roster are modelled, in roster order with their faction; setup reads no others. Sprite offsets, reduced sides and the Soviet roster are left out.
- `CombatManager.CalculateOdds` requires, when the defender hex holds a unit, a positive defender strength and a terrain entry for that hex. The source divides by the strength, and every unit in the roster has positive strength. It also reads the terrain of the defender's hex (modules/js/CombatManager.js:85-88) and would throw for a hex with no entry; every hex a unit can stand on has one.
- `SetupManager.SetupManager.OnSetupUnitClick`, `PlaceGermanUnit`, `AddUnitToPanel`, `CheckGermanSetupComplete`, `AutoPlaceGermanUnits` and `FinishGermanSetup` require a setup state. The source reads `germanSetupState` without a null check in these and would throw without one.
- `SetupManager.SetupManager.FinishGermanSetup` copies the placements into the registry one at a time. The source walks the Map in insertion order; the model's loop takes the hexes in an arbitrary order. Either gives the same registry, because every copy writes a different hex.
- `CombatManager.ResolveCombat` returns `'NE'` for a die roll outside 1..6 or an unknown odds level (modules/js/CombatManager.js:514-523) instead of failing, and the model does the same.
- Hex ids are held as `(col, row)` pairs. The text form is modelled by `FormatId`/`ParseId`; `parseInt` on malformed text is outside the model.
- `CombatManager.GetEnemyFaction` and `GetCurrentCombatFaction` take the phase number; any phase other than 3 counts as a Soviet combat phase, as in the source.
- `MapData.MapData.ValidateRiverData` reports errors as values (`MissingNeighbour`, `MissingReciprocal`) carrying what the source's two message texts print, not as formatted strings. An asymmetric river only makes the result `valid = false` with the errors listed, and the model does the same.
- `CombatManager.ModifiedRatio`: a comment in `calculateOdds` says the ratio cannot go below 0:1, but the code only caps it at 6:1. The model follows the code and applies no lower bound.
