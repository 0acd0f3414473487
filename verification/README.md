# RoamersPlus sapling, pity and recovery logic in Dafny

RoamersPlus is a Minecraft (NeoForge) add-on for the "Roamers" NPC mod. It
helps the roamers keep their settlement supplied with wood. When a roamer
spawns, it is given the saplings of its race. It scatters those saplings
around its camp, alternating between species, and bone-meals them. Every
few seconds it plants saplings from its inventory near its home and queues
them for bone meal. It drains that queue a few positions at a time. It
rotates its sapling stacks so that every species gets used. It replants
after chopping a log. It gets a "pity" grant of an item it has needed for
too long, a navigation nudge when it stands still, and help finding a spot
for a crafting table.

This project models that logic as pure functions over immutable data and
proves what the code promises:

- The world is a total function `Pos -> Block`. A placement returns a new
  world built with `SetBlock`.
- An inventory is a `seq<Stack>`. An item's total is `CountOf`.
- The mod's per-entity side tables are `map`s from `EntityId`.
- A Java `null` is `Option.None`.

The modules follow the source files:

| module | file | models |
|---|---|---|
| `Base` | base.dfy | items, stacks, blocks, positions, the world, the block tags the code tests |
| `PitySystem` | pity.dfy | `PitySystem.java` |
| `SaplingHelper` | saplinghelper.dfy | `SaplingHelper.java` |
| `Placement` | placement.dfy | `SaplingPlacementHelper.java`: spot validity, column search, replanting, bone meal from the inventory |
| `Scatter` | scatter.dfy | `SaplingPlacementHelper.java`: scatter positions and the alternating placement loop |
| `Alternating` | alternating.dfy | `SaplingPlacementHelper.java`: the whole `scatterSaplingsAlternating` call, with its bone-meal pass |
| `Inventory` | inventory.dfy | the inventory helpers of `RoamerEventHandler.java` (add, rotate, snapshot) |
| `RoamerEvents` | events.dfy | the rest of `RoamerEventHandler.java` (below) |

`RoamerEvents` covers:

- the alternation index;
- stuck detection;
- the crafting-table search;
- the bone-meal queue;
- the spacing test;
- periodic planting.

Four things the code takes from outside become parameters:

- **Randomness.** The shuffle of scatter positions is an index permutation
  `perm`. The fifteen random offsets of periodic planting are a sequence
  `draws`.
- **Tree growth.** A bone meal application may or may not grow the tree.
  This is the set `grows` of the application indices, counted within one
  call, at which the sapling grows. A grown sapling becomes its species'
  log block, `Grown`.
- **The clock.** The pity timer reads the clock; it is the parameter `now`.
- **Reflection results.** The Roamers mod is read by reflection for the
  home position, the "working" flag and the tree-check range. These become
  parameters.

## Model

| member | source | states |
|---|---|---|
| PitySystem.TrackIdleRoamer | src/main/java/com/example/roamersplus/util/PitySystem.java:55-99 | null entity or item changes nothing; otherwise the roamer becomes tracked, others untouched; a first or different need restarts the wait at `now` with no grant; a grant of 16 of the needed item happens exactly when the same need is ungranted and at least 120000 ms old, and then the roamer is marked served, keeping its item and idle start; without a grant a repeated need leaves the tracker as it was |
| PitySystem.ClearIdleState | src/main/java/com/example/roamersplus/util/PitySystem.java:107-111 | removes exactly the given roamer; every other entry keeps its state; null is a no-op |
| PitySystem.GetIdleTime | src/main/java/com/example/roamersplus/util/PitySystem.java:127-133 | -1 for an untracked or null roamer, otherwise the time since its idle start (start + result = now) |
| PitySystem.Cleanup | src/main/java/com/example/roamersplus/util/PitySystem.java:116-119 | afterwards no roamer is tracked and every idle-time query answers -1 |
| PitySystem.TrackedCount | src/main/java/com/example/roamersplus/util/PitySystem.java:138-140 | the number of tracked roamers; zero exactly when every roamer is untracked |
| PitySystem.ClearedIsUntracked | src/main/java/com/example/roamersplus/util/PitySystem.java:107-133 | clearing then querying a roamer reports it untracked (-1, phase Untracked) |
| PitySystem.GrantIffIdleLongEnough | src/main/java/com/example/roamersplus/util/PitySystem.java:78-96 | for a waiting roamer, tracking grants if and only if the idle time reported by getIdleTime has reached the timeout |
| PitySystem.AtMostOneGrant | src/main/java/com/example/roamersplus/util/PitySystem.java:78-96 | any sequence of calls for the same roamer and item grants at most once, and never once already served |
| PitySystem.GrantAfterTimeout | src/main/java/com/example/roamersplus/util/PitySystem.java:61-96 | a new roamer tracked at t0 then t1 is granted 16 items exactly when t1 - t0 reaches the timeout |
| SaplingHelper.ToUpperIdempotent | src/main/java/com/example/roamersplus/util/SaplingHelper.java:51 | upper-casing the race name twice equals upper-casing once |
| SaplingHelper.GetSaplingsForRace | src/main/java/com/example/roamersplus/util/SaplingHelper.java:50-52 | the table entry of the upper-cased name, or the empty list for an unknown race; every entry is a sapling |
| SaplingHelper.GetSaplingCount | src/main/java/com/example/roamersplus/util/SaplingHelper.java:58-60 | the starter amount is the constant 8 |
| SaplingHelper.RaceUsesWood | src/main/java/com/example/roamersplus/util/SaplingHelper.java:67-70 | a race uses wood exactly when its sapling list is non-empty |
| SaplingHelper.UsesWoodIffSaplings | src/main/java/com/example/roamersplus/util/SaplingHelper.java:67-70 | a race uses wood if and only if it has at least one sapling type |
| SaplingHelper.CaseInsensitive | src/main/java/com/example/roamersplus/util/SaplingHelper.java:50-70 | both lookups give the same answer for a name and its upper-cased form |
| SaplingHelper.RaceTable | src/main/java/com/example/roamersplus/util/SaplingHelper.java:17-43 | the concrete per-race lists (plains oak+birch, taiga spruce, jungle jungle+oak, savanna acacia+oak, cherry; desert, badlands and the table's "ARTIC" empty; lower-case names work) |
| SaplingHelper.ArcticSpelling | src/main/java/com/example/roamersplus/util/SaplingHelper.java:40-43 | the correctly spelt "ARCTIC" is not a key: it has no saplings and does not use wood (see Left out) |
| SaplingHelper.SaplingRaces | src/main/java/com/example/roamersplus/util/SaplingHelper.java:17-43 | only the five forest races have saplings, and no race lists a type twice |
| Placement.GroundIsDirtTag | src/main/java/com/example/roamersplus/util/SaplingPlacementHelper.java:262-271 | the ground accepted below a sapling is exactly the dirt block tag |
| Placement.IsValidSaplingSpot | src/main/java/com/example/roamersplus/util/SaplingPlacementHelper.java:246-272 | a spot is valid exactly when it is air or replaceable, air is above it, and the block below is in the dirt tag (the listed ground blocks add nothing to the tag) |
| Placement.SpotReadsOwnColumn | src/main/java/com/example/roamersplus/util/SaplingPlacementHelper.java:246-272 | spot validity depends only on the blocks of the spot's own column |
| Placement.FindFrom | src/main/java/com/example/roamersplus/util/SaplingPlacementHelper.java:233-239 | the lowest valid spot of the column from height y upward to base+5, or none exactly when none is valid |
| Placement.FindValidSaplingPosition | src/main/java/com/example/roamersplus/util/SaplingPlacementHelper.java:231-240 | the lowest valid spot in the column from base-5 to base+5; none exactly when no height in that range is valid |
| Placement.FindReadsOwnColumn | src/main/java/com/example/roamersplus/util/SaplingPlacementHelper.java:231-240 | worlds that agree on the base column give the same search result |
| Placement.SaplingForLog | src/main/java/com/example/roamersplus/util/SaplingPlacementHelper.java:323-358 | a sapling exactly for log/wood blocks, and of the log's species |
| Placement.NoSaplingForOtherBlocks | src/main/java/com/example/roamersplus/util/SaplingPlacementHelper.java:323-358 | other blocks, sapling blocks and crafting tables map to no sapling |
| Placement.SaplingForLogRoundTrip | src/main/java/com/example/roamersplus/util/SaplingPlacementHelper.java:323-358 | the tree grown from a log's sapling maps back to that same sapling |
| Placement.RaceSaplingsHaveLogs | src/main/java/com/example/roamersplus/util/SaplingPlacementHelper.java:323-358 | every sapling a race is given is the sapling of its own species' log, so replanting can restock it |
| Placement.NeighbourFinds | src/main/java/com/example/roamersplus/util/SaplingPlacementHelper.java:300-312 | one column search per neighbour of the stump, in the code's order |
| Placement.NeighbourSpotNear | src/main/java/com/example/roamersplus/util/SaplingPlacementHelper.java:300-312 | the neighbour search finds a valid spot near the stump, and finds none exactly when no spot near the stump is valid |
| Placement.ReplantAtStump | src/main/java/com/example/roamersplus/util/SaplingPlacementHelper.java:282-315 | nothing on the client or without a sapling; the stump is used when valid; otherwise a valid neighbouring spot; it fails exactly when the stump and all neighbours are invalid; only the planted block changes |
| Placement.TakeBonemeal | src/main/java/com/example/roamersplus/util/SaplingPlacementHelper.java:384-397 | removes exactly one bone meal from the inventory |
| Placement.TakeBonemealFrame | src/main/java/com/example/roamersplus/util/SaplingPlacementHelper.java:384-397 | only bone meal slots change, and every other item's total is unchanged |
| Placement.FeedTakesBonemeal | src/main/java/com/example/roamersplus/util/SaplingPlacementHelper.java:378-398 | the bone meal loop only takes bone meal out of the inventory |
| Placement.Feed | src/main/java/com/example/roamersplus/util/SaplingPlacementHelper.java:378-398 | the bone meal loop uses at most its allowed attempts and keeps the number of slots |
| Placement.FeedAccounting | src/main/java/com/example/roamersplus/util/SaplingPlacementHelper.java:378-398 | bone meal left + used = bone meal before, other items unchanged; it stops early only when the block is no longer a sapling or the bone meal is gone |
| Placement.FeedUsesAll | src/main/java/com/example/roamersplus/util/SaplingPlacementHelper.java:378-398 | with enough bone meal and no growth, all allowed uses are spent |
| Placement.BonemealSaplingFromInventory | src/main/java/com/example/roamersplus/util/SaplingPlacementHelper.java:367-400 | a no-op on the client, without an inventory, for a non-positive limit or a non-sapling; otherwise uses at most the limit, accounts every bone meal, touches only bone meal and the one block, and stops early only on growth or an empty supply |
| Inventory.CountOfPositive | src/main/java/com/example/roamersplus/util/SaplingPlacementHelper.java:402-408 | an item's total is positive exactly when some non-empty slot holds it |
| Inventory.FirstBonemealSlot | src/main/java/com/example/roamersplus/util/SaplingPlacementHelper.java:402-408 | the first slot holding bone meal, or -1 exactly when none does |
| Inventory.NoBonemealSlot | src/main/java/com/example/roamersplus/util/SaplingPlacementHelper.java:402-408 | -1 is returned exactly when the inventory holds no bone meal |
| Inventory.ShrinkSlot | src/main/java/com/example/roamersplus/util/SaplingPlacementHelper.java:393-396 | one item fewer in that slot (emptied at zero), every other slot and item total unchanged |
| Inventory.AddFrom | src/main/java/com/example/roamersplus/event/RoamerEventHandler.java:175-188 | only slots that were empty or held the same item change, never above the stack limit; if items remain, every slot from the start is full or foreign |
| Inventory.AddFromCount | src/main/java/com/example/roamersplus/event/RoamerEventHandler.java:175-188 | items are conserved: the added count plus what remains equals the stack |
| Inventory.AddToInventory | src/main/java/com/example/roamersplus/event/RoamerEventHandler.java:170-189 | no inventory or an empty stack changes nothing; otherwise the item's total grows by exactly what was placed, others unchanged; success means the whole stack fit, and failure means no slot had room |
| Inventory.Rotate | src/main/java/com/example/roamersplus/event/RoamerEventHandler.java:549-578 | the sapling stacks, read in slot order, rotate left by one; with fewer than two nothing changes; other slots stay put; the inventory is a permutation of itself |
| Inventory.FillShape | src/main/java/com/example/roamersplus/event/RoamerEventHandler.java:570-577 | writing sapling stacks back into the sapling slots reads back the written list, and the sapling slots stay the same slots |
| Inventory.FillMultiset | src/main/java/com/example/roamersplus/event/RoamerEventHandler.java:570-577 | writing back swaps the old sapling stacks for the new ones as multisets |
| Inventory.FillCount | src/main/java/com/example/roamersplus/event/RoamerEventHandler.java:570-577 | writing back exchanges the old sapling totals for the new, per item |
| Inventory.FillOwn | src/main/java/com/example/roamersplus/event/RoamerEventHandler.java:570-577 | writing the inventory's own sapling stacks back is the identity |
| Inventory.FillTwice | src/main/java/com/example/roamersplus/event/RoamerEventHandler.java:570-577 | the second write-back wins |
| Inventory.RotateFilled | src/main/java/com/example/roamersplus/event/RoamerEventHandler.java:549-578 | rotating a filled inventory is filling it with the rotated list |
| Inventory.RotateNIsFill | src/main/java/com/example/roamersplus/event/RoamerEventHandler.java:549-578 | k rotations write the sapling list rotated left by k |
| Inventory.RotationFront | src/main/java/com/example/roamersplus/event/RoamerEventHandler.java:549-578 | after k rotations the k-th sapling stack is first, so every type takes a turn at the front |
| Inventory.RotationCycles | src/main/java/com/example/roamersplus/event/RoamerEventHandler.java:549-578 | as many rotations as sapling stacks restore the inventory |
| Inventory.SaplingCountSnapshot | src/main/java/com/example/roamersplus/event/RoamerEventHandler.java:821-834 | the snapshot has a key for exactly the sapling items present, each with its inventory total |
| Inventory.UpdateSaplingCountSnapshot | src/main/java/com/example/roamersplus/event/RoamerEventHandler.java:821-834 | replaces only this roamer's snapshot, whose keys are exactly the sapling items with a positive total, each mapped to that total |
| Inventory.SnapshotOfCounts | src/main/java/com/example/roamersplus/event/RoamerEventHandler.java:821-834 | inventories with equal totals have equal snapshots |
| Inventory.RotateKeepsCounts | src/main/java/com/example/roamersplus/event/RoamerEventHandler.java:549-578 | rotation keeps every item's total |
| Inventory.RotateKeepsSnapshot | src/main/java/com/example/roamersplus/event/RoamerEventHandler.java:549-578 | rotation leaves the sapling snapshot unchanged |
| Scatter.RingOffsets | src/main/java/com/example/roamersplus/util/SaplingPlacementHelper.java:204-216 | every offset lies in the ring (outside the 7x7 core kept for building, within the radius) and none repeats |
| Scatter.RingOffsetsCover | src/main/java/com/example/roamersplus/util/SaplingPlacementHelper.java:204-216 | every ring offset is enumerated |
| Scatter.CandidateInRing | src/main/java/com/example/roamersplus/util/SaplingPlacementHelper.java:204-216 | each candidate is the centre moved by a ring offset |
| Scatter.CandidateCovers | src/main/java/com/example/roamersplus/util/SaplingPlacementHelper.java:204-216 | every ring position around the centre is a candidate |
| Scatter.CandidatesDistinct | src/main/java/com/example/roamersplus/util/SaplingPlacementHelper.java:204-216 | no two candidates share a column |
| Scatter.ShuffleKeeps | src/main/java/com/example/roamersplus/util/SaplingPlacementHelper.java:219 | shuffling loses no element |
| Scatter.ShuffleDistinctColumns | src/main/java/com/example/roamersplus/util/SaplingPlacementHelper.java:219 | shuffling keeps the columns distinct |
| Scatter.GenerateScatterPositions | src/main/java/com/example/roamersplus/util/SaplingPlacementHelper.java:201-221 | one position per ring offset, all at the centre's height |
| Scatter.ScatterInRing | src/main/java/com/example/roamersplus/util/SaplingPlacementHelper.java:201-221 | every generated position is in the ring |
| Scatter.ScatterCoversRing | src/main/java/com/example/roamersplus/util/SaplingPlacementHelper.java:201-221 | every ring position is generated |
| Scatter.ScatterDistinctColumns | src/main/java/com/example/roamersplus/util/SaplingPlacementHelper.java:201-221 | generated positions lie in distinct columns |
| Scatter.Types | src/main/java/com/example/roamersplus/util/SaplingPlacementHelper.java:45-64 | the sapling species held in the stacks, each once, and every species held is listed |
| Scatter.TypesPrefix | src/main/java/com/example/roamersplus/util/SaplingPlacementHelper.java:45-64 | types are listed in order of first appearance (a prefix's types are a prefix) |
| Scatter.StackForFirst | src/main/java/com/example/roamersplus/util/SaplingPlacementHelper.java:98-105 | the first stack holding the species, or -1 exactly when none does |
| Scatter.NextIndex | src/main/java/com/example/roamersplus/util/SaplingPlacementHelper.java:122-128 | the type index advances by one and wraps to 0 after the last type |
| Scatter.TryTypes | src/main/java/com/example/roamersplus/util/SaplingPlacementHelper.java:95-130 | the round-robin at one column: a placed sapling comes from a stack holding that kind, which is one of the types, at the column's search result; the next index is in range |
| Scatter.TryTypesPlaced | src/main/java/com/example/roamersplus/util/SaplingPlacementHelper.java:95-130 | when a sapling is placed it is the first stocked type at or after the current index, from its first stack, and the index moves past it |
| Scatter.TryTypesNoSpot | src/main/java/com/example/roamersplus/util/SaplingPlacementHelper.java:95-130 | nothing is placed only when the position has no spot or no type is stocked; the index is then kept |
| Scatter.PlacesWhenPossible | src/main/java/com/example/roamersplus/util/SaplingPlacementHelper.java:95-130 | with a spot and any sapling in stock, a sapling is placed |
| Scatter.PlaceSpot | src/main/java/com/example/roamersplus/util/SaplingPlacementHelper.java:77-130 | every placed sapling sits at the spot found for some candidate |
| Scatter.PlaceKindGrouped | src/main/java/com/example/roamersplus/util/SaplingPlacementHelper.java:45-130 | every placed kind is one of the held types |
| Scatter.PlaceFromIncreasing | src/main/java/com/example/roamersplus/util/SaplingPlacementHelper.java:77-130 | candidates are used in order, each at most once |
| Scatter.PlaceTotal | src/main/java/com/example/roamersplus/util/SaplingPlacementHelper.java:77-130 | the stacks lose exactly one item per placed sapling |
| Scatter.PlacePerKind | src/main/java/com/example/roamersplus/util/SaplingPlacementHelper.java:77-130 | for each species the stacks lose exactly as many saplings as were placed of it |
| Scatter.PlaceShrinks | src/main/java/com/example/roamersplus/util/SaplingPlacementHelper.java:114 | stacks only shrink, and non-sapling stacks and other species are untouched |
| Scatter.PlaceFromIsPlace | src/main/java/com/example/roamersplus/util/SaplingPlacementHelper.java:77-130 | the world-threaded loop equals the pure loop over per-candidate search results, with the world built by planting each spot |
| Scatter.PlaceFrom | src/main/java/com/example/roamersplus/util/SaplingPlacementHelper.java:77-130 | the loop over the candidates reports one kind per placed spot and keeps the number of slots |
| Scatter.Place | src/main/java/com/example/roamersplus/util/SaplingPlacementHelper.java:77-130 | the same loop over the search results: one kind and one candidate per placed sapling, at most one per remaining candidate, the slots kept and the type index in range |
| Scatter.TurnCyc | src/main/java/com/example/roamersplus/util/SaplingPlacementHelper.java:122-128 | k index steps from ti land on (ti + k) mod n |
| Scatter.TurnPeriodic | src/main/java/com/example/roamersplus/util/SaplingPlacementHelper.java:122-128 | n index steps return to the same type |
| Scatter.PlaceAlternates | src/main/java/com/example/roamersplus/util/SaplingPlacementHelper.java:77-130 | when every candidate has a spot and every type has enough saplings, every candidate is used and the k-th sapling is type (start + k) mod n: the species strictly alternate |
| Scatter.PlantFrame | src/main/java/com/example/roamersplus/util/SaplingPlacementHelper.java:109-113 | planting changes no block outside the planted spots |
| Scatter.PlantHolds | src/main/java/com/example/roamersplus/util/SaplingPlacementHelper.java:109-113 | each planted spot holds the sapling of its kind |
| Scatter.PlaceFromSpot | src/main/java/com/example/roamersplus/util/SaplingPlacementHelper.java:77-130 | every placed spot is the column-search result of some candidate |
| Scatter.PlaceFromDistinct | src/main/java/com/example/roamersplus/util/SaplingPlacementHelper.java:77-130 | no two saplings share a column |
| Scatter.PlaceFromLevel | src/main/java/com/example/roamersplus/util/SaplingPlacementHelper.java:77-130 | only placed spots change, and each holds its kind's sapling |
| Alternating.FeedSpot | src/main/java/com/example/roamersplus/util/SaplingPlacementHelper.java:146-159 | uses at most the limit and the supply, accounts for every use, the block stays or grows, and it stops short only when the supply is empty or the sapling grew |
| Alternating.FeedSpotNoGrowth | src/main/java/com/example/roamersplus/util/SaplingPlacementHelper.java:146-159 | without growth it uses min(limit, supply) and the sapling stays |
| Alternating.FeedSpotGrows | src/main/java/com/example/roamersplus/util/SaplingPlacementHelper.java:146-159 | a first application that grows the tree uses exactly one bone meal |
| Alternating.FeedAll | src/main/java/com/example/roamersplus/util/SaplingPlacementHelper.java:136-162 | the bone meal loop over the placed spots makes one use entry per spot it reaches, at most one per spot |
| Alternating.FeedBlocks | src/main/java/com/example/roamersplus/util/SaplingPlacementHelper.java:136-162 | the same loop over the blocks at the spots: one block and one use entry per spot reached |
| Alternating.FeedBlocksAccounting | src/main/java/com/example/roamersplus/util/SaplingPlacementHelper.java:136-162 | the bone meal left plus the sum of the uses equals the supply |
| Alternating.FeedBlocksStops | src/main/java/com/example/roamersplus/util/SaplingPlacementHelper.java:136-162 | saplings are skipped only once the bone meal is gone |
| Alternating.FeedBlocksAt | src/main/java/com/example/roamersplus/util/SaplingPlacementHelper.java:136-162 | each spot stays or grows, gets at most 3, and only saplings get any |
| Alternating.FeedBlocksShort | src/main/java/com/example/roamersplus/util/SaplingPlacementHelper.java:136-162 | a spot gets fewer than 3 only if it grew or the supply ran out |
| Alternating.FeedBlocksNoGrowth | src/main/java/com/example/roamersplus/util/SaplingPlacementHelper.java:136-162 | with enough bone meal and no growth every sapling gets exactly 3 |
| Alternating.FeedAllIsFeedBlocks | src/main/java/com/example/roamersplus/util/SaplingPlacementHelper.java:136-162 | the world-threaded bone meal loop equals the pure loop over the planted blocks |
| Alternating.FeedLevel | src/main/java/com/example/roamersplus/util/SaplingPlacementHelper.java:136-162 | bone meal touches only the planted spots; unfed spots keep their sapling; fed spots hold it or its grown tree |
| Alternating.Bonemealing | src/main/java/com/example/roamersplus/util/SaplingPlacementHelper.java:136-162 | the bone meal phase keeps the placement and is skipped without bone meal |
| Alternating.ScatterSaplingsAlternating | src/main/java/com/example/roamersplus/util/SaplingPlacementHelper.java:38-163 | nothing happens on the client or without saplings; otherwise the slots are kept, one kind per placed spot, at most one use entry per spot, and no bone meal is used without a stack |
| Alternating.PlantingIsPlace | src/main/java/com/example/roamersplus/util/SaplingPlacementHelper.java:45-130 | the planting phase is the pure alternating placement over the shuffled candidates |
| Alternating.PlantingPlants | src/main/java/com/example/roamersplus/util/SaplingPlacementHelper.java:77-130 | at most one sapling per candidate, distinct columns, nothing else changes |
| Alternating.PlantingSpots | src/main/java/com/example/roamersplus/util/SaplingPlacementHelper.java:77-130 | every sapling is at a valid spot within 5 blocks of the centre height, above a ring position |
| Alternating.BonemealingLevel | src/main/java/com/example/roamersplus/util/SaplingPlacementHelper.java:136-162 | bone meal changes only planted spots, each left as a sapling or its grown tree |
| Alternating.BonemealingSpends | src/main/java/com/example/roamersplus/util/SaplingPlacementHelper.java:136-162 | the stack shrinks by exactly the uses, at most 3 each, with fewer only on growth or exhaustion |
| Alternating.BonemealingFull | src/main/java/com/example/roamersplus/util/SaplingPlacementHelper.java:136-162 | with enough bone meal and no growth every planted sapling gets 3 |
| Alternating.ScatterSpots | src/main/java/com/example/roamersplus/util/SaplingPlacementHelper.java:38-163 | whole call: saplings stand at valid spots above ring positions, in distinct columns |
| Alternating.ScatterLevel | src/main/java/com/example/roamersplus/util/SaplingPlacementHelper.java:38-163 | whole call: only planted spots change, each to its sapling or grown tree |
| Alternating.ScatterBonemeal | src/main/java/com/example/roamersplus/util/SaplingPlacementHelper.java:38-163 | whole call: bone meal accounting as in BonemealingSpends |
| Alternating.ScatterFullBonemeal | src/main/java/com/example/roamersplus/util/SaplingPlacementHelper.java:38-163 | whole call: enough bone meal and no growth give every sapling 3 |
| Alternating.ScatterSaplingCounts | src/main/java/com/example/roamersplus/util/SaplingPlacementHelper.java:38-163 | whole call: each species' stock drops by the number placed of it, and only held types are placed |
| Alternating.ScatterAlternates | src/main/java/com/example/roamersplus/util/SaplingPlacementHelper.java:38-163 | whole call: when every position has a spot and every type has enough stock, the species strictly alternate in type order |
| RoamerEvents.GetSaplingAltIndex | src/main/java/com/example/roamersplus/event/RoamerEventHandler.java:935-937 | the stored index, or 0 for an unseen roamer |
| RoamerEvents.IncrementSaplingAltIndex | src/main/java/com/example/roamersplus/event/RoamerEventHandler.java:942-945 | only this roamer's index moves: it becomes (index + 1) mod max(1, numTypes), so it stays in range, moves by one and wraps to 0 |
| RoamerEvents.IncrementManySplit | src/main/java/com/example/roamersplus/event/RoamerEventHandler.java:942-945 | j + k increments are j increments followed by k |
| RoamerEvents.IncrementRun | src/main/java/com/example/roamersplus/event/RoamerEventHandler.java:942-945 | k increments add k until the wrap point |
| RoamerEvents.IncrementCycles | src/main/java/com/example/roamersplus/event/RoamerEventHandler.java:942-945 | max(1, numTypes) increments return to the same index |
| RoamerEvents.HandleStuckDetection | src/main/java/com/example/roamersplus/event/RoamerEventHandler.java:957-990 | an entity that is not a `Mob` is ignored; the position is recorded; the counter grows while the roamer stands still and is navigating, recovery fires exactly when it would reach 30, and the counter then resets |
| RoamerEvents.StuckRecoversAtThreshold | src/main/java/com/example/roamersplus/event/RoamerEventHandler.java:957-990 | from a fresh still roamer, recovery fires on exactly the 30th still check |
| RoamerEvents.StuckCounts | src/main/java/com/example/roamersplus/event/RoamerEventHandler.java:957-990 | from any counter c, k still checks count to c + k and recover when it reaches 30 |
| RoamerEvents.FindValidCraftingTablePos | src/main/java/com/example/roamersplus/event/RoamerEventHandler.java:1162-1179 | the first spot in x, z, y scan order in the box around the centre that is air above a solid block; none exactly when the box has none |
| RoamerEvents.TableSearchX | src/main/java/com/example/roamersplus/event/RoamerEventHandler.java:1164-1177 | the outer scan from x onward: the first valid spot in scan order, or none exactly when none remains |
| RoamerEvents.QueueForBonemeal | src/main/java/com/example/roamersplus/event/RoamerEventHandler.java:928-930 | appends the position to this roamer's queue only |
| RoamerEvents.Trim | src/main/java/com/example/roamersplus/event/RoamerEventHandler.java:847-849 | keeps the newest 100 positions, dropping the oldest |
| RoamerEvents.DropStale | src/main/java/com/example/roamersplus/event/RoamerEventHandler.java:853-858 | keeps exactly the positions that still hold a sapling |
| RoamerEvents.DropStaleKeepsSaplings | src/main/java/com/example/roamersplus/event/RoamerEventHandler.java:853-858 | a queue of saplings survives the sweep unchanged |
| RoamerEvents.DropStaleAppend | src/main/java/com/example/roamersplus/event/RoamerEventHandler.java:853-858 | the sweep is a filter: the sweep of a joined queue is the joined sweeps, and a single entry stays exactly when it holds a sapling |
| RoamerEvents.Swept | src/main/java/com/example/roamersplus/event/RoamerEventHandler.java:846-858 | at most 100 positions, all from the queue; off the sweep tick it is the trim alone; on the sweep tick a position is kept exactly when it is in the trimmed queue and still holds a sapling |
| RoamerEvents.FeedUpToAccounts | src/main/java/com/example/roamersplus/event/RoamerEventHandler.java:879-913 | each queued feeding accounts every bone meal, takes only bone meal, and uses at most 2 |
| RoamerEvents.FeedUpToIdle | src/main/java/com/example/roamersplus/event/RoamerEventHandler.java:879-897 | without bone meal a feeding does nothing |
| RoamerEvents.FeedUpToFully | src/main/java/com/example/roamersplus/event/RoamerEventHandler.java:879-913 | with enough bone meal and no growth a sapling gets the full 2 |
| RoamerEvents.Drain | src/main/java/com/example/roamersplus/event/RoamerEventHandler.java:866-917 | the loop over the queue; it has no contract of its own, and the Drain lemmas below state what it does |
| RoamerEvents.DrainSuffix | src/main/java/com/example/roamersplus/event/RoamerEventHandler.java:866-917 | the queue left is a suffix of the queue, and at most 3 positions are processed per call |
| RoamerEvents.DrainAccounting | src/main/java/com/example/roamersplus/event/RoamerEventHandler.java:866-917 | bone meal left + used = bone meal before |
| RoamerEvents.DrainTakesBonemeal | src/main/java/com/example/roamersplus/event/RoamerEventHandler.java:866-917 | the queue only takes bone meal out of the inventory |
| RoamerEvents.DrainFrame | src/main/java/com/example/roamersplus/event/RoamerEventHandler.java:866-917 | only queued positions change |
| RoamerEvents.DrainStops | src/main/java/com/example/roamersplus/event/RoamerEventHandler.java:866-917 | it stops for lack of bone meal only with an empty supply, work left and quota left; otherwise the queue or the quota of 3 is exhausted |
| RoamerEvents.DrainBound | src/main/java/com/example/roamersplus/event/RoamerEventHandler.java:866-917 | at most 2 bone meal per processed position, plus 2 for the one it stopped at |
| RoamerEvents.DrainWithoutBonemeal | src/main/java/com/example/roamersplus/event/RoamerEventHandler.java:866-917 | with no bone meal nothing changes and it stops at the first sapling still queued |
| RoamerEvents.DrainFeedsFirst | src/main/java/com/example/roamersplus/event/RoamerEventHandler.java:866-917 | with enough bone meal for the queue and no growth, the first position takes exactly 2 and the rest of the queue is still all saplings with enough bone meal |
| RoamerEvents.DrainFull | src/main/java/com/example/roamersplus/event/RoamerEventHandler.java:866-917 | with enough bone meal for the queue and no growth, min(queue, quota) positions are removed from the front and fed 2 each |
| RoamerEvents.ProcessBonemealQueue | src/main/java/com/example/roamersplus/event/RoamerEventHandler.java:840-845 | an empty queue or a client-side call changes nothing |
| RoamerEvents.ProcessQueueShape | src/main/java/com/example/roamersplus/event/RoamerEventHandler.java:840-923 | the queue left has at most 100 positions, all from the old queue, and off the sweep tick is a suffix of it |
| RoamerEvents.QueueIsSweptSuffix | src/main/java/com/example/roamersplus/event/RoamerEventHandler.java:846-917 | the queue left is a suffix of the trimmed and swept queue |
| RoamerEvents.ProcessQueueAccounting | src/main/java/com/example/roamersplus/event/RoamerEventHandler.java:840-923 | bone meal left + used = before, only bone meal is taken, at most 6 per call |
| RoamerEvents.ProcessQueueFrame | src/main/java/com/example/roamersplus/event/RoamerEventHandler.java:840-923 | no block outside the queue changes |
| RoamerEvents.ProcessQueueWithoutBonemeal | src/main/java/com/example/roamersplus/event/RoamerEventHandler.java:840-923 | without bone meal nothing changes and the head of the queue left is a waiting sapling |
| RoamerEvents.ProcessQueueFull | src/main/java/com/example/roamersplus/event/RoamerEventHandler.java:840-923 | a queue of at most 100 saplings with 2 bone meal each and no growth loses its first min(size, 3) positions, which get 2 each |
| RoamerEvents.HasSaplingNearby | src/main/java/com/example/roamersplus/event/RoamerEventHandler.java:526-543 | true exactly when some block of the box (radius around, 2 up and down) is a sapling or a log |
| RoamerEvents.NearbyX | src/main/java/com/example/roamersplus/event/RoamerEventHandler.java:528-541 | the outer scan from x onward finds a sapling or log exactly when the rest of the box holds one |
| RoamerEvents.KeptDraws | src/main/java/com/example/roamersplus/event/RoamerEventHandler.java:481-489 | keeps exactly the random offsets outside the build area and inside the radius |
| RoamerEvents.Attempt | src/main/java/com/example/roamersplus/event/RoamerEventHandler.java:491-502 | a found spot is valid, uncrowded, above the drawn offset and within 5 of home height; no spot means the column search failed or the spot is crowded |
| RoamerEvents.AttemptAtSafe | src/main/java/com/example/roamersplus/event/RoamerEventHandler.java:491-502 | every chosen spot is valid and has no sapling or log within 2 |
| RoamerEvents.AttemptAtInColumn | src/main/java/com/example/roamersplus/event/RoamerEventHandler.java:491-502 | every chosen spot lies above its offset from home |
| RoamerEvents.PlantLoop | src/main/java/com/example/roamersplus/event/RoamerEventHandler.java:481-514 | the attempts plant at most the budget |
| RoamerEvents.PlantLoopFrame | src/main/java/com/example/roamersplus/event/RoamerEventHandler.java:481-514 | the attempts change only the planted spots, each to the sapling |
| RoamerEvents.PlantLoopSound | src/main/java/com/example/roamersplus/event/RoamerEventHandler.java:481-514 | every planted spot was valid and uncrowded in the original world, and the planted spots are pairwise more than 2 apart |
| RoamerEvents.PlantLoopInColumns | src/main/java/com/example/roamersplus/event/RoamerEventHandler.java:481-514 | every planted spot lies above one of the kept offsets |
| RoamerEvents.PlantLoopNone | src/main/java/com/example/roamersplus/event/RoamerEventHandler.java:481-514 | the attempts plant nothing exactly when every attempt, in the level as it was, finds no spot |
| RoamerEvents.PlantLoopBudget | src/main/java/com/example/roamersplus/event/RoamerEventHandler.java:476-514 | the budget only cuts the loop short: the spots planted with a smaller budget are the first ones planted with a larger one, min(budget, that count) of them |
| RoamerEvents.AttemptsNone | src/main/java/com/example/roamersplus/event/RoamerEventHandler.java:481-514 | the attempts around home plant nothing exactly when no kept draw finds an uncrowded valid spot |
| RoamerEvents.AgreeOnNearBox | src/main/java/com/example/roamersplus/event/RoamerEventHandler.java:526-543 | the spacing test and spot validity read only the box around the spot |
| RoamerEvents.SurvivesPlanting | src/main/java/com/example/roamersplus/event/RoamerEventHandler.java:494-505 | a spot safe after a planting was already safe before it |
| RoamerEvents.SafeAfterPlanting | src/main/java/com/example/roamersplus/event/RoamerEventHandler.java:494-505 | safety of the later spots carries back across one planting |
| RoamerEvents.ApartAfterPlanting | src/main/java/com/example/roamersplus/event/RoamerEventHandler.java:494-505 | a new spot outside every later spot's box keeps the spots apart |
| RoamerEvents.QueueAllAppends | src/main/java/com/example/roamersplus/event/RoamerEventHandler.java:507-508 | queueing the planted spots appends them to this roamer's queue only |
| RoamerEvents.KeptColumnsInPlot | src/main/java/com/example/roamersplus/event/RoamerEventHandler.java:481-496 | spots above kept offsets lie in the plot: outside the build area, inside the radius, within 5 of home height |
| RoamerEvents.PlantSaplingsFromInventory | src/main/java/com/example/roamersplus/event/RoamerEventHandler.java:429-520 | nothing on the client, while working, without home, farther than 20 blocks, with more than 50 queued, or without saplings; otherwise the slots are kept and at most 2 are planted |
| RoamerEvents.PlantingSpots | src/main/java/com/example/roamersplus/event/RoamerEventHandler.java:429-520 | planting happens only when not blocked and a sapling is held; the spots lie in the plot, hold the first sapling stack's species, were valid and uncrowded, are pairwise apart, and nothing else changes |
| RoamerEvents.PlantingInventory | src/main/java/com/example/roamersplus/event/RoamerEventHandler.java:503-519 | only the first sapling slot changes and it loses exactly one per planted spot; other totals are unchanged |
| RoamerEvents.ShrunkCounts | src/main/java/com/example/roamersplus/event/RoamerEventHandler.java:503-519 | shrinking a slot by n lowers its item's total by n and nothing else |
| RoamerEvents.PlantingQueues | src/main/java/com/example/roamersplus/event/RoamerEventHandler.java:507-508 | every planted spot is appended to this roamer's bone meal queue and other queues are untouched |
| RoamerEvents.PlantingFirstAttempt | src/main/java/com/example/roamersplus/event/RoamerEventHandler.java:476-514 | when planting is not blocked, a sapling stack is held and the first kept draw finds an uncrowded valid spot, that spot is the first one planted |
| RoamerEvents.PlantingNone | src/main/java/com/example/roamersplus/event/RoamerEventHandler.java:429-520 | when planting is not blocked and a sapling stack is held, nothing is planted exactly when no kept draw finds an uncrowded valid spot |
| RoamerEvents.AddAll | src/main/java/com/example/roamersplus/event/RoamerEventHandler.java:170-189 | handing over stacks in turn: one success flag per stack, no success without an inventory, and the slots are kept |
| RoamerEvents.AddAllCounts | src/main/java/com/example/roamersplus/event/RoamerEventHandler.java:170-189 | for stacks of different items, each stack that fit raises its item's total by its size, and items no stack carries keep their totals |
| RoamerEvents.GiveStarterSaplings | src/main/java/com/example/roamersplus/event/RoamerEventHandler.java:336-346 | one `addToInventory` per sapling type of the race; a race that uses no wood is given nothing |
| RoamerEvents.StarterGrantCounts | src/main/java/com/example/roamersplus/event/RoamerEventHandler.java:336-346 | each of the race's saplings whose stack fit rises by 8, and every other item keeps its total |

## Left out

- The Roamers mod's own state is read by reflection: the home position, the "working" flag, the navigation state and the tree-check range. These are parameters; the reflection and its failure paths are not modelled.
- `Random` draws are the parameter `draws` (periodic planting) and the permutation `perm` (scatter shuffle). The model allows any offsets, not only those in `[-r, r]`. `Random.nextInt` throwing for a negative bound is not modelled.
- Tree growth and structure placement (`advanceTree` and the growth chance) are the oracle `grows`. Only the block at the sapling's position is modelled after growth; the rest of the tree is not. A real tree also fills other blocks, and a 2x2 tree such as dark oak can consume neighbouring saplings. Such a tree can change other planted or queued spots, or blocks that are not queued at all. So the frame and level statements hold under this one-block growth model only. They are Alternating.FeedBlocksStops, Alternating.FeedLevel, Alternating.BonemealingLevel, Alternating.ScatterLevel, RoamerEvents.DrainFrame, RoamerEvents.ProcessQueueFrame and Placement.BonemealSaplingFromInventory.
- The clock is the parameter `now`. Java `long` overflow of `now - start` is not modelled.
- Weak-map expiry of the side tables on garbage collection is not modelled. The maps only lose entries through the explicit removal operations.
- Logging and the `try`/`catch` blocks that swallow exceptions are not modelled.
- The bone meal grant at spawn (RoamerEventHandler.java:349) calls `SaplingHelper.getBonemeal` and `getBonemealCount`, which the helper does not define. That grant is not part of this model; only the sapling grant is (`GiveStarterSaplings`). The `saplingsGiven` guard that gives each roamer its saplings once is event plumbing and is not modelled.
- Periodic planting calls `SaplingPlacementHelper.findValidSaplingPositionPublic`, which is not part of this model: the version of `SaplingPlacementHelper.java` modelled here defines no method of that name. The model assumes it performs the same column search as the private `findValidSaplingPosition` and uses that search.
- The `isAir`/`canBeReplaced` re-check before planting (RoamerEventHandler.java:501-502) is already implied by spot validity. It is folded into `IsValidSaplingSpot`.
- Java `int` overflow of `x*x + z*z`, `distSqr` and the counters is not modelled: integers are unbounded.
- Event plumbing is not modelled. This covers `onEntityTick` scheduling (every 20/200/600/100 ticks), `onBlockBreak`, `handleReplanting` timing, `handleSaplingScattering`, the internals of `attemptStuckRecovery` and `helpWithCraftingTable`. The operations they call are modelled.
- The bone meal loops take the per-position amount as a parameter `per` (3 for scattering, 2 for the queue). The whole-call lemmas fix it to the source's constant.
- Alternating.BonemealingFull: promises a full 3 per sapling only when no application grows the tree (`grows == {}`). With growth, FeedBlocksShort gives the weaker "fewer only if it grew or ran out".
- Alternating.ScatterFullBonemeal: same restriction to `grows == {}`.
- Alternating.ScatterAlternates: the strict alternation is proved only when every shuffled position has a spot and every type has enough stock. Otherwise TryTypesPlaced states which type is chosen.
- RoamerEvents.DrainFull: the exact number of positions removed is proved only for a queue of saplings with enough bone meal and no growth.
- RoamerEvents.ProcessQueueFull: same restriction as DrainFull, plus a queue of at most 100.
- RoamerEvents.ProcessBonemealQueue: its own contract covers only the early return. The rest is stated by ProcessQueueShape, ProcessQueueAccounting, ProcessQueueFrame and the other lemmas about it.
- SaplingHelper.ArcticSpelling: the race table spells the arctic race "ARTIC". The model keeps the code's key, so the race name "ARCTIC" gets no saplings.
- Species: the item and block types list the eight sapling species the race table and the log mapping name. The code tests `instanceof SaplingBlock`, which also admits saplings of other mods and other vanilla saplings. Such saplings are not modelled.
- SaplingHelper.ToUpper: models `toUpperCase()` as the root-locale upper-casing of ASCII letters, the dotless `ı` and the long `ſ`; other characters are kept. Under a Turkish default locale Java maps `i` to a dotted capital I, and a name like "taiga" would then miss its table key. That locale dependence is not modelled.
- Placement.Feed: its own contract only bounds the uses and keeps the slot count. Accounting, what it takes and when it stops are FeedAccounting, FeedTakesBonemeal and FeedUsesAll.
- Alternating.FeedAll: its own contract only bounds the use entries. The rest is FeedAllIsFeedBlocks and the FeedBlocks lemmas.
- Alternating.FeedBlocks: its own contract gives only the lengths. Accounting and stopping are FeedBlocksAccounting, FeedBlocksStops, FeedBlocksAt and FeedBlocksShort.
- Scatter.PlaceFrom: its own contract gives only the lengths. Which spots and kinds it picks are PlaceFromIsPlace, PlaceFromSpot, PlaceFromDistinct and PlaceFromLevel.
- Scatter.Place: its own contract gives only lengths and ranges. Which kinds it picks and what it spends are PlaceAlternates, PlaceTotal, PlacePerKind and PlaceKindGrouped.
- RoamerEvents.Drain: has no contract of its own. Any contract on it enlarges every proof about it, so its properties are the Drain lemmas.
- RoamerEvents.PlantLoop: its own contract only bounds the spots. Soundness, frame and completeness are PlantLoopSound, PlantLoopFrame, PlantLoopNone and PlantLoopBudget.
- RoamerEvents.AddAll: the contract does not say that a partly placed stack raises its item's total by the part that fit; AddToInventory states that for one call.
