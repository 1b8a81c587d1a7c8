# WorldEdit-BE core in Dafny

This project models the core of WorldEdit-BE, a WorldEdit add-on for Minecraft Bedrock Edition, and proves properties of that model. It covers these parts:

- **The region store.** `RegionsManager` saves a cuboid of blocks under a per-player name. A region larger than the host's 64 x 256 x 64 limit is split into pieces. The store later loads, queries and deletes those entries, and it can remove every entry a player owns.
- **The server utilities.** These are the corner, extent and volume helpers, the textual form of a location, and the per-dimension build-height table with its one-time probes.
- **The player helper.** It keeps a per-player dimension cache that every tick marks stale. It also does item replacement and the hotbar stash and restore.
- **The tool base.** It binds a tool to an item, picks the activation tag and suppresses a plain use on the tick a block use ran.
- **Three commands.**
  - `set` fills the selection with a pattern through the edit history.
  - `undo` runs up to `times` undos and stops at the first one that finds nothing.
  - `help` shows a sorted, paged list of usages, or the usages of one command.
- **The command dispatcher.** It runs a handler, reports the result or the error, honours the one-shot "print to action bar" flag, and cancels a recording history when a handler throws.

The host game works through oracles.

- A `structure save`, `load` or `delete` succeeds or fails according to a function `fails: Call -> bool`. The `Host` class records the calls it is given, in order. The structures the host holds are computed from that log (`Structures.Effect`).
- Whether a block can be placed at a spot, which entities stand in a dimension, whether an undo finds something to undo, whether a tag was removed and whether a handler throws are all parameters.
- `Math.random` in the id generator becomes a list of pre-drawn rolls.

Modules, one per file: `Wrappers`, `Vectors`, `Structures`, `Chunks`, `Regions`, `RegionFacts`, `WorldHeight`, `PlayerUtil`, `Tools`, `History`, `UndoCommand`, `SetCommand`, `Help`, `Dispatch`.

JavaScript behaviour that the model keeps:

- `runCommand(...).error` is true on failure.
- `s.replace(' ', '_')` replaces only the first space.
- An empty alias array is truthy, and an empty description is falsy.
- The help comparator never answers 0.
- `set`'s handler passes no mask to the fill.
- In a non-cuboid selection, `set` records `undefined` corners.

Where the source reads a missing map entry or array element and would throw, the model returns `None`. This happens in `getWorldMinY`/`getWorldMaxY` on an unknown dimension, in `PlayerHandler.GetDimension` when no dimension holds the player and nothing is cached, in the getters on a missing entry, and in `help` with no rows.

## Model

| member | source | states |
|---|---|---|
| Vectors.RegionMin | src/server/util.ts:190-192 | The lower corner is componentwise below both corners and takes each coordinate from one of them. |
| Vectors.RegionMax | src/server/util.ts:200-202 | The upper corner is componentwise above both corners and takes each coordinate from one of them. |
| Vectors.RegionSize | src/server/util.ts:210-216 | Every extent is at least 1, and the lower corner plus the extent is the upper corner plus one on each axis (both corners are included). |
| Vectors.RegionVolume | src/server/util.ts:164-167 | The volume is at least 1 and at least each extent. |
| Vectors.VolumeOfPositive | src/server/util.ts:164-167 | A product of positive extents is at least each of its factors. |
| Vectors.AddLocations | src/server/util.ts:154-156 | Subtracting the added offset gives back the first location. |
| Vectors.SubtractLocations | src/server/util.ts:144-146 | Adding back the subtracted offset gives back the first location. |
| Vectors.RegionSymmetric | src/server/util.ts:164-216 | Minimum, maximum, size and volume do not depend on the order of the corners, and the minimum is below the maximum. |
| Vectors.AddSubtractInverse | src/server/util.ts:144-156 | Addition and subtraction of locations undo each other in both orders. |
| Vectors.RegionBounds | src/server/util.ts:174-182 | The bounds of a non-empty block list hold every block, and each coordinate of each bound is attained by some block. The empty list has no bounds. |
| Vectors.DigitChar | src/server/util.ts:131-136 | A digit character encodes its value. |
| Vectors.NatToString | src/server/util.ts:131-136 | The decimal text of a natural is non-empty, all digits, and has no leading zero. |
| Vectors.IntToString | src/server/util.ts:131-136 | The decimal text of an integer is non-empty and contains no space, comma or parenthesis, so it can sit between separators. |
| Vectors.ParseNatToString | src/server/util.ts:131-136 | Reading back the decimal text of a natural gives the natural. |
| Vectors.ParseIntToString | src/server/util.ts:131-136 | Reading back the decimal text of an integer gives the integer, for negative numbers too. |
| Vectors.Split | src/server/util.ts:131-136 | Splitting yields at least one piece. |
| Vectors.SplitNoSep | src/server/util.ts:131-136 | Text without the separator splits into itself. |
| Vectors.SplitAt | src/server/util.ts:131-136 | A separator after separator-free text splits off exactly that text. |
| Vectors.PlainSplit | src/server/util.ts:134 | The plain form `x y z` splits on spaces into its three numbers. |
| Vectors.PlainRoundTrip | src/server/util.ts:134 | The plain form of a location reads back as that location. |
| Vectors.Parenthesised | src/server/util.ts:133 | The pretty form's outer parentheses enclose exactly the inner text. |
| Vectors.PrettySplit | src/server/util.ts:133 | The pretty form's inner text splits on commas into the three numbers, each after the first preceded by one space. |
| Vectors.PrettyRoundTrip | src/server/util.ts:133 | The pretty form `(x, y, z)` of a location reads back as that location. |
| Vectors.PrintLocationRoundTrip | src/server/util.ts:131-136 | Both forms of `printLocation` determine the location. |
| Structures.EffectAppend | src/server/modules/regions.ts:61-65 | The effect of two runs of host calls is the effect of the second applied after the first. |
| Structures.EffectUntouched | src/server/modules/regions.ts:61-65 | A name that no call mentions keeps its status. |
| Structures.Names | src/server/modules/regions.ts:61-65 | Every call's name is among the names of the calls. |
| Structures.NamesSnoc | src/server/modules/regions.ts:61-65 | The names of a run are the names of its prefix plus the name of its last call. |
| Structures.EffectRefused | src/server/modules/regions.ts:61-65 | Refused calls leave the host's structures as they were. |
| Structures.EffectLoads | src/server/modules/regions.ts:114-120 | Loads never change the host's structures. |
| Structures.EffectSaves | src/server/modules/regions.ts:61-62 | Accepted saves add exactly the names they carry. |
| Structures.EffectDeletes | src/server/modules/regions.ts:137-140 | Accepted deletes remove exactly the names they carry. |
| Structures.Host.constructor | src/server/modules/regions.ts:61 | A host starts with no calls logged and a fixed oracle. |
| Structures.Host.Run | src/server/modules/regions.ts:61 | A call is appended to the log, and the answer is true exactly when the oracle refuses the call. |
| Chunks.AxisMember | src/server/modules/regions.ts:47-49 | A value is visited on an axis exactly when it is a multiple of the step within range. |
| Chunks.AxisIncreasing | src/server/modules/regions.ts:47-49 | Each axis loop visits strictly increasing values, all in range. |
| Chunks.AxisLength | src/server/modules/regions.ts:47-49 | An axis loop runs ceil((n - from) / step) times. |
| Chunks.RowMember | src/server/modules/regions.ts:49 | A row of offsets holds exactly the points with an x from the list and the row's y and z. |
| Chunks.PlaneMember | src/server/modules/regions.ts:48-49 | A plane holds exactly the points with x and y from the lists and the plane's z. |
| Chunks.GridMember | src/server/modules/regions.ts:47-49 | The grid holds exactly the points whose three coordinates come from the three lists. |
| Chunks.ChunkOffsetMember | src/server/modules/regions.ts:45-49 | An offset is a piece of the region exactly when it is a multiple of the limit within the region on each axis. |
| Chunks.ConcatIncreasing | src/server/modules/regions.ts:47-49 | Two visit orders joined, the first entirely before the second, stay in visit order. |
| Chunks.RowIncreasing | src/server/modules/regions.ts:49 | A row is listed in visit order. |
| Chunks.PlaneIncreasing | src/server/modules/regions.ts:48-49 | A plane is listed in visit order. |
| Chunks.GridIncreasing | src/server/modules/regions.ts:47-49 | The grid is listed in visit order. |
| Chunks.ChunkOrder | src/server/modules/regions.ts:47-49 | The pieces are visited with z outermost, then y, then x, each at most once. |
| Chunks.RowLength | src/server/modules/regions.ts:49 | A row has one offset per x step. |
| Chunks.PlaneLength | src/server/modules/regions.ts:48-49 | A plane has one offset per x and y step pair. |
| Chunks.GridLength | src/server/modules/regions.ts:47-49 | The grid has one offset per combination of steps. |
| Chunks.ChunkCount | src/server/modules/regions.ts:16-49 | A region has ceil(sx/64) * ceil(sy/256) * ceil(sz/64) pieces. |
| Chunks.ChunkInside | src/server/modules/regions.ts:50-55 | Every piece holds its own offset, is no larger than the limit on any axis, and lies inside the region. |
| Chunks.AlignedUnique | src/server/modules/regions.ts:47-49 | Two aligned steps whose spans share a point are the same step. |
| Chunks.ChunksTile | src/server/modules/regions.ts:45-55 | Every block of the region lies in exactly one piece. |
| Chunks.ChunksDisjoint | src/server/modules/regions.ts:45-55 | No block lies in two different pieces. |
| Regions.FirstFreshId | src/server/modules/regions.ts:23-30 | The id drawn is well formed and not already handed out, and it comes from the first roll not already in use. |
| Regions.FirstFreshIdAt | src/server/modules/regions.ts:23-30 | The id drawn is the one from the first roll whose id is free. |
| Regions.ChunkSaveCall | src/server/modules/regions.ts:50-61 | A piece's save is named for the piece's offset and starts at the region's lower corner plus that offset. |
| Regions.Each | src/server/modules/regions.ts:110-117 | There is one call per piece. |
| Regions.PieceAppend | src/server/modules/regions.ts:47-68 | Piece saving over two runs of offsets fails when either run fails. The trace stops after the first run's failure, and otherwise continues with the second run. |
| Regions.PieceStepAccepted | src/server/modules/regions.ts:61-62 | One more accepted piece extends the trace with its save. |
| Regions.PieceStepRefused | src/server/modules/regions.ts:63-67 | A refused piece ends the trace with its save and the clean-up, and nothing after it is issued. |
| Regions.PieceTraceAccepted | src/server/modules/regions.ts:47-69 | When no piece is refused, the trace is exactly one save per piece, in order. |
| Regions.KeptStep | src/server/modules/regions.ts:149-156 | Visiting one more key removes it exactly when the player owns it and the host accepts its delete. |
| Regions.KeptAll | src/server/modules/regions.ts:149-157 | Having visited every key gives the survivors of the sweep. |
| Regions.DeletesStep | src/server/modules/regions.ts:151 | Issuing one more delete extends the delete trace by that key. |
| Regions.ListsOwnedStep | src/server/modules/regions.ts:150-151 | The deleted keys are exactly the owned keys visited so far, after one more visit. |
| Regions.Deletes | src/server/modules/regions.ts:151 | There is one delete per key. |
| Regions.RegionsManager.constructor | src/server/modules/regions.ts:18-19 | The store starts with no entries and no ids. |
| Regions.RegionsManager.IdFromRoll | src/server/modules/regions.ts:24-29 | Four characters are drawn from the 62-character alphabet. |
| Regions.RegionsManager.GenName | src/server/modules/regions.ts:21-35 | A player keeps the id once given. A new player gets the first roll whose id is free. The name is `wedit:<name>_<id>`. |
| Regions.RegionsManager.Save | src/server/modules/regions.ts:37-96 | The host is given exactly the planned trace. The answer is whether it failed. On success the entry is recorded with its position, size, origin, volume and pieces. On failure the entries are unchanged. |
| Regions.RegionsManager.SaveRegion | src/server/modules/regions.ts:38-95 | A region within the limit is one save. A larger one goes piece by piece. The recorded data is well formed. |
| Regions.RegionsManager.SavePieces | src/server/modules/regions.ts:46-69 | The piece loop issues exactly the piece trace. It fails exactly when some piece is refused, and otherwise lists every offset. |
| Regions.RegionsManager.RunPieces | src/server/modules/regions.ts:109-118 | One call per piece is issued. The answer is whether any was accepted. |
| Regions.RegionsManager.RollBack | src/server/modules/regions.ts:64-66 | The clean-up issues one delete per stored piece, each for the refused piece's name. |
| Regions.RegionsManager.Load | src/server/modules/regions.ts:98-124 | A missing entry fails with no host call. Otherwise the load is placed at the location, shifted by the origin in relative mode. It issues one load per piece and fails exactly as the load trace does. Entries are unchanged. |
| Regions.RegionsManager.Has | src/server/modules/regions.ts:126-128 | The answer is whether the qualified name has an entry. |
| Regions.RegionsManager.Delete | src/server/modules/regions.ts:130-146 | A missing entry is an error with no host call. Otherwise the entry is dropped whatever the host answers. An unsplit entry gets one delete, and the answer is whether it was refused. A split entry gets its piece deletes up to and including the first one the host accepts, and the answer is whether one was accepted. |
| Regions.RegionsManager.DeletePieces | src/server/modules/regions.ts:136-138 | Piece deletes are issued in order until the host accepts one, and none after it. The answer is whether any was accepted. |
| Regions.SomeAcceptedSnoc | src/server/modules/regions.ts:137 | The host accepted one of the first i+1 calls exactly when it accepted one of the first i or the (i+1)-th. |
| Regions.UntilAccepted | src/server/modules/regions.ts:136-138 | A split delete sends at most one delete per piece. |
| Regions.RegionsManager.DeletePlayer | src/server/modules/regions.ts:148-160 | Every entry whose name ends with `_<id>` gets one delete. Exactly the ones the host accepted are dropped. The player's id is forgotten and the answer is false. |
| Regions.RegionsManager.DeleteOwned | src/server/modules/regions.ts:149-157 | The sweep issues one delete for each owned key, each key once, and keeps exactly the survivors. |
| Regions.RegionsManager.DeleteOne | src/server/modules/regions.ts:150-156 | One visited key is deleted when owned and dropped when the host accepted. |
| Regions.RegionsManager.GetOrigin | src/server/modules/regions.ts:162-164 | The recorded origin of the entry, or None when there is no entry. |
| Regions.RegionsManager.GetPosition | src/server/modules/regions.ts:166-168 | The recorded lower corner of the entry, or None. |
| Regions.RegionsManager.GetSize | src/server/modules/regions.ts:170-172 | The recorded size of the entry, or None. |
| Regions.RegionsManager.GetBlockCount | src/server/modules/regions.ts:174-176 | The recorded block count of the entry, or None. |
| RegionFacts.IdStable | src/server/modules/regions.ts:22-34 | Once drawn, a player's id never changes, and a player who already has one draws nothing. |
| RegionFacts.NewIdFresh | src/server/modules/regions.ts:23-31 | A new id is well formed and differs from every id already handed out. Only the new player's id is added. |
| RegionFacts.SaveAcceptedTrace | src/server/modules/regions.ts:45-92 | A save that reports success issued exactly the planned saves, in order. |
| RegionFacts.NamesOfEach | src/server/modules/regions.ts:110-117 | The names of one call per offset are the per-offset names. |
| RegionFacts.PieceNames | src/server/modules/regions.ts:57 | The piece saves are named `<name>_<x>_<y>_<z>`. |
| RegionFacts.SaveStoresEveryPiece | src/server/modules/regions.ts:45-92 | After a save that reports success, the host holds every piece name of the entry, added to what it held before. |
| RegionFacts.PiecesAccepted | src/server/modules/regions.ts:61-62 | When no piece fails, every issued call is an accepted save. |
| RegionFacts.PieceFailsAt | src/server/modules/regions.ts:61 | When no piece fails, the host accepted each piece. |
| RegionFacts.PlannedSavesInside | src/server/modules/regions.ts:50-55 | Each planned save spans a box inside the region, lower corner first, no larger than the limit on any axis. |
| RegionFacts.RelativePlacementRestores | src/server/modules/regions.ts:75-106 | A relative load at the spot the entry was captured from lands on the region's lower corner. |
| RegionFacts.LoadMatchesSave | src/server/modules/regions.ts:108-120 | Loading an entry at its own position issues one load per planned save, under the same name, at the corner it was saved from. |
| RegionFacts.LoadKeepsStored | src/server/modules/regions.ts:108-120 | A load leaves the host's structures unchanged. |
| RegionFacts.LoadFailsIff | src/server/modules/regions.ts:109-120 | A load reports failure exactly when the host refused every load it issued. |
| RegionFacts.WideOffsets | src/server/modules/regions.ts:47-49 | A region 65 blocks wide has the pieces at x = 0 and x = 64. |
| RegionFacts.TwoPieceRollback | src/server/modules/regions.ts:61-67 | With two pieces and the second refused, the clean-up deletes the second name, and the first stays stored. |
| RegionFacts.WideRegion | src/server/util.ts:190-216 | The region from (0,0,0) to (64,0,0) has lower corner (0,0,0), size 65 x 1 x 1, and is split. |
| RegionFacts.WideNames | src/server/modules/regions.ts:57 | The two pieces of that region have different names. |
| RegionFacts.ChunkNameLength | src/server/modules/regions.ts:57 | The length of a piece name is the name plus three separators plus the three numbers. |
| RegionFacts.RollbackLeavesPiece | src/server/modules/regions.ts:64-67 | As written: that save reports failure, yet the host still holds its first piece. |
| RegionFacts.WideRefusal | src/server/modules/regions.ts:57-61 | The second piece's save is the only one refused, and the two names differ. |
| RegionFacts.TwoPieceSave | src/server/modules/regions.ts:45-69 | A chunked save over exactly two pieces with the second refused fails and leaves the first piece stored. |
| RegionFacts.EachAppendNames | src/server/modules/regions.ts:64-66 | One call more adds its name to the names. |
| RegionFacts.EachNames | src/server/modules/regions.ts:64-66 | Deletes and saves made per piece with the same names carry the same names. |
| RegionFacts.FixedRollbackRestores | src/server/modules/regions.ts:64-67 | Corrected: a refused save that deletes the pieces already saved leaves the host holding what it held before. This needs a host that accepts deletes and piece names not already in use. |
| RegionFacts.UntilAcceptedStops | src/server/modules/regions.ts:136-138 | As written: when piece k is the first whose delete the host accepts, the deletes sent are exactly those of pieces 0 to k. |
| RegionFacts.UntilAcceptedAll | src/server/modules/regions.ts:136-138 | As written: when the host refuses every piece delete, every piece's delete is sent. |
| RegionFacts.DeleteFlagInverted | src/server/modules/regions.ts:135-138 | As written: with a host that accepts everything, a chunked delete sends only the first piece's delete, removes only that name, and still reports an error. |
| RegionFacts.WideDeleteLeaks | src/server/modules/regions.ts:135-142 | As written, for the entry of region (0,0,0)-(64,0,0): with a host that accepts everything, the piece at (64,0,0) stays stored while the delete reports an error. |
| RegionFacts.DeleteSuccessDeletedNothing | src/server/modules/regions.ts:135-138 | As written: a chunked delete that reports success sent every piece's delete, and all were refused, so it removed nothing. |
| RegionFacts.FixedDeleteFlag | src/server/modules/regions.ts:134-143 | Corrected, sending every piece's delete and OR-ing in each refusal: success means every name of the entry was removed, and failure means some delete was refused. It agrees with the source for unsplit entries. |
| RegionFacts.SweepLeavesPieces | src/server/modules/regions.ts:149-151 | As written: the player sweep never touches a piece name, so a split entry's pieces stay with the host. |
| RegionFacts.FixedSweepDeletes | src/server/modules/regions.ts:149-157 | Corrected sweep: every piece of every owned entry gets a delete. |
| RegionFacts.FixedSweepOnlyDeletes | src/server/modules/regions.ts:149-157 | The corrected sweep issues deletes only. |
| RegionFacts.FixedSweepClears | src/server/modules/regions.ts:149-157 | With a host that accepts deletes, the corrected sweep leaves none of the owned pieces stored. |
| WorldHeight.WorldY.constructor | src/server/util.ts:74-78 | The height table starts as the source's table, with the overworld sentinels -999 and 999. |
| WorldHeight.WorldY.GetWorldMinY | src/server/util.ts:84-93 | The overworld minimum is probed at y = -1 only while it is the sentinel: -64 if placeable, else 0. The answer is the table's minimum for the dimension, or None with no row. |
| WorldHeight.WorldY.GetWorldMaxY | src/server/util.ts:100-109 | The overworld maximum is probed at y = 256 only while it is the sentinel: 319 if placeable, else 255. The answer is the table's maximum, or None with no row. |
| WorldHeight.ProbesHappenOnce | src/server/util.ts:84-109 | After both getters the overworld bounds are final values (-64 or 0, 319 or 255), and only the overworld row changed. A further pair of calls gives the same answers and leaves the table unchanged. |
| WorldHeight.EndHasNoRow | src/server/util.ts:74-78 | As written: the dimension name the lookup scan yields for the end has no row in the table. |
| WorldHeight.FixedLookup | src/server/util.ts:74-78 | Corrected: every scanned dimension name finds a row, and the end finds the `the_end` row. |
| PlayerUtil.FirstDimension | src/server/modules/player_util.ts:73-85 | The dimension found is the first in scan order where the player stands. None means they stand in none. |
| PlayerUtil.Staled | src/server/modules/player_util.ts:10-14 | The tick keeps every cached player and their dimension and marks each entry stale. |
| PlayerUtil.SlotOfInverse | src/server/modules/player_util.ts:25-26 | Indices up to 8 are hotbar slots and later ones inventory slots shifted by 9. Each index is recovered from its address. |
| PlayerUtil.FirstHolding | src/server/modules/player_util.ts:23-33 | The index found holds the item and no earlier slot does. None means no slot does. |
| PlayerUtil.ReplacedFirst | src/server/modules/player_util.ts:21-34 | Only the first slot holding the item changes, and it now holds the substitute. |
| PlayerUtil.ReplacedFirstHolds | src/server/modules/player_util.ts:21-34 | Replacement changes something only when the item is held, and then the substitute is held. |
| PlayerUtil.RestoreSlotSwaps | src/server/modules/player_util.ts:123-131 | Every case of the restore's per-slot move exchanges the two slots. |
| PlayerUtil.FirstSpace | src/server/modules/player_util.ts:111 | The position found is the first space, or the end of the text. |
| PlayerUtil.ReplaceFirstSpace | src/server/modules/player_util.ts:111 | Only the first space becomes `_`. |
| PlayerUtil.PlayerHandler.constructor | src/server/modules/player_util.ts:7-9 | The dimension cache starts empty. |
| PlayerUtil.PlayerHandler.Tick | src/server/modules/player_util.ts:10-14 | Every cached entry is marked stale. |
| PlayerUtil.PlayerHandler.GetDimension | src/server/modules/player_util.ts:69-86 | A fresh entry answers without a scan. Otherwise the first dimension found is cached as fresh. With none found, the stale entry answers, or None. |
| PlayerUtil.PlayerHandler.FindPlayer | src/server/modules/player_util.ts:78-83 | True exactly when the player is among the entities. |
| PlayerUtil.PlayerHandler.ReplaceItem | src/server/modules/player_util.ts:21-34 | The first slot holding the item gets the substitute, and its hotbar or inventory address is returned. Nothing changes when no slot holds it. |
| PlayerUtil.PlayerHandler.StashHotbar | src/server/modules/player_util.ts:92-106 | With a stash in place: true, and nothing changes. Otherwise the stasher receives the nine hotbar slots, the hotbar is emptied, the stasher is named for the player, and the answer is false. |
| PlayerUtil.PlayerHandler.RestoreHotbar | src/server/modules/player_util.ts:108-138 | Without the player's stasher: true, and nothing changes. Otherwise each hotbar slot is exchanged with its stash slot, the rest is untouched, and the answer is false. |
| PlayerUtil.CachedUntilTick | src/server/modules/player_util.ts:69-86 | A dimension once found answers a second lookup in the same tick, wherever the player now stands. |
| PlayerUtil.FirstHoldingAt | src/server/modules/player_util.ts:23-33 | The first slot holding the item is the one found. |
| PlayerUtil.FirstHoldingNone | src/server/modules/player_util.ts:23-33 | No slot holding the item means none is found. |
| PlayerUtil.StashRestoreRoundTrip | src/server/modules/player_util.ts:92-138 | Stash then restore gives back the hotbar and empties the stash. |
| Tools.TagFor | BP/scripts/server/tools/base_tool.js:24 | The block variant of the tag is chosen exactly for a block use of a tool with both handlers. |
| Tools.Tool.constructor | BP/scripts/server/tools/base_tool.js:9 | A tool starts with its items and handlers, no current player, and `useOnTick` 0. |
| Tools.Tool.Process | BP/scripts/server/tools/base_tool.js:14-44 | The tool binds when a plain use holds the base item but not the tool. A missing handler answers false without touching the tag. Otherwise the tag is tried and the answer is whether it was removed. A block use runs and stamps the tick. A plain use runs only when no block use ran this tick. A throw is shown only when a handler ran. |
| Tools.Tool.Bind | BP/scripts/server/tools/base_tool.js:45-47 | The first base item becomes the tool item. |
| Tools.Tool.Unbind | BP/scripts/server/tools/base_tool.js:48-57 | Only when the tool is held: it turns back into the base item, or with no base it is cleared from every slot. |
| Tools.SameTickUseSuppressed | BP/scripts/server/tools/base_tool.js:25-43 | On the tick a block use ran, a plain use of the same tool runs no handler but still removes its tag. |
| History.Journal.constructor | src/server/commands/region/set.ts:51-64 | A journal starts empty. |
| History.Journal.Add | src/server/commands/region/set.ts:51-64 | An event is appended. |
| History.EditHistory.constructor | src/server/commands/history/undo.ts:22-31 | A history starts not recording, with no undos. |
| History.EditHistory.Record | src/server/commands/region/set.ts:52 | `record` is journalled and recording starts. |
| History.EditHistory.AddUndoStructure | src/server/commands/region/set.ts:54-59 | `addUndoStructure` is journalled with its corners and shape. |
| History.EditHistory.AddRedoStructure | src/server/commands/region/set.ts:63 | `addRedoStructure` is journalled with its corners and shape. |
| History.EditHistory.Commit | src/server/commands/region/set.ts:64 | `commit` is journalled and recording stops. |
| History.EditHistory.Cancel | src/server/commands/import-commands.ts:90-92 | `cancel` is journalled and recording stops. |
| History.EditHistory.IsRecording | src/server/commands/import-commands.ts:90 | The answer is whether the history is recording. |
| History.EditHistory.Undo | src/server/commands/history/undo.ts:26 | One undo is journalled, and the answer is the oracle's for this undo's position. |
| UndoCommand.UndoneCount | src/server/commands/history/undo.ts:25-29 | The count is at most `times`, every counted undo succeeded, and when it is short of `times` the next undo found nothing. |
| UndoCommand.NoneIffFirstRefused | src/server/commands/history/undo.ts:25-30 | The count is zero exactly when the first undo found nothing. |
| UndoCommand.CallsBounded | src/server/commands/history/undo.ts:25-29 | There are never more than `times` undo calls, and one beyond the count only when that undo found nothing. |
| UndoCommand.Undo | src/server/commands/history/undo.ts:16-31 | The count is the run of successful undos from the current position. Undos stop at the first that finds nothing, and each is journalled. The message is `worldedit.undo.none` for zero, else `worldedit.undo.undone`, with the count. |
| UndoCommand.Stopped | src/server/commands/history/undo.ts:26-28 | An undo that finds nothing after i successes makes the count i. |
| UndoCommand.Completed | src/server/commands/history/undo.ts:25-29 | `times` successful undos make the count `times`. |
| SetCommand.Tried | src/server/commands/region/set.ts:29-31 | The blocks tried are a subsequence, no longer than the selection. |
| SetCommand.TriedMembers | src/server/commands/region/set.ts:28-31 | A block is tried exactly when it is selected and passes the mask. |
| SetCommand.Places | src/server/commands/region/set.ts:33 | There is one placement per block tried. |
| SetCommand.PlacesSnoc | src/server/commands/region/set.ts:33 | One more block tried adds its placement. |
| SetCommand.CountedIsIndices | src/server/commands/region/set.ts:28-36 | The count is the number of selected positions that pass the mask and whose placement succeeded, so at most the selection size. |
| SetCommand.NoMaskTriesAll | src/server/commands/region/set.ts:29-31 | Without a mask every selected block is tried. |
| SetCommand.SetBlocks | src/server/commands/region/set.ts:24-38 | Every block passing the mask is placed in order, and the count is the placements that succeeded. |
| SetCommand.SetStep | src/server/commands/region/set.ts:28-36 | One more block keeps the placement trace and the count in step. |
| SetCommand.ChosenPattern | src/server/commands/region/set.ts:49 | The pattern is the argument unless an item is used, then the session's global pattern. |
| SetCommand.Handle | src/server/commands/region/set.ts:41-67 | An empty selection throws the no-selection error, and a missing pattern throws the no-pattern error, both with no history call. Otherwise it records, adds the undo structure (cuboid corners or none), fills without a mask, adds the redo structure (`any` or an empty list), and commits. The message carries the count. |
| SetCommand.SetEventsOrder | src/server/commands/region/set.ts:51-64 | Recording starts first and the commit comes last, with the undo structure before the block edits and the redo after. |
| SetCommand.PlacesOnly | src/server/commands/region/set.ts:33 | The fill journals only block placements. |
| Help.StrLessIrreflexive | src/server/commands/information/help.ts:51-62 | No name is less than itself. |
| Help.StrLessTotal | src/server/commands/information/help.ts:51-62 | Any two distinct strings are ordered one way or the other. |
| Help.StrLessTransitive | src/server/commands/information/help.ts:51-62 | The string order is transitive. |
| Help.CompareIsRowOrder | src/server/commands/information/help.ts:51-62 | The comparator answers -1 exactly when the row is less by name, then usage. It never answers 0. |
| Help.RowLessNegTransitive | src/server/commands/information/help.ts:51-62 | "Not less" is transitive on rows. |
| Help.RowLessTotal | src/server/commands/information/help.ts:51-62 | Distinct rows are ordered. |
| Help.RowLessAsym | src/server/commands/information/help.ts:51-62 | The row order is asymmetric. |
| Help.AliasRows | src/server/commands/information/help.ts:42-46 | One row per alias, with the usage, in alias order. |
| Help.CmdRowsCount | src/server/commands/information/help.ts:40-47 | A command yields one row per usage for its name and for each alias. |
| Help.RowsCount | src/server/commands/information/help.ts:37-48 | The number of rows is the sum over commands. |
| Help.CmdRowsMembers | src/server/commands/information/help.ts:40-47 | A row comes from a command exactly when its usage is one of the command's and its name is the command's or an alias. |
| Help.RowsMembers | src/server/commands/information/help.ts:37-48 | A row is listed exactly when some command yields it. |
| Help.AddAliasRows | src/server/commands/information/help.ts:43-45 | The alias loop appends the alias rows. |
| Help.AddCommandRows | src/server/commands/information/help.ts:39-47 | The usage loop appends the command's rows. |
| Help.BuildRows | src/server/commands/information/help.ts:37-48 | The command loop builds all rows, in order. |
| Help.InsertRow | src/server/commands/information/help.ts:51-62 | Inserting row i keeps the rows a permutation, makes the prefix through i sorted, and leaves the rest untouched. |
| Help.SwapStep | src/server/commands/information/help.ts:51-62 | One swap moves the inserted row down a place and keeps the ordering invariants. |
| Help.InsertDone | src/server/commands/information/help.ts:51-62 | Once the row stops, the prefix through i is sorted. |
| Help.SortRows | src/server/commands/information/help.ts:51-62 | The result is sorted by the comparator's order and is a permutation of the input. |
| Help.TotalPagesIsCeiling | src/server/commands/information/help.ts:64-65 | The page count is the ceiling of rows over 7, and zero exactly for no rows. |
| Help.PageWindow | src/server/commands/information/help.ts:66-70 | With rows, the page shown is the argument clamped to 1 and the last page. The window starts at a multiple of 7 inside the list and shows 1 to 7 rows. |
| Help.RowOnOnePage | src/server/commands/information/help.ts:66-70 | A row is on the page shown exactly when that page is its own page. |
| Help.Lines | src/server/commands/information/help.ts:70-73 | One line per row shown. |
| Help.ListPage | src/server/commands/information/help.ts:36-75 | The rows are sorted into a permutation of all rows. No rows gives no message (the source throws). Otherwise the message is the header with the page shown and the total, then that page's lines. |
| Help.ShowPage | src/server/commands/information/help.ts:64-74 | No page without rows. Otherwise the page text of the sorted rows. |
| Help.AppendLines | src/server/commands/information/help.ts:70-73 | The page loop appends one line per row of the window, in order. |
| Help.UsageLinesSplit | src/server/commands/information/help.ts:91-93 | The usage text splits along any split of the usages. |
| Help.UsageList | src/server/commands/information/help.ts:89-93 | The usage loop builds one `- <prefix><name> <usage>` line per usage. |
| Help.ShowCommand | src/server/commands/information/help.ts:77-96 | The single-command view has the header, then the aliases line (for any alias list, even empty) or `name:`, then the description parts only when it is non-empty, then the usage translation with every usage line. |
| Dispatch.Report | src/server/commands/import-commands.ts:86-97 | A message goes out as is with the flag. An error goes out with the flag, followed by its stack, when there is one, never on the action bar. |
| Dispatch.Dispatcher.constructor | src/server/commands/import-commands.ts:71 | The flag starts off and nothing is registered. |
| Dispatch.Dispatcher.PrintToActionBar | src/server/commands/import-commands.ts:102-104 | The flag is set. |
| Dispatch.Dispatcher.Register | src/server/commands/import-commands.ts:78-79 | One command is registered. |
| Dispatch.Dispatcher.RegisterAll | src/server/commands/import-commands.ts:73-76 | Every listed command is registered once, after those already registered, and the flag is unchanged. |
| Dispatch.Dispatcher.Dispatch | src/server/commands/import-commands.ts:79-98 | The flag is read and reset. A non-builder throws before the handler runs. The handler's journal is the command's own. A throw cancels a recording history when the player has a session. The output is the report of the result with the flag as read. |
| Dispatch.FlagIsOneShot | src/server/commands/import-commands.ts:80-104 | After `printToActionBar`, only the next command's output goes to the action bar. |

## Left out

- Printing, the chat and action bar, timers, and the engine calls are outside the model. Structure commands, entity queries, `canPlaceBlock`, tag removal and `clear` tests become oracle parameters. `Math.random` becomes the list of rolls `GenName` consumes.
- `canPlaceBlock` (src/server/util.ts:117-123) is an oracle: its own save, load and delete probe is not modelled.
- Debug output (`printDebug`) and its pending-message queue are left out.
- `hasItem` (src/server/modules/player_util.ts:17-19) is an engine `clear` test. It is modelled as membership of the item in the inventory array (`PlayerUtil.Holds`).
- `isHotbarStashed` (src/server/modules/player_util.ts:88-90) is an engine entity test. `StashHotbar` takes its answer as an input.
- `getBlockLocation` floors a floating-point position. The player's block location is an input.
- `requestDirection` (floating-point vectors, a Promise and an event listener) is not part of this model.
- The command-argument types and the side-effect imports of src/server/commands/import-commands.ts are module wiring and are left out.
- The compiled copy of the player helper and the brush subclasses under BP/scripts are not part of this model.
- RawText is a list of text and translation parts. Its own class is not part of this model.
- The edit history class is not part of this model. Only the calls the commands make on it are modelled, journalled with the block edits. An undo's outcome is an oracle on how many undos came before.
- `set`'s pattern and mask parsing (`parseArg`), and its block placement, which belongs to the pattern, are left out. The selection, the pattern choice and the placement outcome are inputs.
- Only `set`, `undo` and `help` are command handlers here. Every other handler reaches `Dispatch.Dispatcher.Dispatch` as `OtherCmd`, a stand-in that gives the events it journals and its result.
- `help` single-command view: looking up an unknown command throws in the source. The model takes the command's registration as an input.
- `help` page view: the argument parser's default for `page` is an input.
- Help.StrLess compares characters by code. JavaScript compares UTF-16 code units, which differs only outside the Basic Multilingual Plane.
- Help.ListPage: the comparator does not say how equal rows are arranged. The sorted rows therefore come back as a ghost output, proved sorted and a permutation of all rows, and the message is stated in terms of them.
- Regions.RegionsManager.SaveRegion: the source's three nested z, y, x loops are one loop over the offsets in that nesting order (`Chunks.ChunkOffsets`).
- Regions.RegionsManager.DeletePlayer: the source visits entries in the map's insertion order. The model visits them in an order it does not fix and returns it as a ghost output. The outcome does not depend on the order.
- Regions.WellFormed: an entry's data is only required to have pieces exactly when its size exceeds the limit. It does not require the piece list or the block count to match the size.
- RegionFacts.RollbackLeavesPiece: the discrepancy is shown on one concrete region (0,0,0)-(64,0,0) with a host that refuses only the second piece, not for every region.
- Tools.Tool.Bind: requires a base item, as every call site in the source checks first.
- PlayerUtil.PlayerHandler.StashHotbar: the stasher entity is a fresh, empty container array. Spawning it and its engine name tag are left out.
- The inventory item's data value, stack size and enchantments are left out. A slot holds an item id or nothing.
- Regions.RegionsManager.Save: the source looks up the player's dimension through `getDimension` (src/server/modules/player_util.ts:69-86) to run the save in. The model leaves out that lookup, its cache refresh, its throw, and the dimension the host command runs in.
- Regions.RegionsManager.Load: the model leaves out the `getDimension` lookup, its cache refresh, its throw, and the dimension the load runs in, as for Save.
- WorldHeight.WorldY.GetWorldMinY: the dimension is an input. The `getDimension` lookup that produces it, its cache refresh and its throw are not modelled here.
- WorldHeight.WorldY.GetWorldMaxY: the dimension is an input, as for GetWorldMinY. The `getDimension` lookup, its cache refresh and its throw are not modelled here.
- PlayerUtil.PlayerHandler.RestoreHotbar: the model leaves out the `getDimension` lookup that finds the stasher entity's dimension, its cache refresh and its throw. The stasher is first teleported to (0, 512, 0) in the player's dimension and then looked up among the entities at that block. The entities at (0, 512, 0) after the teleport are an input. The stasher's two teleports, to (0, 512, 0) and then to (0, -256, 0), and its final kill are not modelled.
- SetCommand.SetBlocks: the fill first looks up the player's dimension through `getDimension` (src/server/commands/region/set.ts:26). The model leaves out that lookup, its cache refresh, its throw when the player is in no dimension and has no cached one, and the dimension handed to the mask and the pattern. The mask and the placement outcome are oracles over the location alone.
- SetCommand.Handle: the model does not capture the throw of `getDimension` inside the fill (src/server/commands/region/set.ts:26). That throw comes after `record`, and the dispatcher then cancels the recording. The model's Handle answers Done for any non-empty selection with a pattern, where the source would throw in that case.
- Vectors.RegionBounds: for an empty block list the source returns the corners (+Infinity, -Infinity). The model returns None there, because its coordinates are integers.
- Block locations are unbounded integers. The engine's coordinate limits are not modelled.

## Findings

| source | as written | input that shows it | evidently intended | confidence | as-written member | corrected member |
|---|---|---|---|---|---|---|
| src/server/modules/regions.ts:64-66 | After a refused piece, the clean-up deletes `<name>_<x>_<y>_<z>` of the refused piece, once per piece already saved. | Region (0,0,0)-(64,0,0), two pieces, with a host that refuses the save of piece (64,0,0): piece (0,0,0) stays stored while the save reports failure. | Delete each saved piece `<name>_<sub>`. | not executed | RegionFacts.RollbackLeavesPiece | RegionFacts.FixedRollbackRestores |
| src/server/modules/regions.ts:137 | A chunked delete ORs in the negation of each delete's error, with the short-circuit `\|\|=`. The first accepted delete sets the error flag, and no later piece delete is sent. The entry is dropped anyway. | Region (0,0,0)-(64,0,0), two pieces, with a host that accepts every delete: only `<name>_0_0_0` is deleted, `<name>_64_0_0` stays stored with no entry to reach it, and the answer is "error". | Send every piece's delete and OR in each delete's error. | not executed | RegionFacts.WideDeleteLeaks | RegionFacts.FixedDeleteFlag |
| src/server/modules/regions.ts:151 | The player sweep deletes each entry's qualified name, but a split entry is stored only under its piece names. | A player owning a split entry: the single delete names no stored structure, and every piece stays with the host. | Delete each piece of a split entry, as `delete` does. | not executed | RegionFacts.SweepLeavesPieces | RegionFacts.FixedSweepClears |
| src/server/util.ts:77 | The height table's key for the end is `the_end`, while the dimension lookup yields `the end`. | A player standing in the end: `getWorldMinY` reads a missing row and throws. | Key the row as the lookup names the dimension. | not executed | WorldHeight.EndHasNoRow | WorldHeight.FixedLookup |
