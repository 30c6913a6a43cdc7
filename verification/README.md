# Verification of the editor, the document server and game logic

This project models the parts of the engine where state is kept in several places that have to
agree, and proves that they do.

* **Cells and boxes** (`Geometry`, `CellSets`, `EdgeSets`, `FrameEditorUtil`, `BoundaryCounts`,
  `FrameEditorBoxes`). The frame editor rasterises boxes into a grid, takes the grid apart into
  boxes again, traces its boundary and drags edges. A grid stands for a set of cells; the
  decompositions are a canonical form of that set, and the edits of both box editors are proved on
  sets of cells from the drag to what is stored.
* **Tiles** (`SpatialDatabase`, `IdAllocator`, `TileBoxes`, `TileRefresh`, `TilePreview`, `TileMoves`,
  `MapEditorTileManager`). The tile list, the boxes of tiles and the spatial database agree after
  every operation on a layer.
* **Documents** (`Documents`, `DocumentProtocol`, `DocumentServer`, `DocumentSync`,
  `DocumentClosing`, `DocumentRuns`, `DocumentCounts`, `DocumentEffects`, `DocumentEditor`).
  `DocumentProtocol` is the server as a step system; the class in `DocumentServer` has the server's
  fields and is proved to do those steps; the other modules prove what every run of the steps keeps
  and, without naming the steps, what each request does. `DocumentEditor` is the client's side: two
  copies of a document and the hot spots where they may differ.
* **Callbacks** (`DeferredOperations`, `CallbackHistory`, `DocumentEditorWidgetBase`). Operations
  issued while callbacks are being called wait in a log.
* **Entities, paths, bots** (`GameClientEntitySync`, `Decimals`, `UIPaths`, `GameController`).

`Vectors` and `Options` hold what several of them need. `dafny verify dfyconfig.toml` checks everything.

## What the code does that one might not expect

* An id allocator made for a list of used ids forgets those at or above max(16, twice their
  number) and hands them out again (`IdAllocator.FreshExactlyWhenUsedFits`). The tile manager makes
  its allocator this way, so a layer with few tiles at high indices can lose one. It does not tell
  the allocator of tiles other editors add either (`MapEditorTileManager.OtherTileOverwritten`).
* `RefreshTile` does nothing for a tile whose texture is not listed, so its box may be stale.
* `RefreshTiles` gives tiles the box of the last texture under their hash, everything else that of
  the first. It hands the database every box on the way, of which that keeps the first
  (`SpatialDatabase.SettlesWhen`).
* Of two preview tiles with one key the second may be lost (`TilePreview.PreviewTwice`).
* `RemoveTiles` leaves the selection alone, so it may come to name tiles that are gone.
* `CommitSelectedTileOffset` looks for tiles to replace where the selected tiles were, not where
  they go.
* A document that comes to be loaded while changes to it wait sends its state first and the waiting
  changes after it. `DocumentSync.NewStateExactly` says exactly when this does no harm,
  `DocumentRuns.WaitingChangeOvertaken` is a run in which it does; the next new state that finds
  nothing waiting mends it (`DocumentRuns.NewStateRepairs`).
* Only opening a file looks for an editor that has it; making a new one under the name of a file
  that is open gives one client the file under two ids. Closing ends the first of them, whichever
  was meant (`DocumentClosing.CloseExactly`, `DocumentRuns.OpenedTwice`).
* `AddHotSpot` is written to use the path of the list entry for insertions and removals, but asks
  for both at once, so the path of the list is what it uses.
* The count of unacknowledged changes is never raised, so every change from the server is taken
  over at once.
* A parent or child callback added during a later pass waits for the next change. Removed before
  that it is registered all the same (`DeferredOperations.RemovalInOrder`).
* After a child was added the selection ends in its name, and deleting the selection then throws.
* `FillWithBots` does not end when there are fewer free slots than empty teams.
* After a sync an index without an entity may still hold the handle of one that is gone.

## Model

| member | source | states |
|---|---|---|
| `Geometry.FromPoints` | Foundation/BasicTypes/BasicTypes.refl.cpp:44-50 | two points in any order give a normal box with both points in it |
| `Geometry.BoxUnion` | Foundation/BasicTypes/BasicTypeFuncs.h:78-91 | the smallest box around two, and normal when one of them is |
| `Geometry.IntersectMeansCommonCell` | Foundation/BasicTypes/BasicTypeFuncs.h:42-49 | two boxes intersect exactly when they have a cell in common |
| `Geometry.FrameIsCentred` | Foundation/BasicTypes/BasicTypes.refl.cpp:31-37 | a box around a centre has the size asked for, and as many cells before the centre as after it or one more |
| `FrameEditorUtil.FlatIndexIsBijective` | Editor/FrameEditorUtil.cpp:7-57 | y * width + x numbers the cells of a grid without gap or repeat |
| `FrameEditorUtil.FrameEditorByteArray.FromBox` | Editor/FrameEditorUtil.cpp:7-21 | the grid of one box has exactly the cells of the box and an unset ring |
| `FrameEditorUtil.FrameEditorByteArray.FromBoxes` | Editor/FrameEditorUtil.cpp:23-57 | the grid of a list of boxes has exactly the cells of all of them and an unset ring |
| `FrameEditorUtil.FrameEditorByteArray.Decompose` | Editor/FrameEditorUtil.cpp:59-185 | the two nested scans, with mark bits, return the greedy box list of the set cells, disjoint or overlapping; it has at most as many boxes as there are set cells |
| `FrameEditorUtil.FrameEditorByteArray.TakeBox` | Editor/FrameEditorUtil.cpp:68-115 | one box: widened along its first row as far as cells are available, then down as far as whole rows are; its cells but not its start are marked |
| `FrameEditorUtil.FrameEditorByteArray.ConvertToMinimalBoxes` | Editor/FrameEditorUtil.cpp:59-121 | the list is the greedy list of the set cells in which a cell serves one box, no longer than there are cells |
| `FrameEditorUtil.FrameEditorByteArray.ConvertToMaximalBoxes` | Editor/FrameEditorUtil.cpp:123-185 | the list is the greedy list of the set cells in which a box may take any set cell, no longer than there are cells |
| `CellSets.BlockedIsGreedy` | Editor/FrameEditorUtil.cpp:72-111 | a box that cannot be widened on its first row nor deepened at its width is the greedy box at its start |
| `CellSets.GreedyCoversExactly` | Editor/FrameEditorUtil.cpp:59-185 | the boxes of a greedy list cover the set cells and nothing else |
| `CellSets.MinimalIsDisjoint` | Editor/FrameEditorUtil.cpp:59-121 | the boxes of a minimal list are pairwise disjoint, though start cells are never marked |
| `CellSets.GreedyBoxUnique` | Editor/FrameEditorUtil.cpp:72-111 | a set of cells has one greedy box |
| `CellSets.GreedyListUnique` | Editor/FrameEditorUtil.cpp:59-185 | canonical form: the set of absolute cells determines the list, whatever the origin and size of the grid |
| `CellSets.DecompositionRoundTrip` | Editor/FrameEditorUtil.cpp:23-185 | decomposing the rasterised list again gives the same list |
| `CellSets.SingleBoxIsGreedy` | Editor/FrameEditorUtil.cpp:59-185 | the cells of one box decompose into that box |
| `BoundaryCounts.NoMoreBoxesThanCells` | Editor/FrameEditorUtil.cpp:59-185 | a decomposition has at most as many boxes as there are set cells |
| `FrameEditorUtil.FrameEditorByteArray.AddBox` | Editor/FrameEditorUtil.cpp:310-332 | afterwards exactly the old cells and the cells of the box are set, in this grid or, through its own minimal boxes, in a larger one; an inverted box adds nothing |
| `FrameEditorUtil.FrameEditorByteArray.RemoveBox` | Editor/FrameEditorUtil.cpp:334-355 | afterwards exactly the old cells outside the box are set, however the box lies to the grid |
| `FrameEditorUtil.FrameEditorByteArray.ConvertToEdges` | Editor/FrameEditorUtil.cpp:187-293 | the edges partition the boundary: every side of a set cell inside the ring towards an unset one lies on exactly one edge of its kind, and every edge is a maximal run; when the ring is unset these are all sides, and tops are as long in all as bottoms, and lefts as rights |
| `FrameEditorUtil.FrameEditorByteArray.TraceEdge` | Editor/FrameEditorUtil.cpp:202-222 | one edge: followed from a side not marked yet as long as sides of the kind go on; exactly its sides are marked |
| `EdgeSets.AllSidesFound` | Editor/FrameEditorUtil.cpp:196-290 | once all rows are scanned the edges found contain all sides |
| `BoundaryCounts.LengthIsSides` | Editor/FrameEditorUtil.cpp:187-293 | the edges of a kind are as long in all as there are sides of the kind |
| `BoundaryCounts.BoundaryIsBalanced` | Editor/FrameEditorUtil.cpp:187-293 | the top edges are as long as the bottom edges, and the left as the right |
| `FrameEditorUtil.FrameEditorByteArray.OffsetEdge` | Editor/FrameEditorUtil.cpp:396-486 | outward it names the box swept and moves the edge; inward it clears exactly the layers that have a full layer behind them, as long as the cells it looks at lie in the grid |
| `FrameEditorUtil.FrameEditorByteArray.DragIn` | Editor/FrameEditorUtil.cpp:440-484 | the inward loop clears the first m layers, m the largest number not above the offset such that all layers behind them are full |
| `FrameEditorUtil.FrameEditorByteArray.BoundaryDragInGrid` | Editor/FrameEditorUtil.cpp:440-484 | dragging an edge of the boundary of a grid with an unset ring inward never leaves the grid |
| `EdgeSets.ErosionDepthErodes` | Editor/FrameEditorUtil.cpp:440-484 | the number of layers cleared is such that each has a full layer behind it, and cannot be larger |
| `EdgeSets.ErosionIsUnique` | Editor/FrameEditorUtil.cpp:440-484 | only one number of layers has this property |
| `EdgeSets.ErosionLeavesBoundary` | Editor/FrameEditorUtil.cpp:440-484 | the layer behind those cleared is full, and the moved edge lies on the new boundary |
| `FrameEditorBoxes.BoxEdgeIsOnlyRun` | Editor/FrameEditorUtil.cpp:187-293 | a box has one boundary edge of each kind |
| `FrameEditorBoxes.BoxErosion` | Editor/FrameEditorUtil.cpp:440-484 | of a box at most thickness - 1 layers can be cleared |
| `FrameEditorBoxes.BoxDrag` | Editor/FrameEditorSingleBox.cpp:127-171 | dragging a side of a box by k gives the cells of the box with that side moved by max(k, 1 - thickness) |
| `FrameEditorBoxes.DragBox` | Editor/FrameEditorSingleBox.cpp:127-171 | rasterising, offsetting an edge and decomposing a single box yields one box, that one, with its edge |
| `FrameEditorBoxes.FrameEditorSingleBox.GetPreviewData` | Editor/FrameEditorSingleBox.cpp:127-171 | the preview is the box with the dragged side moved; its edge is the edge of that kind of the new box |
| `FrameEditorBoxes.FrameEditorSingleBox.constructor` | Editor/FrameEditorSingleBox.cpp:16-34 | an editor begins with the entry of its name, or without one when the list has none |
| `FrameEditorBoxes.FrameEditorSingleBox.WriteData` | Editor/FrameEditorSingleBox.cpp:101-125 | the entry of the name has the box, or a new one at the end of the list does; no other entry changes |
| `FrameEditorBoxes.FrameEditorSingleBox.DrawStart` | Editor/FrameEditorSingleBox.cpp:250-264 | a drag begins on an edge, with the current box as it is |
| `FrameEditorBoxes.FrameEditorSingleBox.DrawMove` | Editor/FrameEditorSingleBox.cpp:266-274 | the offset is how much further out from the edge the pointer is than where it started |
| `FrameEditorBoxes.FrameEditorSingleBox.DrawEnd` | Editor/FrameEditorSingleBox.cpp:276-289 | stores the preview, and nothing else, unless nothing was dragged, and ends the drag |
| `FrameEditorBoxes.FrameEditorMultiBox.GetPreviewData` | Editor/FrameEditorMultiBox.cpp:132-185 | the preview is the minimal list of exactly the edited cells: with the drawn box added, removed, or an edge dragged |
| `FrameEditorBoxes.FrameEditorMultiBox.constructor` | Editor/FrameEditorMultiBox.cpp:16-35 | an editor begins with the entry of its name, or without one when the list has none |
| `FrameEditorBoxes.FrameEditorMultiBox.WriteData` | Editor/FrameEditorMultiBox.cpp:102-130 | stores the maximal list of exactly the cells of the boxes in the entry of the name or in a new one, and changes no other |
| `FrameEditorBoxes.FrameEditorMultiBox.DrawEnd` | Editor/FrameEditorMultiBox.cpp:324-338 | stores boxes that denote exactly the edited cells, unless an edge drag went nowhere |
| `FrameEditorBoxes.FrameEditorMultiBox.DrawStart` | Editor/FrameEditorMultiBox.cpp:276-307 | alt removes; else control, or no edge under the pointer, adds; else the edge is dragged |
| `SpatialDatabase.GridModuloIsFloor` | Foundation/SpatialDatabase/SpatialDatabase.h:182-185 | the grid coordinate of a value is its floor division by the cell size, for negative values too |
| `SpatialDatabase.GridIdRoundTrip` | Foundation/SpatialDatabase/SpatialDatabase.h:163-195 | a grid id leads back to its grid box exactly for coordinates of 16 bits |
| `SpatialDatabase.IntersectingTouchSameNode` | Foundation/SpatialDatabase/SpatialDatabase.h:33-66 | two boxes that intersect touch a common grid node |
| `SpatialDatabase.InsideTouches` | Foundation/SpatialDatabase/SpatialDatabase.h:33-66 | a box around another touches every node the other touches |
| `SpatialDatabase.SpatialDatabase.VisitGrid` | Foundation/SpatialDatabase/SpatialDatabase.h:33-66 | exactly the nodes a box touches are visited, and each is left as the visitor leaves it |
| `SpatialDatabase.SpatialDatabase.Insert` | Foundation/SpatialDatabase/SpatialDatabase.cpp:11-29 | the database then indexes the old entries and the new one, exactly when the id was not indexed under another box |
| `SpatialDatabase.SpatialDatabase.InsertBatch` | Foundation/SpatialDatabase/SpatialDatabase.cpp:31-66 | the database then indexes the old entries overwritten by the batch, exactly when each node of the bounds took for each id the last box brought; when the bounds contain the batch, exactly when for each id the first box, counting the one indexed before, is the last and reaches the nodes of all others; when the batch names no id twice, exactly when no id was indexed under another box |
| `SpatialDatabase.SettlesWhen` | Foundation/SpatialDatabase/SpatialDatabase.cpp:40-63 | every node that takes the first box to reach it has the last one exactly when the first and the last are the same and reach the nodes of all others |
| `SpatialDatabase.SpatialDatabase.Remove` | Foundation/SpatialDatabase/SpatialDatabase.cpp:68-83 | the entry is gone from every node exactly when the box given reaches the nodes of the box it is indexed under |
| `SpatialDatabase.SpatialDatabase.RemoveBatch` | Foundation/SpatialDatabase/SpatialDatabase.cpp:85-108 | the entries are gone from every node exactly when the bounds reach all nodes of their boxes, which they do when they contain these |
| `SpatialDatabase.SpatialDatabase.Query` | Foundation/SpatialDatabase/SpatialDatabase.cpp:110-127 | the result is exactly the ids whose boxes intersect the box |
| `SpatialDatabase.RemoveQuickKeepsOthers` | External/sb/vector.h:33-45 | removing an element by moving the last one into its place leaves exactly the others |
| `IdAllocator.IdAllocator.WithUsed` | Foundation/Allocator/IdAllocator.cpp:27-57 | the ids that can be returned are those not used, and all at or above the initial size |
| `IdAllocator.IdAllocator.PendingIsUpcoming` | Foundation/Allocator/IdAllocator.cpp:64-93 | the ids that can be returned are those that some later call does return |
| `IdAllocator.FreshExactlyWhenUsedFits` | Foundation/Allocator/IdAllocator.cpp:27-57 | no id in use can be returned exactly when all are below max(16, twice their number) |
| `IdAllocator.ForgottenIdExample` | Foundation/Allocator/IdAllocator.cpp:27-57 | with one id 20 in use, the twenty-first call returns 20 |
| `IdAllocator.IdAllocator.Allocate` | Foundation/Allocator/IdAllocator.cpp:64-93 | the next id of the sequence comes out, the rest follow; it can no longer be returned; fails only when not growing and empty |
| `IdAllocator.IdAllocator.Release` | Foundation/Allocator/IdAllocator.cpp:95-99 | a released id is the next to be returned, before the others in their order |
| `MapEditorTileManager.MapEditorTileManager.SyncTiles` | Editor/MapEditorTileManager.cpp:36-85 | all three indexes agree afterwards, the selection is empty; ids are fresh exactly when all are below max(16, twice their number) |
| `MapEditorTileManager.MapEditorTileManager.InsertTile` | Editor/MapEditorTileManager.cpp:98-145 | replaces a tile with the same box or puts the tile at the next index; the indexes agree exactly when there was such a tile or the next index was free |
| `MapEditorTileManager.OtherTileOverwritten` | Editor/MapEditorTileManager.cpp:961-974 | after another editor adds a tile at the next index, adding a tile here loses it and the indexes no longer agree |
| `MapEditorTileManager.MapEditorTileManager.CommitPreviewTiles` | Editor/MapEditorTileManager.cpp:147-269 | of the tiles with the key of a preview tile one takes the frame the preview has for it last, previews without such a tile are put at the next indices the allocator gives out, and nothing else changes; the indexes agree exactly when no tile of another box had one of these |
| `TilePreview.PreviewShownExactly` | Editor/MapEditorTileManager.cpp:174-231 | where no two tiles have one key and the next indices are free, a preview tile is on the layer afterwards exactly when no tile had its key or the last of the preview that asks for another frame than that tile has is like it |
| `TilePreview.UnplacedAre` | Editor/MapEditorTileManager.cpp:174-205 | new tiles are the previews with the key of no tile, in order |
| `TilePreview.DistinctPreviewShown` | Editor/MapEditorTileManager.cpp:174-231 | when no two preview tiles have one key and the next indices are free all are on the layer |
| `TilePreview.PreviewTwice` | Editor/MapEditorTileManager.cpp:174-231 | frames 2 and 1 over a tile of frame 1 leave frame 2 |
| `MapEditorTileManager.MapEditorTileManager.SelectTiles` | Editor/MapEditorTileManager.cpp:271-298 | selects exactly the tiles whose box intersects the one drawn, as a scan of all tiles would |
| `MapEditorTileManager.MapEditorTileManager.DeleteSelectedTiles` | Editor/MapEditorTileManager.cpp:312-340 | removes exactly the selected tiles; the indexes agree |
| `MapEditorTileManager.MapEditorTileManager.CommitSelectedTileOffset` | Editor/MapEditorTileManager.cpp:352-438 | each selected tile is the offset away from where it was, with its frame and texture; removed are exactly the unselected tiles that were in the place of a selected one under its texture, and the rest stays; the selection is the same tiles in ascending order; the indexes agree |
| `TileMoves.MoveDone` | Editor/MapEditorTileManager.cpp:380-437 | what the loop over the selection leaves is the move as stated |
| `MapEditorTileManager.MapEditorTileManager.RemoveTiles` | Editor/MapEditorTileManager.cpp:486-523 | removes exactly the tiles given; the tile list, boxes and database agree, and the selection too exactly when none of them was selected |
| `MapEditorTileManager.MapEditorTileManager.HandleTileSheetReload` | Editor/MapEditorTileManager.cpp:907-930 | takes the textures that have a size and syncs again |
| `MapEditorTileManager.ListedTexturesAre` | Editor/MapEditorTileManager.cpp:907-930 | the textures taken are those with a width and a height, in the order of the sheet |
| `TileBoxes.TileBoundsAre` | Editor/MapEditorTileManager.cpp:1178-1194 | a tile is as large as the frame of the first texture listed under its hash, around its position, or a point when none is |
| `MapEditorTileManager.MapEditorTileManager.HandleListChange` | Editor/MapEditorTileManager.cpp:948-988 | after another editor inserted or removed a tile the indexes and the selection agree with the list; no id in use can be returned exactly when that was so and the allocator could not return the id inserted |
| `MapEditorTileManager.MapEditorTileManager.HandleChildChange` | Editor/MapEditorTileManager.cpp:990-998 | after another editor changed a tile the indexes agree exactly when its texture is listed or its box had not changed |
| `MapEditorTileManager.MapEditorTileManager.RefreshTile` | Editor/MapEditorTileManager.cpp:1000-1035 | the box of the tile is up to date exactly when its texture is listed or its box had not changed |
| `MapEditorTileManager.MapEditorTileManager.RefreshTiles` | Editor/MapEditorTileManager.cpp:1037-1102 | exactly the boxes under a texture change, to those of the last texture listed under the hash; these are the boxes of the tiles exactly when the first has frames of the same size or there is no such tile; the database indexes them exactly when for each tile the first of the boxes it gets on the way is the last and reaches the nodes of the others; nothing changes when none is listed |
| `TileRefresh.OneSizeSettles` | Editor/MapEditorTileManager.cpp:1048-1095 | textures of one size under the hash give each tile at most one new box, so the database indexes it |
| `MapEditorTileManager.MapEditorTileManager.AddTiles` | Editor/MapEditorTileManager.cpp:237-263 | new tiles are put at the next indices the allocator gives out and one batch reaches all of them; the indexes agree exactly when no tile of another box had one of these |
| `Documents.ApplyOutside` | Foundation/Document/Document.cpp:175-269 | a change touches only what is at or below its path |
| `Documents.ApplyInside` | Foundation/Document/Document.cpp:175-269 | at and below its path a change leaves what its effect makes of the subtree that was there |
| `DocumentServer.DocumentServer.HandleDocumentChange` | DocumentServer/DocumentServer.cpp:418-433 | an open document gets the change appended to those waiting and is flagged |
| `DocumentServer.DocumentServer.HandleDocumentStateChange` | DocumentServer/DocumentServer.cpp:435-458 | subscribers get the state, with the content when loaded, under the current generation, which then goes up |
| `DocumentServer.DocumentServer.OpenDocumentForClient` | DocumentServer/DocumentServer.cpp:476-520 | the document is entered when new, the client subscribes, and is sent the state |
| `DocumentEffects.OpenEnters` | DocumentServer/DocumentServer.cpp:476-520 | the client is the last subscriber and has the file last in its list; it alone is sent the document, as it was or as it was loaded |
| `DocumentServer.DocumentServer.SendPendingChanges` | DocumentServer/DocumentServer.cpp:522-563 | flagged loaded documents, in some order and each once, send what waits; nothing is flagged any more |
| `DocumentServer.DocumentServer.GetDocumentForClient` | DocumentServer/DocumentServer.cpp:565-588 | finds the open document the client has under the id |
| `DocumentServer.DocumentServer.HandleDocumentRemoved` | DocumentServer/DocumentServer.cpp:610-639 | every subscriber loses its entry and is told; the document is closed and its reference given up |
| `DocumentEffects.RemovedIsTold` | DocumentServer/DocumentServer.cpp:610-639 | what a client is sent when a file is removed is that each of its documents of the file is closed, in order, and nothing else |
| `DocumentEffects.RemovedLoses` | DocumentServer/DocumentServer.cpp:610-639 | the file is closed, and its document goes unless another links it |
| `DocumentServer.DocumentServer.Close` | DocumentServer/DocumentServer.cpp:814-853 | the first subscription of the connection and the first entry of the client go; a document nobody has is closed |
| `DocumentEffects.CloseForgets` | DocumentServer/DocumentServer.cpp:814-853 | the client loses the first entry of its list for the file and is told that the id is closed; nobody else notices |
| `DocumentEffects.CloseLoses` | DocumentServer/DocumentServer.cpp:814-853 | a document goes exactly when it is closed and nobody links it |
| `DocumentServer.DocumentServer.Disconnect` | DocumentServer/DocumentServer.cpp:97-132 | the same for all documents of a lost client |
| `DocumentEffects.DisconnectLoses` | DocumentServer/DocumentServer.cpp:97-132 | a lost client is gone and nobody is told; of its documents those go that are closed and that nobody links |
| `DocumentServer.DocumentServer.ClientConnected` | DocumentServer/DocumentServer.cpp:71-77 | a new client has no documents; one that is known keeps its own |
| `DocumentServer.DocumentServer.ChangeDocument` | DocumentServer/DocumentServer.cpp:728-813 | for a client that has and subscribes to the document: the changes, one flush, the answer; else nothing |
| `DocumentEffects.ChangeTakesEffect` | DocumentServer/DocumentServer.cpp:728-813 | a request that is accepted makes of every document what its operations make of it and is answered last of all; one that is not changes nothing |
| `DocumentServer.DocumentServer.UndoDocument` | DocumentServer/DocumentServer.cpp:877-897 | undo and redo flush whether or not the document was found |
| `DocumentEffects.UndoTakesEffect` | DocumentServer/DocumentServer.cpp:877-897 | undo does its operations exactly when the client has the document |
| `DocumentEffects.AcceptedInRuns` | DocumentServer/DocumentServer.cpp:728-813 | in every run the requests accepted are exactly those under an id the client has |
| `DocumentEffects.OpsReport` | DocumentServer/DocumentServer.cpp:418-458 | after the operations of a request wait exactly the changes made while the document was loaded or that came from a link, in order, and each new state took a generation |
| `DocumentEffects.FlushEmpties` | DocumentServer/DocumentServer.cpp:522-563 | a flush empties what waits for flagged documents that are loaded, under a new generation, and leaves what waits for others |
| `DocumentSync.ReplaySplit` | Editor/EditorContainer.cpp:736-784 | taking some packets and then the rest is taking all |
| `DocumentSync.BroadcastReaches` | DocumentServer/DocumentServer.cpp:454-457 | to the editor of each subscriber a broadcast is its own packet and nothing else, also when a connection has the document under several ids |
| `DocumentSync.BroadcastPasses` | DocumentServer/DocumentServer.cpp:454-457 | and to the editors of other documents it is nothing |
| `DocumentSync.ModifyKeeps` | DocumentServer/DocumentServer.cpp:418-433 | a change to a document, its own or by way of a link, keeps every subscriber in sync, counting what waits |
| `DocumentSync.NewStateExactly` | DocumentServer/DocumentServer.cpp:435-458 | after a new state of a document its subscribers are in sync, whether they were before or not, exactly when applying the waiting changes to the loaded document again would change nothing |
| `DocumentSync.SendPendingChangesKeeps` | DocumentServer/DocumentServer.cpp:522-563 | a flush keeps every subscriber in sync and leaves nothing flagged |
| `DocumentSync.OpenKeeps` | DocumentServer/DocumentServer.cpp:476-520 | a new subscriber is in sync, and the others stay so, also when the client has the document already |
| `DocumentClosing.CloseKeeps` | DocumentServer/DocumentServer.cpp:814-853 | closing a document keeps all who still subscribe in sync |
| `DocumentClosing.CloseExactly` | DocumentServer/DocumentServer.cpp:814-853 | a close ends exactly the first subscription of the connection to the file: that of the id given if and only if that is the first |
| `DocumentClosing.DisconnectKeeps` | DocumentServer/DocumentServer.cpp:97-132 | losing a client keeps all others subscribed and in sync |
| `DocumentClosing.RemovedKeeps` | DocumentServer/DocumentServer.cpp:610-639 | removing a file ends its subscriptions and no others, which stay in sync |
| `DocumentRuns.ServerStepKeeps` | DocumentServer/DocumentServer.cpp:62-132 | every event keeps subscriptions apart, generations, references and the synchronisation of documents on track, and a document leaves the track only by a new state that changes waiting before it undo |
| `DocumentRuns.ServerStepGrows` | DocumentServer/DocumentServer.cpp:905-920 | what was sent on a connection stays sent, whatever happens |
| `DocumentRuns.DeliverFollows` | Editor/EditorContainer.cpp:736-784 | an editor is where the packets its client took lead |
| `DocumentRuns.EveryRunKeeps` | DocumentServer/DocumentServer.cpp:418-563 | every run of connects, opens, changes, undos, reloads, closes, removals, lost connections and deliveries keeps all of it, however often a client opens a file and whatever states documents go through |
| `DocumentRuns.SubscribersConverge` | DocumentServer/DocumentServer.cpp:418-563 | in every run, a subscriber was sent generations g, g, g + 1, and so on without gap or repeat since it opened; and if the latest new state of the document did no harm to it, then, the document being loaded, the subscriber that takes what is on its way has the server's document, whatever happened to other documents or to this one before |
| `DocumentRuns.OnTrackExactly` | DocumentServer/DocumentServer.cpp:418-563 | a document is on track exactly when nobody had it, or its last new state was harmless to what waited |
| `DocumentRuns.NewStateRepairs` | DocumentServer/DocumentServer.cpp:435-458 | a document whose subscribers were left behind is on track again after a new state while nothing waits |
| `DocumentRuns.WaitingChangeOvertaken` | DocumentServer/DocumentServer.cpp:435-458 | a run of one request that changes a document, makes it fail by a link, changes it and takes the link away leaves the subscriber with the value of the first change |
| `DocumentRuns.OpenedTwice` | DocumentServer/DocumentServer.cpp:814-853 | a client that opens a file under two ids and closes the second is told so, but the first is gone and the second stays |
| `DocumentCounts.DropSubCounts` | DocumentServer/DocumentServer.cpp:824-831 | dropping a connection takes one of its subscriptions, if it has one, and none of others |
| `DocumentCounts.EveryRunCounts` | DocumentServer/DocumentServer.cpp:97-132 | in every run, opened twice or not, a client has as many entries for a file as the file has subscriptions of it; every open document has a subscriber and one reference, every other none |
| `DocumentCounts.LostLeavesNothing` | DocumentServer/DocumentServer.cpp:97-132 | a lost connection leaves no subscription behind |
| `DocumentEditor.WithHotSpotCovers` | Editor/DocumentEditorBase.cpp:196-226 | merging a path into the hot spots covers what was covered and what is under the path, and nothing else |
| `DocumentEditor.ChangeUnderHotSpot` | Editor/DocumentEditorBase.cpp:196-226 | a change to either copy leaves them agreeing wherever no hot spot is |
| `DocumentEditor.SyncAllEqual` | Editor/DocumentEditor.h:117-128 | taking over all hot spots makes the client copy the server copy |
| `DocumentEditor.InterleavingsConverge` | Editor/DocumentEditor.h:76-128 | however edits and server changes interleave, taking over the hot spots leaves what the server's changes alone make of the document |
| `DocumentEditor.DocumentEditor.AddHotSpot` | Editor/DocumentEditorBase.cpp:196-226 | the hot spots become those with the path merged in |
| `DocumentEditor.DocumentEditor.QueueChange` | Editor/DocumentEditorBase.cpp:32-55 | the change and the links it takes away are queued once, in order; outside a transaction nothing waits |
| `DocumentEditor.EntriesAre` | Editor/DocumentEditorBase.cpp:32-55 | what is queued is the change and, when it removes an entry of a list, the end of each link into that entry, in order |
| `DocumentEditor.DocumentEditor.QueueLink` | Editor/DocumentEditorBase.cpp:57-75 | a link to add or remove is queued likewise |
| `DocumentEditor.DocumentEditor.CommitQueuedChanges` | Editor/DocumentEditorBase.cpp:82-91 | what waits goes out as one request, nothing is lost, repeated or reordered, and the transaction ends |
| `DocumentEditor.DocumentEditor.Edit` | Editor/DocumentEditor.h:76-87 | an edit changes the client copy, is queued and makes its path hot: the step of an interleaving; the copies agree elsewhere |
| `DocumentEditor.DocumentEditor.SyncHotSpots` | Editor/DocumentEditor.h:117-128 | the copies are equal, there are no hot spots, and nothing was queued |
| `DocumentEditor.DocumentEditor.GotDocumentChange` | Editor/DocumentEditor.h:31-35 | the server copy takes the change and its path becomes hot: the other step; the copies agree elsewhere |
| `DocumentEditor.DocumentEditor.GotDocumentStateChange` | Editor/DocumentEditor.h:37-95 | both copies become the content of a loaded state; another state leaves them |
| `DocumentEditor.DocumentEditor.DocumentChangeComplete` | Editor/DocumentEditorBase.cpp:140-146 | the copies are equal and nothing was queued |
| `DocumentEditor.DocumentEditor.HandleDocumentServerEvent` | Editor/EditorContainer.cpp:736-784 | the server copy goes on as replaying the packet says; after content came both copies are equal |
| `DeferredOperations.IssueKeepsStep` | Editor/DocumentEditorWidgetBase.cpp:77-164 | the operation list and its two companions stay in step |
| `DeferredOperations.Flush` | Editor/DocumentEditorWidgetBase.cpp:202-218 | working off the log is applying what waits in order, and leaves nothing waiting |
| `DeferredOperations.FlushInOrder` | Editor/DocumentEditorWidgetBase.cpp:202-218 | working off the log leaves what issue order says is registered |
| `DeferredOperations.DeferredInOrder` | Editor/DocumentEditorWidgetBase.cpp:77-164 | an operation that waits comes out, for every id, as if carried out when it was issued |
| `DeferredOperations.AdditionInOrder` | Editor/DocumentEditorWidgetBase.cpp:77-97 | so does an addition carried out at once under a new id |
| `DeferredOperations.RemovalInOrder` | Editor/DocumentEditorWidgetBase.cpp:99-119 | a removal carried out at once does so for all other ids, and for its own exactly when that is not still waiting to be added |
| `DeferredOperations.RemovalOvertaken` | Editor/DocumentEditorWidgetBase.cpp:99-119 | an addition that waits, removed in between, is registered after all |
| `CallbackHistory.RemovalSilences` | Editor/DocumentEditorWidgetBase.cpp:99-119 | removing a callback no addition of which waits makes it uncallable, now and after the log |
| `CallbackHistory.RemovedIsNeverCalled` | Editor/DocumentEditorWidgetBase.cpp:166-260 | in every history in which ids are given out once, a callback removed while live is not called again |
| `CallbackHistory.RegisteredStays` | Editor/DocumentEditorWidgetBase.cpp:77-263 | a callback that is live and never removed stays live under its path, whatever else happens |
| `CallbackHistory.RegisteredIsLive` | Editor/DocumentEditorWidgetBase.cpp:202-263 | one that waits to be added and is never removed is live, under its path, once the log has been worked off |
| `DocumentEditorWidgetBase.SoundNeverCallsRemoved` | Editor/DocumentEditorWidgetBase.cpp:33-293 | of a widget in any state it can come to, no callback for parents, for children or for a path that was taken away while registered was called after that |
| `DocumentEditorWidgetBase.DocumentEditorWidgetBase.AddChangeCallback` | Editor/DocumentEditorWidgetBase.cpp:33-48 | the callback is registered under a number never drawn before, can be called, and is last in the list of its path; nothing else changes |
| `DocumentEditorWidgetBase.DocumentEditorWidgetBase.RemoveChangeCallback` | Editor/DocumentEditorWidgetBase.cpp:50-75 | it is erased from its list and its callbacks, or emptied and put down to be erased; nothing else changes |
| `DocumentEditorWidgetBase.DocumentEditorWidgetBase.AddParentChangeCallback` | Editor/DocumentEditorWidgetBase.cpp:77-97 | the addition is issued |
| `DocumentEditorWidgetBase.DocumentEditorWidgetBase.RemovParentChangeCallback` | Editor/DocumentEditorWidgetBase.cpp:99-119 | the removal is issued; a live callback is defunct at once |
| `DocumentEditorWidgetBase.DocumentEditorWidgetBase.AddChildChangeCallback` | Editor/DocumentEditorWidgetBase.cpp:121-142 | the addition is issued |
| `DocumentEditorWidgetBase.DocumentEditorWidgetBase.RemoveChildChangeCallback` | Editor/DocumentEditorWidgetBase.cpp:144-164 | the removal is issued; a live callback is defunct at once |
| `DocumentEditorWidgetBase.DocumentEditorWidgetBase.PerformAll` | Editor/DocumentEditorWidgetBase.cpp:33-164 | what a callback asks for is carried out, all of it and in order |
| `DocumentEditorWidgetBase.DocumentEditorWidgetBase.CallParents` | Editor/DocumentEditorWidgetBase.cpp:175-197 | each callback does what it does before the next is called; nobody is called twice; only callbacks live at the start that lie below the change, and all of those still live at the end |
| `DocumentEditorWidgetBase.DocumentEditorWidgetBase.CallChildren` | Editor/DocumentEditorWidgetBase.cpp:227-245 | the same for callbacks above the change |
| `DocumentEditorWidgetBase.DocumentEditorWidgetBase.CallExact` | Editor/DocumentEditorWidgetBase.cpp:276-283 | the same for the list of the path, whose ids all have their callbacks |
| `DocumentEditorWidgetBase.DocumentEditorWidgetBase.EraseDead` | Editor/DocumentEditorWidgetBase.cpp:287-292 | everything put down is erased from both maps |
| `DocumentEditorWidgetBase.DocumentEditorWidgetBase.PassParents` | Editor/DocumentEditorWidgetBase.cpp:173-223 | the pass over parents leaves their table as its log says, and everything else as the callbacks left it |
| `DocumentEditorWidgetBase.DocumentEditorWidgetBase.PassChildren` | Editor/DocumentEditorWidgetBase.cpp:225-263 | the same for children |
| `DocumentEditorWidgetBase.DocumentEditorWidgetBase.PassExact` | Editor/DocumentEditorWidgetBase.cpp:265-292 | the pass over a path, after which what was taken away is erased |
| `DocumentEditorWidgetBase.DocumentEditorWidgetBase.TriggerChangeCallbacks` | Editor/DocumentEditorWidgetBase.cpp:166-293 | three passes, each as stated, with the log worked off after the first two. Called above a change are only callbacks for paths that go on where it ends, below it those for paths that end where it goes on, at it those for its path, and of each kind all that were there and are not taken away; what was added and not removed is live afterwards. In the histories, which record every call, only live callbacks are called, and none that was taken away while live after that |
| `GameClientEntitySync.GameClientEntitySync.Visit` | GameClient/GameClientEntitySync.cpp:25-70 | one object: the entity at its index stays, is replaced or goes as its binding says, and no other changes; one that does not stay leaves the engine, and nothing else comes into it |
| `GameClientEntitySync.GameClientEntitySync.SweepTo` | GameClient/GameClientEntitySync.cpp:33-41 | entities at indices without an object go, and no others |
| `GameClientEntitySync.GameClientEntitySync.Sync` | GameClient/GameClientEntitySync.cpp:22-89 | every index is as its object asks, handles stay unshared, entities that are not the client's are untouched, and of the client's none is left in the engine but those at an index |
| `GameClientEntitySync.LiveExactlyWhenBound` | GameClient/GameClientEntitySync.cpp:22-89 | an entity of an asset lives at an index exactly when an object there is bound to the asset and it is loaded or was there already |
| `GameClientEntitySync.GameClientEntitySync.DestroyAll` | GameClient/GameClientEntitySync.cpp:91-99 | exactly the client's entities are destroyed |
| `Decimals.ValueOfToString` | Editor/UIEditor.cpp:88-99 | reading a printed number digit by digit gives it back |
| `Decimals.NoLeadingZero` | Editor/UIEditorNodeList.cpp:58-80 | a numeral does not begin with a zero, but that of zero |
| `UIPaths.GetUIForPath` | Editor/UIEditor.cpp:70-109 | the loops find what the text leads to, for any text |
| `UIPaths.LocateExactly` | Editor/UIEditor.cpp:70-109 | any text leads to a node exactly when it reads as the address of one |
| `UIPaths.LocatePrinted` | Editor/UIEditor.cpp:70-109 | the path of a node leads to it, and that of no node to nothing |
| `UIPaths.PathsDiffer` | Editor/UIEditorNodeList.cpp:58-80 | different nodes have different paths |
| `UIPaths.TraverseElement` | Editor/UIEditorNodeList.cpp:58-80 | shows the rows of the tree in order up to the first the visitor refuses; otherwise the position is back where it was, 13 further for each row |
| `UIPaths.UntilIs` | Editor/UIEditorNodeList.cpp:58-80 | what is shown is the first rows, all wanted but perhaps the last, and there is more only after one that was not |
| `UIPaths.WalkRows` | Editor/UIEditorNodeList.cpp:58-80 | each row is of a node, with its path and the name of its slot, 10 in for each level and 13 down for each row |
| `UIPaths.ListedPathsLeadBack` | Editor/UIEditorNodeList.cpp:50-80 | the path shown for a row leads back to its node, and its name is that of the slot the node is in |
| `UIPaths.NodesListedOnce` | Editor/UIEditorNodeList.cpp:50-80 | exactly the nodes of the tree are listed, a node before what is under it and that before later children, and no path twice |
| `UIPaths.RemovedNodes` | Editor/UIEditorNodeList.cpp:296-313 | exactly the subtree goes and its slot is empty; other nodes are found as before, and those above keep their element, their other slots and the names of all |
| `UIPaths.NothingToRemove` | Editor/UIEditorNodeList.cpp:296-313 | without such a node nothing changes |
| `UIPaths.DeleteSelection` | Editor/UIEditorNodeList.cpp:296-313 | deletes the selected subtree; the root and nodes that are gone are left alone; the selection that adding a child leaves cannot be deleted |
| `GameController.GameController.GetTeamCounts` | Game/GameController.refl.cpp:136-154 | counts the players of every team |
| `GameController.GameController.GetRandomTeam` | Game/GameController.refl.cpp:156-178 | picks, by the random number, among the teams with the fewest players |
| `GameController.LeastLoadedIsLeast` | Game/GameController.refl.cpp:156-178 | the team picked has no more players than any other |
| `GameController.LeastLoadedIsPicked` | Game/GameController.refl.cpp:156-178 | every team with the fewest players is picked by some random number |
| `GameController.PlayersCounted` | Game/GameController.refl.cpp:136-154 | the counts are the numbers of players of a team and of free slots |
| `GameController.TeamsCounted` | Game/GameController.refl.cpp:180-201 | and of teams in which nobody plays |
| `GameController.GameController.DoAllTeamsHavePlayers` | Game/GameController.refl.cpp:180-201 | true exactly when no team is empty |
| `GameController.GameController.AddAIPlayer` | Game/GameController.refl.cpp:109-125 | a bot takes the first free slot in a least loaded team; without a slot nothing happens |
| `GameController.BotHelps` | Game/GameController.refl.cpp:127-134 | while a team is empty a bot fills an empty team and a free slot |
| `GameController.GameController.FillWithBots` | Game/GameController.refl.cpp:127-134 | ends, having added one bot to each empty team and none to others, and overwritten nobody |
| `GameController.TooFewSlots` | Game/GameController.refl.cpp:127-134 | with fewer free slots than empty teams no number of rounds is enough |

## Left out

- Integers are unbounded: coordinates, generations, counts and indices do not wrap around.
- Rendering, dirty grids, hit testing with floating point, widgets, layout and mouse handling.
- Sockets, threads, files, JSON text, hashes: connections are queues, documents are maps from paths to values, paths in use have different hashes.
- StormData is not part of this model: a change is any effect on the subtree at its path, taking over a hot spot makes the subtree the server's, and one path matches another when it begins with it, element by element.
- Links between documents and the packets about them; what they do to dependent documents, in whatever state, is among the operations of a request. Undo lists are operations likewise.
- Saving: a failed document that is saved becomes loaded and reports it outside any flush.
- The server keeps pointers to the entries of flagged documents; that one might be closed before the flush is not modelled, since every request flushes before it ends.
- The order in which unordered maps are visited is arbitrary in `SendPendingChanges` and in the passes over callbacks; sparse lists are visited in ascending order.
- The grid is a two-dimensional array where the source has a flat one; `FlatIndexIsBijective` is why this makes no difference. The four mark bits of a cell are a set of edge kinds.
- Nodes of the user-interface tree are found by address where the source has references, and a tree is changed by making a new one. Adding nodes is left out, but for the selection it leaves.
- Callbacks are called one pass at a time; what a callback does is a list of additions and removals.
- The engine's entities are a map from handles to assets; a handle is never given out twice.
- Turn-based and rollback modes, the rest of the game rules, managers and getters: they would add only easy members.
- FrameEditorUtil.FrameEditorByteArray.OffsetEdge: inward only while the cells it looks at lie in the grid; `BoundaryDragInGrid` says that the callers keep to this.
- FrameEditorUtil.FrameEditorByteArray.AddBox: a box inverted by more than three cells is not added to a grid without set cells; the grid would have a negative size.
- SpatialDatabase.SpatialDatabase.VisitGrid: nodes are found by grid coordinates and not by the packed id; `GridIdRoundTrip` says for which coordinates the packing loses nothing.
- SpatialDatabase.SpatialDatabase.InsertBatch: boxes are not inverted, like those of `Insert`; no caller gives others.
- DocumentRuns.SubscribersConverge: for runs in which a client opens files under ids it has not used, as it numbers them. Of an editor that was closed while its subscription stayed it says what the packets amount to; the client throws them away.
- GameController.GameController.FillWithBots: with as many free slots as empty teams, since it does not end otherwise (`TooFewSlots`), and fewer than 100000 slots, the number the search for a team starts from.
