/** Moving the selected tiles (MapEditorTileManager::CommitSelectedTileOffset). */
module TileMoves {
  import opened Geometry
  import Alloc = IdAllocator
  import DB = SpatialDatabase
  import opened TileBoxes

  function Moved(tile: MapTile, offset: Vec): MapTile {
    tile.(x := tile.x + offset.x, y := tile.y + offset.y)
  }

  /** Tile id is in the place, and under the texture, of a tile of a list. */
  predicate KeyOf(tiles: Tiles, ids: seq<nat>, id: nat)
    requires id in tiles && forall i :: i in ids ==> i in tiles
  {
    exists k :: 0 <= k < |ids| && SameKey(tiles[ids[k]], tiles[id])
  }

  /** The selected tiles are as far away as the offset says, and as they were otherwise. Exactly
      the unselected tiles that were in the place of a selected one, under its texture, are gone. */
  ghost predicate TilesMoved(before: Tiles, after: Tiles, selected: seq<nat>, offset: Vec) {
    && (forall id :: id in selected ==>
          && id in before && id in after
          && after[id].x - before[id].x == offset.x && after[id].y - before[id].y == offset.y
          && after[id].frameId == before[id].frameId && after[id].textureHash == before[id].textureHash)
    && (forall id :: id in after && id !in selected ==> id in before && after[id] == before[id])
    && forall id :: id in before && id !in selected ==> (id !in after <==> KeyOf(before, selected, id))
  }

  method MoveEntries(database: DB.SpatialDatabase, boxes: Boxes, selected: seq<nat>, removed: seq<nat>, bounds: Box, newBounds: Box)
    requires database.Valid()
    requires forall id :: id in removed && id in database.entries ==> Inside(database.entries[id], bounds)
    requires forall id :: id in selected && id in database.entries ==> Inside(database.entries[id], bounds)
    requires forall id :: id in selected ==> id in boxes && Inside(boxes[id], newBounds) && Normal(boxes[id])
    requires var entries := database.entries - DB.IdSet(removed) - DB.IdSet(selected);
      DB.FreshBatch(BatchOf(boxes, selected), entries) && DB.WithBatch(entries, BatchOf(boxes, selected)) == boxes
    modifies database
    ensures database.Valid() && database.entries == boxes
  {
    hide DB.Indexes, DB.FreshBatch, DB.WithBatch;
    database.RemoveBatch(bounds, removed);
    database.RemoveBatch(bounds, selected);
    database.InsertBatch(newBounds, BatchOf(boxes, selected));
  }

  /** The ids of a selection in ascending order. */
  method Sort(ids: seq<nat>) returns (r: seq<nat>)
    requires Distinct(ids)
    ensures Alloc.Ascending(r) && forall id :: id in r <==> id in ids
  {
    r := [];
    for k := 0 to |ids|
      invariant Alloc.Ascending(r) && forall id :: id in r <==> id in ids[..k]
    {
      assert ids[..k + 1] == ids[..k] + [ids[k]];
      assert ids[k] !in ids[..k];
      var at := 0;
      while at < |r| && r[at] < ids[k]
        invariant 0 <= at <= |r| && forall j :: 0 <= j < at ==> r[j] < ids[k]
      {
        at := at + 1;
      }
      r := r[..at] + [ids[k]] + r[at..];
    }
    assert ids[..|ids|] == ids;
  }

  method SetDifference(ids: seq<nat>, others: seq<nat>) returns (r: seq<nat>)
    ensures forall id :: id in r <==> id in ids && id !in others
  {
    r := [];
    for k := 0 to |ids|
      invariant forall id :: id in r <==> id in ids[..k] && id !in others
    {
      if ids[k] !in others {
        r := r + [ids[k]];
      }
      assert ids[..k + 1] == ids[..k] + [ids[k]];
    }
    assert ids[..|ids|] == ids;
  }

  /** After k tiles moved: the tiles removed so far are the unselected ones of nonSelected that
      have the key of one of the k. */
  ghost predicate MoveState(tiles0: Tiles, tiles: Tiles, boxes: Boxes, textures: seq<TextureInfo>, selected: seq<nat>, k: nat,
                            nonSelected: seq<nat>, removed: seq<nat>, offset: Vec)
    requires SelectionIn(selected, tiles0) && k <= |selected| && forall id :: id in nonSelected ==> id in tiles0
  {
    && Located(tiles, boxes, textures)
    && (forall id :: id in removed <==> id in nonSelected && KeyOf(tiles0, selected[..k], id))
    && (forall id :: id in tiles <==> id in tiles0 && id !in removed)
    && forall id :: id in tiles ==> tiles[id] == if id in selected[..k] then Moved(tiles0[id], offset) else tiles0[id]
  }

  lemma NextToMove(tiles0: Tiles, tiles: Tiles, boxes: Boxes, textures: seq<TextureInfo>, selected: seq<nat>, k: nat,
                   nonSelected: seq<nat>, removed: seq<nat>, offset: Vec)
    requires SelectionIn(selected, tiles0) && k < |selected|
    requires forall id :: id in nonSelected ==> id in tiles0 && id !in selected
    requires MoveState(tiles0, tiles, boxes, textures, selected, k, nonSelected, removed, offset)
    ensures Located(tiles, boxes, textures) && selected[k] in tiles && tiles[selected[k]] == tiles0[selected[k]]
  {
  }

  method MoveTiles(tiles0: Tiles, boxes0: Boxes, textures: seq<TextureInfo>, selected: seq<nat>, nonSelected: seq<nat>, offset: Vec)
    returns (tiles: Tiles, boxes: Boxes, removed: seq<nat>)
    requires Located(tiles0, boxes0, textures) && SelectionIn(selected, tiles0)
    requires forall id :: id in nonSelected ==> id in tiles0 && id !in selected
    ensures MoveState(tiles0, tiles, boxes, textures, selected, |selected|, nonSelected, removed, offset)
  {
    tiles, boxes, removed := tiles0, boxes0, [];
    assert MoveState(tiles0, tiles, boxes, textures, selected, 0, nonSelected, removed, offset);
    hide KeyOf, SameKey, Located, MoveState;
    for k := 0 to |selected|
      invariant MoveState(tiles0, tiles, boxes, textures, selected, k, nonSelected, removed, offset)
    {
      NextToMove(tiles0, tiles, boxes, textures, selected, k, nonSelected, removed, offset);
      var index := selected[k];
      var tile := tiles[index];
      ghost var removedBefore := removed;
      var tiles1, boxes1, removed1 := RemoveSameKey(tiles0, tiles, boxes, textures, nonSelected, removed, tile);
      tile := Moved(tile, offset);
      MoveStep(tiles0, tiles, boxes, tiles1, boxes1, textures, selected, k, nonSelected, removed, removed1, offset);
      tiles, boxes, removed := tiles1[index := tile], boxes1[index := GetTileBounds(textures, tile)], removed1;
    }
  }

  method RemoveSameKey(tiles0: Tiles, tiles: Tiles, boxes: Boxes, textures: seq<TextureInfo>, nonSelected: seq<nat>,
                       removed: seq<nat>, tile: MapTile)
    returns (tiles': Tiles, boxes': Boxes, removed': seq<nat>)
    requires Located(tiles, boxes, textures)
    requires forall id :: id in nonSelected ==> id in tiles0
    ensures Located(tiles', boxes', textures)
    ensures forall id :: id in removed' <==> id in removed || (id in nonSelected && SameKey(tile, tiles0[id]))
    ensures forall id :: id in tiles' <==> id in tiles && !(id in nonSelected && SameKey(tile, tiles0[id]))
    ensures forall id :: id in tiles' ==> tiles'[id] == tiles[id]
  {
    tiles', boxes', removed' := tiles, boxes, removed;
    for n := 0 to |nonSelected|
      invariant Located(tiles', boxes', textures)
      invariant forall id :: id in removed' <==> id in removed || (id in nonSelected[..n] && SameKey(tile, tiles0[id]))
      invariant forall id :: id in tiles' <==> id in tiles && !(id in nonSelected[..n] && SameKey(tile, tiles0[id]))
      invariant forall id :: id in tiles' ==> tiles'[id] == tiles[id]
    {
      var id := nonSelected[n];
      assert nonSelected[..n + 1] == nonSelected[..n] + [id];
      if SameKey(tile, tiles0[id]) {
        tiles', boxes' := tiles' - {id}, boxes' - {id};
        removed' := removed' + [id];
      }
    }
    assert nonSelected[..|nonSelected|] == nonSelected;
  }

  lemma MoveStep(tiles0: Tiles, tiles: Tiles, boxes: Boxes, tiles1: Tiles, boxes1: Boxes, textures: seq<TextureInfo>, selected: seq<nat>, k: nat,
                 nonSelected: seq<nat>, removed: seq<nat>, removed1: seq<nat>, offset: Vec)
    requires SelectionIn(selected, tiles0) && k < |selected|
    requires forall id :: id in nonSelected ==> id in tiles0 && id !in selected
    requires MoveState(tiles0, tiles, boxes, textures, selected, k, nonSelected, removed, offset)
    requires selected[k] in tiles && tiles[selected[k]] == tiles0[selected[k]]
    requires Located(tiles1, boxes1, textures)
    requires forall id :: id in removed1 <==> id in removed || (id in nonSelected && SameKey(tiles[selected[k]], tiles0[id]))
    requires forall id :: id in tiles1 <==> id in tiles && !(id in nonSelected && SameKey(tiles[selected[k]], tiles0[id]))
    requires forall id :: id in tiles1 ==> tiles1[id] == tiles[id]
    ensures var tile := Moved(tiles0[selected[k]], offset);
      MoveState(tiles0, tiles1[selected[k] := tile], boxes1[selected[k] := GetTileBounds(textures, tile)], textures, selected, k + 1,
                nonSelected, removed1, offset)
  {
    hide Located;
    LocatedStep(tiles1, boxes1, textures, selected[k], Moved(tiles0[selected[k]], offset));
    assert selected[..k + 1] == selected[..k] + [selected[k]];
    forall id | id in nonSelected
      ensures KeyOf(tiles0, selected[..k + 1], id) <==> KeyOf(tiles0, selected[..k], id) || SameKey(tiles0[selected[k]], tiles0[id])
    {
      if KeyOf(tiles0, selected[..k], id) {
        var i :| 0 <= i < k && SameKey(tiles0[selected[..k][i]], tiles0[id]);
        assert selected[..k + 1][i] == selected[..k][i];
      }
      assert selected[..k + 1][k] == selected[k];
    }
  }

  lemma MoveDone(tiles0: Tiles, boxes0: Boxes, tiles: Tiles, boxes: Boxes, textures: seq<TextureInfo>, selected: seq<nat>,
                 nonSelected: seq<nat>, removed: seq<nat>, offset: Vec, bounds: Box)
    requires Located(tiles0, boxes0, textures) && SelectionIn(selected, tiles0) && PositiveFrames(textures) && Normal(bounds)
    requires forall id :: id in nonSelected <==> id in boxes0 && BoxIntersect(bounds, boxes0[id]) && id !in selected
    requires forall id :: id in selected ==> Inside(GetTileBounds(textures, tiles0[id]), bounds)
    requires MoveState(tiles0, tiles, boxes, textures, selected, |selected|, nonSelected, removed, offset)
    ensures Located(tiles, boxes, textures) && SelectionIn(selected, tiles)
    ensures TilesMoved(tiles0, tiles, selected, offset)
    ensures forall id :: id in removed ==> id in boxes0 && id !in selected && Inside(boxes0[id], bounds)
    ensures forall id :: id in selected ==> id in tiles && id in boxes0 && Inside(boxes0[id], bounds)
  {
    assert selected[..|selected|] == selected;
    forall id | id in tiles0 && KeyOf(tiles0, selected, id) && id !in selected
      ensures id in nonSelected && Inside(boxes0[id], bounds)
    {
      var k :| 0 <= k < |selected| && SameKey(tiles0[selected[k]], tiles0[id]);
      assert selected[k] in selected;
      SameKeySameBounds(textures, tiles0[selected[k]], tiles0[id]);
      TileBoundsHoldPosition(textures, tiles0[id]);
    }
    HasMoved(tiles0, tiles, selected, offset);
    hide TilesMoved, KeyOf, SameKey;
  }

  lemma LocatedBoxes(tiles: Tiles, boxes: Boxes, textures: seq<TextureInfo>, ids: seq<nat>)
    requires Located(tiles, boxes, textures) && forall id :: id in ids ==> id in tiles
    ensures forall id :: id in ids ==> id in boxes && boxes[id] == GetTileBounds(textures, tiles[id])
  {
  }

  lemma HasMoved(tiles0: Tiles, tiles: Tiles, selected: seq<nat>, offset: Vec)
    requires forall id :: id in selected ==> id in tiles0
    requires forall id :: id in tiles <==> id in tiles0 && (id in selected || !KeyOf(tiles0, selected, id))
    requires forall id :: id in tiles ==> tiles[id] == if id in selected then Moved(tiles0[id], offset) else tiles0[id]
    ensures TilesMoved(tiles0, tiles, selected, offset)
  {
    hide KeyOf, SameKey;
  }

  lemma UnmovedStay(tiles0: Tiles, boxes0: Boxes, tiles: Tiles, boxes: Boxes, textures: seq<TextureInfo>, selected: seq<nat>,
                    nonSelected: seq<nat>, removed: seq<nat>, offset: Vec)
    requires Located(tiles0, boxes0, textures) && Located(tiles, boxes, textures) && SelectionIn(selected, tiles0)
    requires forall id :: id in nonSelected ==> id in tiles0
    requires MoveState(tiles0, tiles, boxes, textures, selected, |selected|, nonSelected, removed, offset)
    ensures forall id :: id in boxes <==> id in boxes0 && id !in removed
    ensures forall id :: id in boxes && id !in selected ==> boxes[id] == boxes0[id]
  {
    assert selected[..|selected|] == selected;
    hide GetTileBounds, KeyOf;
  }

  lemma MovedBatch(tiles0: Tiles, boxes0: Boxes, tiles: Tiles, boxes: Boxes, textures: seq<TextureInfo>, selected: seq<nat>,
                   nonSelected: seq<nat>, removed: seq<nat>, offset: Vec)
    requires Located(tiles0, boxes0, textures) && SelectionIn(selected, tiles0) && PositiveFrames(textures)
    requires Located(tiles, boxes, textures) && SelectionIn(selected, tiles)
    requires forall id :: id in nonSelected ==> id in tiles0
    requires MoveState(tiles0, tiles, boxes, textures, selected, |selected|, nonSelected, removed, offset)
    ensures forall id :: id in selected ==> id in boxes && Normal(boxes[id])
    ensures var entries := boxes0 - DB.IdSet(removed) - DB.IdSet(selected);
      DB.FreshBatch(BatchOf(boxes, selected), entries) && DB.WithBatch(entries, BatchOf(boxes, selected)) == boxes
  {
    UnmovedStay(tiles0, boxes0, tiles, boxes, textures, selected, nonSelected, removed, offset);
    BoxesAreNormal(tiles, boxes, textures);
    hide MoveState, Located, PositiveFrames, Normal, DB.FreshBatch, DB.WithBatch, BatchOf;
    BatchGivesLocations(boxes0 - DB.IdSet(removed) - DB.IdSet(selected), boxes, BatchOf(boxes, selected), selected);
  }
}
