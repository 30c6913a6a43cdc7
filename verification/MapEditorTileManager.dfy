/** The tile layer of the map editor and its indexes (Editor/MapEditorTileManager.cpp):
    the tile list, the list of tile boxes and the spatial database. */
module MapEditorTileManager {
  import opened Geometry
  import Alloc = IdAllocator
  import opened Options
  import DB = SpatialDatabase
  import opened TileBoxes
  import opened TileMoves
  import opened TilePreview
  import opened TileRefresh
  import opened Vectors

  /** Some tile has the box that a tile would have. */
  predicate BoxTaken(textures: seq<TextureInfo>, tiles: Tiles, tile: MapTile) {
    exists id :: id in tiles && GetTileBounds(textures, tiles[id]) == GetTileBounds(textures, tile)
  }

  /** A tile with the same box is replaced unless it looks the same already; if there is none,
      the tile is put at the next index. */
  ghost predicate TilePut(textures: seq<TextureInfo>, before: Tiles, after: Tiles, tile: MapTile, next: nat) {
    if BoxTaken(textures, before, tile) then
      exists id ::
        && id in before && GetTileBounds(textures, before[id]) == GetTileBounds(textures, tile)
        && after == if before[id].frameId == tile.frameId && before[id].textureHash == tile.textureHash then before
                    else before[id := tile]
    else after == before[next := tile]
  }

  function ListedTextures(sheet: seq<TextureInfo>): seq<TextureInfo> {
    if sheet == [] then []
    else
      var last := sheet[|sheet| - 1];
      ListedTextures(sheet[..|sheet| - 1]) + if last.frameWidth <= 0 || last.frameHeight <= 0 then [] else [last]
  }

  /** Which textures of a sheet have a size. */
  ghost function HaveSize(sheet: seq<TextureInfo>): (r: seq<bool>)
    ensures |r| == |sheet|
  {
    seq(|sheet|, k requires 0 <= k < |sheet| => sheet[k].frameWidth > 0 && sheet[k].frameHeight > 0)
  }

  /** These are taken, in the order of the sheet. */
  lemma {:induction false} ListedTexturesAre(sheet: seq<TextureInfo>) returns (at: seq<nat>)
    ensures SetAt(at, HaveSize(sheet)) && (forall j :: 0 <= j < |at| ==> at[j] < |sheet|)
    ensures ListedTextures(sheet) == Picked(sheet, at)
  {
    at := [];
    if sheet == [] {
      NoneSet();
      assert HaveSize(sheet) == [];
    } else {
      var n := |sheet| - 1;
      var flag := sheet[n].frameWidth > 0 && sheet[n].frameHeight > 0;
      var init := ListedTexturesAre(sheet[..n]);
      assert HaveSize(sheet) == HaveSize(sheet[..n]) + [flag];
      PickedSnoc(sheet, init, HaveSize(sheet[..n]), flag);
      at := if flag then init + [n] else init;
      hide SetAt, HaveSize;
    }
  }

  /** An allocator that knows of the indices in use, as far as it has room for them. */
  method AllocatorFor(tiles: Tiles, usedIndices: seq<nat>) returns (allocator: Alloc.IdAllocator)
    requires Alloc.Ascending(usedIndices) && forall id :: id in usedIndices <==> id in tiles
    ensures fresh(allocator) && fresh(allocator.ids) && allocator.Valid() && allocator.grow
    ensures (forall id :: id in tiles ==> id !in allocator.Pending())
      <==> forall id :: id in tiles ==> id < Max(16, 2 * |tiles|)
  {
    hide Alloc.Chain;
    allocator := new Alloc.IdAllocator.WithUsed(|usedIndices| * 2, usedIndices, true);
    AscendingCount(usedIndices, tiles);
    Alloc.FreshExactlyWhenUsedFits(usedIndices);
  }

  class MapEditorTileManager {
    var layer: Option<Tiles>
    var initialSyncComplete: bool
    var locations: Boxes
    var database: DB.SpatialDatabase
    var idAllocator: Alloc.IdAllocator
    var textures: seq<TextureInfo>
    var previewTiles: seq<MapTile>
    var selectedTiles: seq<nat>
    var selectedTileOffset: Vec

    ghost predicate Ready()
      reads this
    {
      layer.Some? && initialSyncComplete
    }

    /** The parts are sound, whether or not they agree. */
    ghost predicate Sound()
      reads this, database, idAllocator, idAllocator.ids
    {
      PositiveFrames(textures) && database.Valid() && idAllocator.Valid() && idAllocator.grow
    }

    /** Once the first sync is complete, the tile list, the location list and the spatial
        database have the same ids, each box is the box of its tile, and the selection
        is a set of tiles. */
    ghost predicate Valid()
      reads this, database, idAllocator, idAllocator.ids
    {
      && Sound()
      && (Ready() ==>
           && Located(layer.value, locations, textures)
           && database.entries == locations
           && SelectionIn(selectedTiles, layer.value))
    }

    /** No id the allocator can still return is in use. */
    ghost predicate IdsFresh()
      reads this, idAllocator, idAllocator.ids
    {
      layer.Some? ==> forall id :: id in layer.value ==> id !in idAllocator.Pending()
    }

    /** Nothing is indexed until the first sync. */
    constructor (layer: Option<Tiles>)
      ensures Valid() && !initialSyncComplete && this.layer == layer && textures == []
      ensures fresh(database) && fresh(idAllocator) && fresh(idAllocator.ids)
    {
      this.layer := layer;
      initialSyncComplete := false;
      locations := map[];
      database := new DB.SpatialDatabase();
      idAllocator := new Alloc.IdAllocator.WithUsed(0, [], true);
      textures, previewTiles, selectedTiles := [], [], [];
      selectedTileOffset := Vec(0, 0);
    }

    /** The box around the tiles of a list. */
    method GetTilesBounds(ids: seq<nat>) returns (bounds: Option<Box>)
      requires Sound() && layer.Some?
      requires forall id :: id in ids ==> id in layer.value
      ensures bounds.Some? <==> ids != []
      ensures bounds.Some? ==> Normal(bounds.value)
      ensures bounds.Some? ==> forall id :: id in ids ==> Inside(GetTileBounds(textures, layer.value[id]), bounds.value)
    {
      bounds := None;
      for k := 0 to |ids|
        invariant bounds.Some? <==> k > 0
        invariant bounds.Some? ==> Normal(bounds.value)
        invariant forall j :: 0 <= j < k ==> Inside(GetTileBounds(textures, layer.value[ids[j]]), bounds.value)
      {
        TileBoundsHoldPosition(textures, layer.value[ids[k]]);
        bounds := AddToBounds(bounds, GetTileBounds(textures, layer.value[ids[k]]));
      }
    }

    /** Builds all indexes anew. The new allocator forgets ids in use beyond its size. */
    method SyncTiles()
      requires Sound()
      modifies this`selectedTiles, this`selectedTileOffset, this`locations, this`database, this`idAllocator, this`initialSyncComplete
      ensures Valid() && layer == old(layer) && textures == old(textures)
      ensures selectedTiles == [] && selectedTileOffset == Vec(0, 0)
      ensures layer.Some? ==> Ready() && fresh(database) && fresh(idAllocator) && fresh(idAllocator.ids)
      ensures layer.Some? ==> (IdsFresh() <==> forall id :: id in layer.value ==> id < Max(16, 2 * |layer.value|))
    {
      hide DB.Indexes, DB.WithBatch, DB.FreshBatch, Alloc.Chain, GetTileBounds, PositiveFrames, Inside, Normal, Located;
      selectedTileOffset := Vec(0, 0);
      selectedTiles := [];
      if layer.None? {
        return;
      }
      var usedIndices := Indices(layer.value);
      var boxes, extents := BoxTiles(layer.value, textures, usedIndices);
      locations := boxes;
      database := IndexBoxes(layer.value, boxes, textures, usedIndices, extents);
      idAllocator := AllocatorFor(layer.value, usedIndices);
      initialSyncComplete := true;
    }

    /** Puts a tile in the place of one with the same box, unless that looks the same. */
    method ReplaceTile(id: nat, tile: MapTile)
      requires Valid() && Ready() && id in layer.value && locations[id] == GetTileBounds(textures, tile)
      modifies this`layer, this`locations, database
      ensures Valid() && layer.Some? && layer.value.Keys == old(layer.value).Keys
      ensures TilePut(textures, old(layer.value), layer.value, tile, old(idAllocator.Upcoming(0)))
      ensures BoxTaken(textures, old(layer.value), tile)
    {
      hide DB.Indexes, Alloc.Chain, GetTileBounds;
      assert GetTileBounds(textures, layer.value[id]) == GetTileBounds(textures, tile);
      if layer.value[id].frameId == tile.frameId && layer.value[id].textureHash == tile.textureHash {
        return;
      }
      layer := Some(layer.value[id := tile]);
      assert layer.value - {id} == old(layer.value) - {id};
      RefreshTile(id);
    }

    /** Puts a tile with a box nobody has at the next index. */
    method AddTile(tile: MapTile)
      requires Valid() && Ready() && !BoxTaken(textures, layer.value, tile)
      modifies this`layer, this`locations, database, idAllocator, idAllocator.ids
      ensures layer == Some(old(layer.value)[old(idAllocator.Upcoming(0)) := tile])
      ensures Valid() <==> old(idAllocator.Upcoming(0)) !in old(layer.value)
      ensures old(IdsFresh()) ==> Valid() && IdsFresh()
    {
      hide DB.Indexes, Alloc.Chain, GetTileBounds, PositiveFrames;
      var box := GetTileBounds(textures, tile);
      TileBoundsHoldPosition(textures, tile);
      idAllocator.PendingIsUpcoming(idAllocator.Upcoming(0));
      var id := idAllocator.Allocate();
      LocatedStep(layer.value, locations, textures, id, tile);
      layer := Some(layer.value[id := tile]);
      locations := locations[id := box];
      database.Insert(box, id);
    }

    /** Adds a tile under the next id, or replaces one with the same box. A tile that has the
        next id, which the allocator may not know of, is lost, and then the database still
        finds it. */
    method InsertTile(tile: MapTile)
      requires Valid()
      modifies this`layer, this`locations, database, idAllocator, idAllocator.ids
      ensures selectedTiles == old(selectedTiles) && textures == old(textures)
      ensures !old(Ready()) ==> Valid() && layer == old(layer)
      ensures old(Ready()) ==>
        layer.Some? && TilePut(textures, old(layer.value), layer.value, tile, old(idAllocator.Upcoming(0)))
      ensures old(Ready()) ==>
        (Valid() <==> BoxTaken(textures, old(layer.value), tile) || old(idAllocator.Upcoming(0)) !in old(layer.value))
      ensures old(IdsFresh()) ==> Valid() && IdsFresh()
    {
      hide DB.Indexes, Alloc.Chain;
      if layer.None? || !initialSyncComplete {
        return;
      }
      var box := GetTileBounds(textures, tile);
      TileBoundsHoldPosition(textures, tile);
      var existing := database.Query(Box(Vec(tile.x, tile.y), Vec(tile.x, tile.y)));
      for k := 0 to |existing|
        invariant forall j :: 0 <= j < k ==> locations[existing[j]] != box
      {
        var id := existing[k];
        if locations[id] == box {
          ReplaceTile(id, tile);
          return;
        }
      }
      assert !BoxTaken(textures, layer.value, tile);
      AddTile(tile);
    }

    /** Brings the box of one tile up to date. A tile whose texture is not listed keeps its
        old box, so the indexes agree again exactly when the texture is listed or the box
        had not changed. */
    method RefreshTile(index: nat)
      requires Sound() && Ready()
      requires database.entries == locations && locations.Keys == layer.value.Keys
      requires SelectionIn(selectedTiles, layer.value)
      requires Located(layer.value - {index}, locations - {index}, textures)
      modifies this`locations, database
      ensures Sound() && database.entries == locations && locations.Keys == layer.value.Keys
      ensures locations - {index} == old(locations) - {index}
      ensures index in layer.value && Listed(textures, layer.value[index]) ==> locations[index] == GetTileBounds(textures, layer.value[index])
      ensures index in layer.value && !Listed(textures, layer.value[index]) ==> locations == old(locations)
      ensures Valid() <==>
        (index !in layer.value ||
         Listed(textures, layer.value[index]) ||
         GetTileBounds(textures, layer.value[index]) == old(locations)[index])
    {
      hide DB.Indexes, Alloc.Chain;
      if index !in layer.value {
        assert layer.value - {index} == layer.value && locations - {index} == locations;
        return;
      }
      var tile := layer.value[index];
      TileBoundsHoldPosition(textures, tile);
      for k := 0 to |textures|
        invariant forall j :: 0 <= j < k ==> textures[j].nameHash != tile.textureHash
      {
        if textures[k].nameHash == tile.textureHash {
          var newBox := GetTextureBounds(tile, textures[k]);
          FirstListedBounds(textures, tile, k);
          var oldBox := locations[index];
          if newBox == oldBox {
            OneTileLocated(layer.value, locations, textures, index);
            return;
          }
          database.Remove(oldBox, index);
          database.Insert(newBox, index);
          locations := locations[index := newBox];
          assert locations - {index} == old(locations) - {index};
          OneTileLocated(layer.value, locations, textures, index);
          return;
        }
      }
      OneTileLocated(layer.value, locations, textures, index);
    }

    /** Selects exactly the tiles whose box intersects the one drawn. */
    method SelectTiles(box: Box)
      requires Valid() && Normal(box)
      modifies this`selectedTiles, this`selectedTileOffset
      ensures Valid()
      ensures !Ready() ==> selectedTiles == old(selectedTiles) && selectedTileOffset == old(selectedTileOffset)
      ensures Ready() ==> selectedTileOffset == Vec(0, 0)
      ensures Ready() ==> forall id :: id in selectedTiles <==>
        id in layer.value && BoxIntersect(box, GetTileBounds(textures, layer.value[id]))
    {
      if layer.None? || !initialSyncComplete {
        return;
      }
      selectedTiles := database.Query(box);
      selectedTileOffset := Vec(0, 0);
    }

    method ClearSelection()
      requires Valid()
      modifies this`selectedTiles, this`selectedTileOffset
      ensures Valid() && selectedTiles == []
      ensures selectedTileOffset == if old(selectedTiles) == [] then old(selectedTileOffset) else Vec(0, 0)
    {
      if |selectedTiles| > 0 {
        selectedTiles := [];
        selectedTileOffset := Vec(0, 0);
      }
    }

    /** Removes the selected tiles and no others. */
    method DeleteSelectedTiles()
      requires Valid()
      modifies this`layer, this`locations, this`selectedTiles, database
      ensures Valid() && idAllocator == old(idAllocator)
      ensures !old(Ready()) ==> layer == old(layer)
      ensures old(Ready()) ==> layer == Some(old(layer.value) - DB.IdSet(old(selectedTiles))) && selectedTiles == []
    {
      hide DB.Indexes, Alloc.Chain;
      if layer.None? || !initialSyncComplete || |selectedTiles| == 0 {
        assert layer.Some? ==> layer.value - DB.IdSet([]) == layer.value;
        return;
      }
      var bounds := GetTilesBounds(selectedTiles);
      database.RemoveBatch(bounds.value, selectedTiles);
      var tiles := RemoveAll(layer.value, selectedTiles);
      layer := Some(tiles);
      locations := RemoveAll(locations, selectedTiles);
      selectedTiles := [];
    }

    /** Removes tiles by index; the box around what they had reaches all of them. The selection is
        left as it is, so none of them may be selected. */
    method RemoveTiles(ids: seq<nat>)
      requires Valid()
      requires Ready() ==> SelectionIn(ids, layer.value)
      modifies this`layer, this`locations, database
      ensures Sound() && selectedTiles == old(selectedTiles) && textures == old(textures) && idAllocator == old(idAllocator)
      ensures old(Ready()) ==> layer.Some? && Located(layer.value, locations, textures) && database.entries == locations
      ensures Valid() <==> !old(Ready()) || forall id :: id in ids ==> id !in selectedTiles
      ensures !old(Ready()) ==> layer == old(layer)
      ensures old(Ready()) ==> layer == Some(old(layer.value) - DB.IdSet(ids))
    {
      hide DB.Indexes, Alloc.Chain;
      if layer.None? || !initialSyncComplete {
        return;
      }
      BoxesAreNormal(layer.value, locations, textures);
      var deadBox := BoundsOfBoxes(locations, ids);
      if deadBox.Some? {
        database.RemoveBatch(deadBox.value, ids);
      } else {
        assert locations - DB.IdSet([]) == locations;
      }
      var tiles := RemoveAll(layer.value, ids);
      layer := Some(tiles);
      locations := RemoveAll(locations, ids);
    }

    /** A change another editor made to the list: the list has it already, the indexes follow. */
    method HandleListChange(change: ListChange, subIndex: nat, newLayer: Option<Tiles>)
      requires Valid()
      requires change.InsertChange? && layer.Some? && newLayer.Some? ==>
        subIndex !in layer.value && newLayer.value - {subIndex} == layer.value
      requires change.RemoveChange? && layer.Some? && newLayer.Some? ==>
        subIndex in layer.value && newLayer.value == layer.value - {subIndex}
      requires layer.None? ==> newLayer.None?
      modifies this`layer, this`selectedTiles, this`selectedTileOffset, this`locations, this`database, this`idAllocator
      modifies this`initialSyncComplete, database
      ensures Valid() && layer == newLayer && textures == old(textures)
      ensures !change.OtherChange? ==>
        database == old(database) && idAllocator == old(idAllocator) && initialSyncComplete == old(initialSyncComplete)
      ensures change.RemoveChange? && old(Ready()) && layer.Some? ==>
        forall id :: id in selectedTiles <==> id in old(selectedTiles) && id != subIndex
      ensures change.InsertChange? && old(layer).Some? && layer.Some? && subIndex in layer.value ==>
        (IdsFresh() <==> old(IdsFresh()) && subIndex !in idAllocator.Pending())
      ensures change.RemoveChange? && old(layer).Some? && old(IdsFresh()) ==> IdsFresh()
    {
      hide DB.Indexes, Alloc.Chain;
      ghost var before := layer;
      layer := newLayer;
      if change.InsertChange? && before.Some? && layer.Some? {
        InsertedLocated(before.value, layer.value, subIndex);
      }
      if layer.None? || !initialSyncComplete {
        return;
      }
      if change.InsertChange? {
        if subIndex !in layer.value {
          assert layer.value == before.value;
          return;
        }
        var box := GetTileBounds(textures, layer.value[subIndex]);
        TileBoundsHoldPosition(textures, layer.value[subIndex]);
        locations := locations[subIndex := box];
        database.Insert(box, subIndex);
      } else if change.RemoveChange? {
        selectedTiles := RemoveQuick(selectedTiles, subIndex);
        var box := locations[subIndex];
        locations := locations - {subIndex};
        database.Remove(box, subIndex);
      } else {
        SyncTiles();
      }
    }

    /** Another editor changed a tile in place. */
    method HandleChildChange(index: nat, tile: MapTile)
      requires Valid() && Ready() && index in layer.value
      modifies this`layer, this`locations, database
      ensures layer == Some(old(layer.value)[index := tile])
      ensures Valid() <==> Listed(textures, tile) || GetTileBounds(textures, tile) == old(locations)[index]
    {
      layer := Some(layer.value[index := tile]);
      assert layer.value - {index} == old(layer.value) - {index};
      RefreshTile(index);
    }

    /** A tile sheet came in: takes the textures that have a size, then starts again. */
    method HandleTileSheetReload(sheet: seq<TextureInfo>)
      requires Sound()
      modifies this`textures, this`selectedTiles, this`selectedTileOffset, this`locations, this`database, this`idAllocator, this`initialSyncComplete
      ensures Valid() && layer == old(layer)
      ensures textures == ListedTextures(sheet)
    {
      textures := [];
      for k := 0 to |sheet|
        invariant textures == ListedTextures(sheet[..k])
        invariant layer == old(layer) && database == old(database) && idAllocator == old(idAllocator)
        invariant Sound()
      {
        assert sheet[..k + 1][..k] == sheet[..k];
        if sheet[k].frameWidth <= 0 || sheet[k].frameHeight <= 0 {
          continue;
        }
        textures := textures + [sheet[k]];
      }
      assert sheet[..|sheet|] == sheet;
      SyncTiles();
    }

    /** A texture changed size: brings the boxes under its hash up to date. They become those of
        the last texture listed under the hash, and are those of the tiles, which go by the
        first, exactly when the two have frames of one size or there are no such tiles. The
        database takes them in one batch and is right exactly when they settle. */
    method RefreshTiles(textureHash: int)
      requires Sound()
      requires Ready() ==> database.entries == locations && locations.Keys == layer.value.Keys
      requires Ready() ==> SelectionIn(selectedTiles, layer.value) && forall id :: id in locations ==> Normal(locations[id])
      modifies this`locations, database
      ensures !Ready() ==> Sound() && locations == old(locations) && database.entries == old(database.entries)
      ensures Ready() ==> database.entries == locations && locations.Keys == layer.value.Keys
      ensures Ready() ==> BoxesFrom(layer.value, old(locations), locations, LastListed(textures, textureHash), textureHash)
      ensures Ready() && LastListed(textures, textureHash).Some? ==>
        (Refreshed(layer.value, locations, textures, textureHash) <==>
         NoTiles(layer.value, textureHash) || FirstAndLastAgree(textures, textureHash))
      ensures Ready() ==> (Sound() <==> AllSettle(layer.value, old(locations), textures, textureHash))
      ensures Ready() && (OneSize(textures, textureHash) || NoTiles(layer.value, textureHash)) ==> Sound()
    {
      hide DB.Indexes, Alloc.Chain, GetTileBounds, PositiveFrames, Inside, Normal, DB.WithBatch, DB.FreshBatch, DB.Settles, DB.BoxesFor,
        NewBoxes, OneSize, StaleSound;
      if layer.None? || !initialSyncComplete {
        return;
      }
      ghost var before := locations;
      var stale := FindStale(layer.value, locations, textures, textureHash);
      StaleHasBoxes(locations, stale);
      RefreshedWhen(layer.value, locations, stale.boxes, textures, textureHash);
      OneSizeSettles(layer.value, locations, textures, textureHash);
      StaleBatch(locations, stale);
      StaleSettles(layer.value, locations, stale, textures, textureHash);
      locations := stale.boxes;
      if |stale.ids| > 0 {
        database.RemoveBatch(stale.deadBox.value, stale.ids);
        database.InsertBatch(stale.newBox.value, stale.elems);
      } else {
        NothingStale(before, stale);
      }
    }

    /** Puts one new tile with its box at an id. */
    method PlaceTile(tiles: Tiles, boxes: Boxes, bounds: Option<Box>, id: nat, tile: MapTile, ghost ids: seq<nat>, ghost added: seq<MapTile>)
      returns (tiles': Tiles, boxes': Boxes, wider: Option<Box>)
      requires PositiveFrames(textures) && layer.Some? && id !in ids
      requires AddedTiles(layer.value, locations, tiles, boxes, textures, ids, added, bounds)
      ensures wider.Some? && AddedTiles(layer.value, locations, tiles', boxes', textures, ids + [id], added + [tile], wider)
    {
      hide Located, AddedTiles, PositiveFrames, GetTileBounds, Normal, Inside, In;
      var box := GetTileBounds(textures, tile);
      TileBoundsHoldPosition(textures, tile);
      BoundsNormal(layer.value, locations, tiles, boxes, textures, ids, added, bounds);
      wider := AddToBounds(bounds, box);
      AddOneTile(layer.value, locations, tiles, boxes, textures, ids, added, bounds, id, tile, wider);
      tiles', boxes' := tiles[id := tile], boxes[id := box];
    }

    /** Gives new tiles the next ids. */
    method PlaceTiles(newTiles: seq<MapTile>) returns (ids: seq<nat>, tiles: Tiles, boxes: Boxes, bounds: Option<Box>)
      requires Valid() && Ready()
      modifies idAllocator, idAllocator.ids
      ensures idAllocator.Valid() && idAllocator.Pending() <= old(idAllocator.Pending())
      ensures forall id :: id in ids ==> id in old(idAllocator.Pending())
      ensures forall id :: id in ids ==> id !in idAllocator.Pending()
      ensures ids == old(idAllocator.UpcomingIds(|newTiles|))
      ensures bounds.Some? <==> newTiles != []
      ensures AddedTiles(layer.value, locations, tiles, boxes, textures, ids, newTiles, bounds)
    {
      hide DB.Indexes, Alloc.Chain, DB.FreshBatch, DB.WithBatch, Located, AddedTiles, PositiveFrames, GetTileBounds, Normal, Inside, In,
        SelectionIn, Alloc.IdAllocator.Upcoming, Alloc.IdAllocator.Pending;
      ids, bounds, tiles, boxes := [], None, layer.value, locations;
      NoTilesAdded(tiles, boxes, textures);
      for k := 0 to |newTiles|
        invariant idAllocator.Valid() && (idAllocator.ids == old(idAllocator.ids) || fresh(idAllocator.ids))
        invariant idAllocator.Pending() <= old(idAllocator.Pending())
        invariant forall id :: id in ids ==> id !in idAllocator.Pending() && id in old(idAllocator.Pending())
        invariant forall n: nat :: idAllocator.Upcoming(n) == old(idAllocator.Upcoming(n + k))
        invariant |ids| == k && forall j :: 0 <= j < k ==> ids[j] == old(idAllocator.Upcoming(j))
        invariant bounds.Some? <==> k > 0
        invariant AddedTiles(layer.value, locations, tiles, boxes, textures, ids, newTiles[..k], bounds)
      {
        var id := idAllocator.Allocate();
        tiles, boxes, bounds := PlaceTile(tiles, boxes, bounds, id, newTiles[k], ids, newTiles[..k]);
        assert newTiles[..k] + [newTiles[k]] == newTiles[..k + 1];
        ids := ids + [id];
      }
      assert newTiles[..|newTiles|] == newTiles;
    }

    /** Gives new tiles the next ids and indexes them in one batch. */
    method AddTiles(newTiles: seq<MapTile>)
      requires Valid() && Ready() && newTiles != []
      modifies this`layer, this`locations, database, idAllocator, idAllocator.ids
      ensures layer.Some? && TilesAdded(old(layer.value), layer.value, newTiles, old(idAllocator.UpcomingIds(|newTiles|)))
      ensures Valid() <==> IdsFit(textures, old(layer.value), newTiles, old(idAllocator.UpcomingIds(|newTiles|)))
      ensures old(IdsFresh()) ==> Valid() && IdsFresh()
    {
      hide DB.Indexes, Alloc.Chain, DB.FreshBatch, DB.WithBatch, DB.Agrees, DB.DistinctIds, DB.Brought, DB.LastAt, DB.BoxesFor, DB.Settles,
        Located, AddedTiles, TilesAdded, PositiveFrames, GetTileBounds, Normal, Inside, Distinct;
      var ids, tiles, boxes, bounds := PlaceTiles(newTiles);
      AddedBatch(layer.value, locations, tiles, boxes, textures, ids, newTiles, bounds);
      database.InsertBatch(bounds.value, BatchOf(boxes, ids));
      layer, locations := Some(tiles), boxes;
    }

    /** Stores tiles that have the boxes there are, and adds new ones. */
    method StoreTiles(tiles: Tiles, newTiles: seq<MapTile>, bounds: Box)
      requires Valid() && Ready() && tiles.Keys == layer.value.Keys && Located(tiles, locations, textures)
      modifies this`layer, this`locations, database, idAllocator, idAllocator.ids
      ensures layer.Some? && TilesAdded(tiles, layer.value, newTiles, old(idAllocator.UpcomingIds(|newTiles|)))
      ensures Valid() <==> IdsFit(textures, tiles, newTiles, old(idAllocator.UpcomingIds(|newTiles|)))
      ensures old(IdsFresh()) ==> Valid() && IdsFresh()
    {
      hide DB.Indexes, Alloc.Chain, DB.FreshBatch, DB.WithBatch, DB.Agrees, DB.DistinctIds, DB.Brought, DB.LastAt, DB.BoxesFor, DB.Settles,
        Located, TilesAdded, IdsFit, PositiveFrames, GetTileBounds, Normal, Inside, Distinct;
      NoneAdded(textures, tiles, tiles);
      layer := Some(tiles);
      EmptyBatch(database.entries);
      database.InsertBatch(bounds, []);
      if |newTiles| > 0 {
        AddTiles(newTiles);
      }
    }

    /** Commits the tiles being previewed: replaces the ones in the same place under the same
        texture, puts the others at the next ids. A tile that has one of these is lost, and the
        indexes then agree only if it had the same box. */
    method CommitPreviewTiles()
      requires Valid()
      modifies this`layer, this`locations, database, idAllocator, idAllocator.ids
      ensures previewTiles == old(previewTiles) && textures == old(textures) && selectedTiles == old(selectedTiles)
      ensures !old(Ready()) ==> Valid() && layer == old(layer)
      ensures old(Ready()) ==>
        var newTiles := Unplaced(old(layer.value), previewTiles);
        var ids := old(idAllocator.UpcomingIds(|Unplaced(layer.value, previewTiles)|));
        && layer.Some? && PreviewCommitted(old(layer.value), layer.value, previewTiles, ids)
        && (Valid() <==> IdsFit(textures, old(layer.value), newTiles, ids))
      ensures old(IdsFresh()) ==> Valid() && IdsFresh()
    {
      hide DB.Indexes, Alloc.Chain, DB.FreshBatch, DB.WithBatch, DB.Agrees, DB.DistinctIds, DB.Brought, DB.LastAt, DB.BoxesFor, DB.Settles,
        Located, Unplaced, Overwritten, Winner, Matches, Normal, Inside, Distinct, LastFor,
        PreviewPut, PreviewCommitted, TilesAdded, BoxIntersect, SameKey, PositiveFrames, In, IdsFit, GetTileBounds;
      if layer.None? || !initialSyncComplete {
        return;
      }
      ghost var tiles0 := layer.value;
      if |previewTiles| == 0 {
        NothingCommitted(textures, tiles0);
        return;
      }
      LocatedKeys(tiles0, locations, textures);
      var bounds := PreviewBounds(previewTiles);
      var existing := database.Query(bounds);
      SameKeysExist(tiles0, locations, textures, existing, bounds, previewTiles);
      var replaced, newTiles := MatchPreview(layer.value, existing, previewTiles);
      var tiles := ReplaceTiles(layer.value, replaced);
      MatchedAll(tiles0, tiles, existing, previewTiles, replaced);
      ghost var ids := idAllocator.UpcomingIds(|newTiles|);
      NoneAdded(textures, tiles, tiles0);
      if |replaced| == 0 && |newTiles| == 0 {
        CommittedBy(tiles0, tiles, layer.value, previewTiles, ids);
        return;
      }
      SameKeysLocated(layer.value, tiles, locations, textures);
      FitAfterPut(textures, tiles0, tiles, newTiles, ids);
      StoreTiles(tiles, newTiles, bounds);
      CommittedBy(tiles0, tiles, layer.value, previewTiles, ids);
    }

    /** Moves the selected tiles. An unselected tile under the same texture where a selected one
        was before the move is removed. The selection comes out sorted. */
    method CommitSelectedTileOffset()
      requires Valid()
      modifies this`layer, this`locations, this`selectedTiles, this`selectedTileOffset, database
      ensures Valid() && idAllocator == old(idAllocator) && textures == old(textures)
      ensures forall id :: id in selectedTiles <==> id in old(selectedTiles)
      ensures !old(Ready()) || selectedTiles == [] || old(selectedTileOffset) == Vec(0, 0) ==>
        layer == old(layer) && selectedTiles == old(selectedTiles)
      ensures old(Ready()) && selectedTiles != [] && old(selectedTileOffset) != Vec(0, 0) ==>
        && layer.Some? && TilesMoved(old(layer.value), layer.value, selectedTiles, old(selectedTileOffset))
        && Alloc.Ascending(selectedTiles) && selectedTileOffset == Vec(0, 0)
    {
      hide DB.Indexes, Alloc.Chain, DB.FreshBatch, DB.WithBatch, Located, MoveState, TilesMoved, KeyOf, GetTileBounds,
        PositiveFrames, BoxIntersect, Inside;
      if |selectedTiles| == 0 || layer.None? || !initialSyncComplete || selectedTileOffset == Vec(0, 0) {
        return;
      }
      ghost var tiles0, boxes0 := layer.value, locations;
      LocatedKeys(tiles0, boxes0, textures);
      var bounds := GetTilesBounds(selectedTiles);
      var existing := database.Query(bounds.value);
      var sorted := Sort(selectedTiles);
      assert selectedTiles[0] in sorted;
      selectedTiles := sorted;
      var nonSelected := SetDifference(existing, selectedTiles);
      MoveSelected(nonSelected, bounds.value);
      selectedTileOffset := Vec(0, 0);
    }

    /** nonSelected are the other tiles in the bounds of those selected. */
    method MoveSelected(nonSelected: seq<nat>, bounds: Box)
      requires Valid() && Ready() && selectedTiles != [] && Normal(bounds)
      requires forall id :: id in nonSelected <==> id in locations && BoxIntersect(bounds, locations[id]) && id !in selectedTiles
      requires forall id :: id in selectedTiles ==> Inside(GetTileBounds(textures, layer.value[id]), bounds)
      modifies this`layer, this`locations, database
      ensures Valid() && layer.Some? && TilesMoved(old(layer.value), layer.value, selectedTiles, selectedTileOffset)
    {
      hide DB.Indexes, Alloc.Chain, DB.FreshBatch, DB.WithBatch, Located, MoveState, TilesMoved, KeyOf, GetTileBounds,
        PositiveFrames, BoxIntersect, Inside, Normal;
      ghost var tiles0, boxes0 := layer.value, locations;
      LocatedKeys(tiles0, boxes0, textures);
      var tiles, boxes, removed := MoveTiles(layer.value, locations, textures, selectedTiles, nonSelected, selectedTileOffset);
      MoveDone(tiles0, boxes0, tiles, boxes, textures, selectedTiles, nonSelected, removed, selectedTileOffset, bounds);
      layer, locations := Some(tiles), boxes;
      LocatedBoxes(tiles, boxes, textures, selectedTiles);
      var newBounds := GetTilesBounds(selectedTiles);
      MovedBatch(tiles0, boxes0, tiles, boxes, textures, selectedTiles, nonSelected, removed, selectedTileOffset);
      MoveEntries(database, boxes, selectedTiles, removed, bounds, newBounds.value);
    }
  }

  /** Another editor adds a tile at the index the allocator gives out next, and then this one
      adds a tile elsewhere: the other tile is gone and the indexes no longer agree. */
  method OtherTileOverwritten(manager: MapEditorTileManager, other: MapTile, tile: MapTile, next: nat)
    requires manager.Valid() && manager.Ready() && manager.IdsFresh() && next == manager.idAllocator.Upcoming(0)
    requires !BoxTaken(manager.textures, manager.layer.value[next := other], tile)
    modifies manager, manager.database, manager.idAllocator, manager.idAllocator.ids
    ensures manager.layer == Some(old(manager.layer.value)[next := tile]) && !manager.Valid()
  {
    manager.idAllocator.PendingIsUpcoming(next);
    ghost var tiles := manager.layer.value;
    var withOther: Tiles := manager.layer.value[next := other];
    var newLayer := Some(withOther);
    assert newLayer.value - {next} == manager.layer.value;
    manager.HandleListChange(InsertChange, next, newLayer);
    manager.InsertTile(tile);
    assert withOther[next := tile] == tiles[next := tile];
  }
}
