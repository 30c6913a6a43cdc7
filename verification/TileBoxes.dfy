/** Tiles, their boxes, and lists of them (Editor/MapEditorTileManager.cpp). */
module TileBoxes {
  import opened Geometry
  import Alloc = IdAllocator
  import opened Options
  import DB = SpatialDatabase
  import Vectors

  datatype MapTile = MapTile(x: int, y: int, frameId: int, textureHash: int)

  datatype TextureInfo = TextureInfo(nameHash: int, frameWidth: int, frameHeight: int)

  datatype ListChange = InsertChange | RemoveChange | OtherChange

  /** The box of a tile: that of the first texture listed under its hash, else a point. */
  function GetTileBounds(textures: seq<TextureInfo>, tile: MapTile): Box {
    if textures == [] then FromPoint(Vec(tile.x, tile.y))
    else if textures[0].nameHash == tile.textureHash then GetTextureBounds(tile, textures[0])
    else GetTileBounds(textures[1..], tile)
  }

  function GetTextureBounds(tile: MapTile, tex: TextureInfo): Box {
    FromFrameCenterAndSize(Vec(tile.x, tile.y), Vec(tex.frameWidth, tex.frameHeight))
  }

  predicate SameKey(a: MapTile, b: MapTile) {
    a.x == b.x && a.y == b.y && a.textureHash == b.textureHash
  }

  ghost predicate PositiveFrames(textures: seq<TextureInfo>) {
    forall k :: 0 <= k < |textures| ==> textures[k].frameWidth > 0 && textures[k].frameHeight > 0
  }

  lemma {:induction false} TileBoundsHoldPosition(textures: seq<TextureInfo>, tile: MapTile)
    requires PositiveFrames(textures)
    ensures Normal(GetTileBounds(textures, tile)) && In(GetTileBounds(textures, tile), Vec(tile.x, tile.y))
  {
    if textures != [] {
      assert textures[0].frameWidth > 0;
      TileBoundsHoldPosition(textures[1..], tile);
    }
  }

  lemma {:induction false} SameKeySameBounds(textures: seq<TextureInfo>, a: MapTile, b: MapTile)
    requires SameKey(a, b)
    ensures GetTileBounds(textures, a) == GetTileBounds(textures, b)
  {
    if textures != [] {
      SameKeySameBounds(textures[1..], a, b);
    }
  }

  type Tiles = map<nat, MapTile>
  type Boxes = map<nat, Box>

  /** Every tile has its box in the location list and nothing else does. */
  ghost predicate Located(tiles: Tiles, locations: Boxes, textures: seq<TextureInfo>) {
    tiles.Keys == locations.Keys && forall id :: id in tiles ==> locations[id] == GetTileBounds(textures, tiles[id])
  }

  ghost predicate Distinct(s: seq<nat>) {
    forall i, j :: 0 <= i < j < |s| ==> s[i] != s[j]
  }

  ghost predicate SelectionIn(selected: seq<nat>, tiles: Tiles) {
    Distinct(selected) && forall id :: id in selected ==> id in tiles
  }

  method AddToBounds(bounds: Option<Box>, b: Box) returns (r: Option<Box>)
    requires Normal(b) && (bounds.Some? ==> Normal(bounds.value))
    ensures r.Some? && Normal(r.value) && Inside(b, r.value)
    ensures bounds.Some? ==> forall c :: Inside(c, bounds.value) ==> Inside(c, r.value)
  {
    match bounds
    case None => r := Some(b);
    case Some(value) => r := Some(BoxUnion(value, b));
  }

  /** The indices in use, in the order a sparse list visits them. */
  method Indices<T>(list: map<nat, T>) returns (ids: seq<nat>)
    ensures Alloc.Ascending(ids)
    ensures forall id :: id in ids <==> id in list
  {
    var keys := list.Keys;
    var highest := -1;
    while keys != {}
      invariant keys <= list.Keys
      invariant -1 <= highest
      invariant forall id :: id in list && id !in keys ==> id <= highest
      decreases |keys|
    {
      var id :| id in keys;
      keys := keys - {id};
      if id > highest {
        highest := id;
      }
    }
    ids := [];
    for index := 0 to highest + 1
      invariant Alloc.Ascending(ids)
      invariant forall k :: 0 <= k < |ids| ==> ids[k] < index
      invariant forall id :: id in ids <==> id in list && id < index
    {
      if index in list {
        ids := ids + [index];
      }
    }
  }

  function BatchOf(locations: Boxes, ids: seq<nat>): (r: seq<DB.Elem>)
    requires forall id :: id in ids ==> id in locations
    ensures |r| == |ids| && forall k :: 0 <= k < |ids| ==> r[k] == DB.Elem(ids[k], locations[ids[k]])
  {
    seq(|ids|, k requires 0 <= k < |ids| => DB.Elem(ids[k], locations[ids[k]]))
  }

  /** A batch with the boxes of some ids, added to what the other ids have, gives them all. */
  lemma BatchGivesLocations(entries: Boxes, locations: Boxes, batch: seq<DB.Elem>, ids: seq<nat>)
    requires Distinct(ids) && |batch| == |ids|
    requires forall k :: 0 <= k < |ids| ==> ids[k] in locations && batch[k] == DB.Elem(ids[k], locations[ids[k]])
    requires forall id :: id in entries ==> id !in ids
    requires forall id :: id in locations && id !in ids ==> id in entries && entries[id] == locations[id]
    requires forall id :: id in entries ==> id in locations
    requires forall id :: id in locations ==> Normal(locations[id])
    ensures DB.FreshBatch(batch, entries) && forall k :: 0 <= k < |batch| ==> Normal(batch[k].box)
    ensures DB.WithBatch(entries, batch) == locations
  {
    var result := DB.WithBatch(entries, batch);
    forall id ensures id in result <==> id in locations
              ensures id in locations ==> result[id] == locations[id]
    {
      DB.BatchLookup(entries, batch, id);
      if id in ids {
        var k :| 0 <= k < |ids| && ids[k] == id;
        assert batch[k].id == id;
        assert DB.HasId(batch, id);
      }
      assert DB.HasId(batch, id) ==> id in ids;
    }
  }

  ghost function BatchIds(elems: seq<DB.Elem>): set<nat> {
    set k | 0 <= k < |elems| :: elems[k].id
  }

  /** Taking away first what a batch brings makes no difference. */
  lemma {:induction false} BatchOverwrites(entries: Boxes, gone: set<nat>, elems: seq<DB.Elem>)
    ensures DB.WithBatch(entries - gone, elems) == DB.WithBatch(entries, elems) - (gone - BatchIds(elems))
  {
    if elems != [] {
      var init, last := elems[..|elems| - 1], elems[|elems| - 1];
      BatchOverwrites(entries, gone, init);
      assert BatchIds(elems) == BatchIds(init) + {last.id} by {
        forall id | id in BatchIds(init) ensures id in BatchIds(elems) {
          var k :| 0 <= k < |init| && init[k].id == id;
          assert elems[k].id == id;
        }
      }
    }
  }

  /** Finds the tile of a list that a tile would replace. */
  method FindSameKey(tiles: Tiles, ids: seq<nat>, tile: MapTile) returns (index: int)
    requires forall id :: id in ids ==> id in tiles
    ensures -1 <= index < |ids|
    ensures index >= 0 ==> SameKey(tiles[ids[index]], tile) && forall k :: 0 <= k < index ==> !SameKey(tiles[ids[k]], tile)
    ensures index < 0 ==> forall id :: id in ids ==> !SameKey(tiles[id], tile)
  {
    index := 0;
    while index < |ids|
      invariant 0 <= index <= |ids|
      invariant forall k :: 0 <= k < index ==> !SameKey(tiles[ids[k]], tile)
    {
      if SameKey(tiles[ids[index]], tile) {
        return;
      }
      index := index + 1;
    }
    index := -1;
  }

  predicate Listed(textures: seq<TextureInfo>, tile: MapTile) {
    exists k :: 0 <= k < |textures| && textures[k].nameHash == tile.textureHash
  }

  lemma {:induction false} FirstListedBounds(textures: seq<TextureInfo>, tile: MapTile, k: nat)
    requires k < |textures| && textures[k].nameHash == tile.textureHash
    requires forall j :: 0 <= j < k ==> textures[j].nameHash != tile.textureHash
    ensures GetTileBounds(textures, tile) == GetTextureBounds(tile, textures[k])
  {
    if k > 0 {
      FirstListedBounds(textures[1..], tile, k - 1);
    }
  }

  lemma {:induction false} UnlistedBounds(textures: seq<TextureInfo>, tile: MapTile)
    requires forall j :: 0 <= j < |textures| ==> textures[j].nameHash != tile.textureHash
    ensures GetTileBounds(textures, tile) == FromPoint(Vec(tile.x, tile.y))
  {
    if textures != [] {
      UnlistedBounds(textures[1..], tile);
    }
  }

  ghost predicate FirstUnder(textures: seq<TextureInfo>, tile: MapTile, k: nat) {
    && k < |textures| && textures[k].nameHash == tile.textureHash
    && forall j :: 0 <= j < k ==> textures[j].nameHash != tile.textureHash
  }

  /** A tile is as large as the frame of the first texture under its hash and lies around its
      position; one whose texture is not listed is a point. */
  lemma TileBoundsAre(textures: seq<TextureInfo>, tile: MapTile)
    requires PositiveFrames(textures)
    ensures var b := GetTileBounds(textures, tile);
      forall k: nat :: FirstUnder(textures, tile, k) ==>
        && b.end.x - b.start.x + 1 == textures[k].frameWidth && b.end.y - b.start.y + 1 == textures[k].frameHeight
        && 0 <= (tile.x - b.start.x) - (b.end.x - tile.x) <= 1 && 0 <= (tile.y - b.start.y) - (b.end.y - tile.y) <= 1
    ensures !Listed(textures, tile) ==> GetTileBounds(textures, tile) == Box(Vec(tile.x, tile.y), Vec(tile.x, tile.y))
  {
    forall k: nat | FirstUnder(textures, tile, k) ensures GetTileBounds(textures, tile) == GetTextureBounds(tile, textures[k]) {
      FirstListedBounds(textures, tile, k);
    }
    if !Listed(textures, tile) {
      UnlistedBounds(textures, tile);
    }
  }

  lemma LocatedStep(tiles: Tiles, boxes: Boxes, textures: seq<TextureInfo>, id: nat, tile: MapTile)
    requires Located(tiles, boxes, textures)
    ensures Located(tiles[id := tile], boxes[id := GetTileBounds(textures, tile)], textures)
  {
  }

  lemma OneTileLocated(tiles: Tiles, locations: Boxes, textures: seq<TextureInfo>, index: nat)
    requires tiles.Keys == locations.Keys && index in tiles
    requires Located(tiles - {index}, locations - {index}, textures)
    ensures Located(tiles, locations, textures) <==> locations[index] == GetTileBounds(textures, tiles[index])
  {
    forall id | id in tiles && id != index ensures locations[id] == GetTileBounds(textures, tiles[id]) {
      assert id in tiles - {index};
    }
  }

  lemma InsertedLocated(before: Tiles, after: Tiles, index: nat)
    requires index !in before && after - {index} == before
    ensures forall id :: id in after && id != index <==> id in before
    ensures forall id :: id in before ==> after[id] == before[id]
  {
    forall id | id in before ensures id in after && after[id] == before[id] {
      assert id in after - {index};
    }
    forall id | id in after && id != index ensures id in before {
      assert id in after - {index};
    }
  }

  /** Empties the slots of a sparse list one by one. */
  method RemoveAll<T>(list: map<nat, T>, ids: seq<nat>) returns (r: map<nat, T>)
    ensures r == list - DB.IdSet(ids)
  {
    r := list;
    for k := 0 to |ids|
      invariant r == list - DB.IdSet(ids[..k])
    {
      r := r - {ids[k]};
      assert ids[..k + 1] == ids[..k] + [ids[k]];
    }
    assert ids[..|ids|] == ids;
  }

  method BoundsOfBoxes(boxes: Boxes, ids: seq<nat>) returns (bounds: Option<Box>)
    requires forall id :: id in ids ==> id in boxes && Normal(boxes[id])
    ensures bounds.Some? <==> ids != []
    ensures bounds.Some? ==> forall id :: id in ids ==> Inside(boxes[id], bounds.value)
  {
    bounds := None;
    for k := 0 to |ids|
      invariant bounds.Some? <==> k > 0
      invariant bounds.Some? ==> Normal(bounds.value)
      invariant forall j :: 0 <= j < k ==> Inside(boxes[ids[j]], bounds.value)
    {
      bounds := AddToBounds(bounds, boxes[ids[k]]);
    }
  }

  /** Removes one occurrence by moving the last element into its place. */
  method RemoveQuick(s: seq<nat>, value: nat) returns (r: seq<nat>)
    requires Distinct(s)
    ensures Distinct(r) && forall v :: v in r <==> v in s && v != value
  {
    for index := 0 to |s|
      invariant forall j :: 0 <= j < index ==> s[j] != value
    {
      if s[index] == value {
        r := Vectors.RemoveIndexQuick(s, index);
        forall v | v in s && v != value ensures v in r {
          var k :| 0 <= k < |s| && s[k] == v;
          assert r[if k == |s| - 1 then index else k] == v;
        }
        return;
      }
    }
    r := s;
  }

  /** The boxes of all tiles and the box around them. */
  method BoxTiles(tiles: Tiles, textures: seq<TextureInfo>, ids: seq<nat>) returns (boxes: Boxes, extents: Option<Box>)
    requires PositiveFrames(textures) && forall id :: id in ids <==> id in tiles
    ensures Located(tiles, boxes, textures)
    ensures extents.Some? <==> ids != []
    ensures forall id :: id in ids ==> Inside(boxes[id], extents.value)
  {
    boxes, extents := map[], None;
    for k := 0 to |ids|
      invariant extents.Some? <==> k > 0
      invariant extents.Some? ==> Normal(extents.value)
      invariant forall id :: id in boxes <==> id in ids[..k]
      invariant forall id :: id in boxes ==> boxes[id] == GetTileBounds(textures, tiles[id]) && Inside(boxes[id], extents.value)
    {
      var box := GetTileBounds(textures, tiles[ids[k]]);
      TileBoundsHoldPosition(textures, tiles[ids[k]]);
      extents := AddToBounds(extents, box);
      boxes := boxes[ids[k] := box];
      assert ids[..k + 1] == ids[..k] + [ids[k]];
    }
    assert ids[..|ids|] == ids;
  }

  /** A database of the boxes of all tiles. */
  method IndexBoxes(tiles: Tiles, boxes: Boxes, textures: seq<TextureInfo>, ids: seq<nat>, extents: Option<Box>)
    returns (database: DB.SpatialDatabase)
    requires PositiveFrames(textures) && Located(tiles, boxes, textures)
    requires Alloc.Ascending(ids) && forall id :: id in ids <==> id in tiles
    requires extents.Some? <==> ids != []
    requires forall id :: id in ids ==> Inside(boxes[id], extents.value)
    ensures fresh(database) && database.Valid() && database.entries == boxes
  {
    hide DB.Indexes, DB.WithBatch, DB.FreshBatch, GetTileBounds, PositiveFrames, Inside, Normal;
    database := new DB.SpatialDatabase();
    if extents.Some? {
      BoxesAreNormal(tiles, boxes, textures);
      BatchGivesLocations(map[], boxes, BatchOf(boxes, ids), ids);
      database.InsertBatch(extents.value, BatchOf(boxes, ids));
    } else {
      assert boxes == map[];
    }
  }

  lemma BoxesAreNormal(tiles: Tiles, locations: Boxes, textures: seq<TextureInfo>)
    requires Located(tiles, locations, textures) && PositiveFrames(textures)
    ensures forall id :: id in locations ==> Normal(locations[id])
  {
    forall id | id in locations ensures Normal(locations[id]) {
      TileBoundsHoldPosition(textures, tiles[id]);
    }
  }

  lemma {:induction false} AscendingCount<T>(ids: seq<nat>, list: map<nat, T>)
    requires Alloc.Ascending(ids) && forall id :: id in ids <==> id in list
    ensures |ids| == |list|
  {
    if ids == [] {
      assert list == map[];
    } else {
      var last := ids[|ids| - 1];
      var rest := list - {last};
      forall id ensures id in ids[..|ids| - 1] <==> id in rest {
        if id in rest {
          var k :| 0 <= k < |ids| && ids[k] == id;
          assert ids[..|ids| - 1][k] == id;
        }
      }
      AscendingCount(ids[..|ids| - 1], rest);
      assert list.Keys == rest.Keys + {last};
    }
  }
}
