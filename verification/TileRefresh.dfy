/** What a texture that changed size does to the boxes under its hash
    (MapEditorTileManager::RefreshTiles). */
module TileRefresh {
  import opened Geometry
  import opened Options
  import DB = SpatialDatabase
  import opened TileBoxes

  ghost function LastListed(textures: seq<TextureInfo>, hash: int): Option<TextureInfo> {
    if textures == [] then None
    else
      var last := textures[|textures| - 1];
      if last.nameHash == hash then Some(last) else LastListed(textures[..|textures| - 1], hash)
  }

  ghost predicate SameSize(a: TextureInfo, b: TextureInfo) {
    a.frameWidth == b.frameWidth && a.frameHeight == b.frameHeight
  }

  /** All textures listed under the hash have frames of one size. */
  ghost predicate OneSize(textures: seq<TextureInfo>, hash: int) {
    forall i, j :: 0 <= i < |textures| && 0 <= j < |textures| && textures[i].nameHash == hash && textures[j].nameHash == hash ==>
      SameSize(textures[i], textures[j])
  }

  ghost predicate FirstAndLastAgree(textures: seq<TextureInfo>, hash: int) {
    forall k :: 0 <= k < |textures| && textures[k].nameHash == hash && LastListed(textures[..k], hash).None? ==>
      LastListed(textures, hash).Some? && SameSize(textures[k], LastListed(textures, hash).value)
  }

  ghost predicate NoTiles(tiles: Tiles, hash: int) {
    forall id :: id in tiles ==> tiles[id].textureHash != hash
  }

  /** The boxes under the hash are those a texture gives, if any, and the others as before. */
  ghost predicate BoxesFrom(tiles: Tiles, before: Boxes, after: Boxes, texture: Option<TextureInfo>, hash: int)
    requires tiles.Keys == before.Keys == after.Keys
  {
    forall id :: id in tiles ==>
      after[id] == if tiles[id].textureHash == hash && texture.Some? then GetTextureBounds(tiles[id], texture.value) else before[id]
  }

  ghost predicate Refreshed(tiles: Tiles, boxes: Boxes, textures: seq<TextureInfo>, hash: int)
    requires tiles.Keys == boxes.Keys
  {
    forall id :: id in tiles && tiles[id].textureHash == hash ==> boxes[id] == GetTileBounds(textures, tiles[id])
  }

  lemma {:induction false} LastListedIs(textures: seq<TextureInfo>, hash: int)
    ensures LastListed(textures, hash).None? <==> forall k :: 0 <= k < |textures| ==> textures[k].nameHash != hash
    ensures LastListed(textures, hash).Some? ==> exists k ::
      && 0 <= k < |textures| && textures[k] == LastListed(textures, hash).value
      && forall j :: k < j < |textures| ==> textures[j].nameHash != hash
    ensures LastListed(textures, hash).Some? ==> LastListed(textures, hash).value.nameHash == hash
  {
    if textures != [] {
      var init := textures[..|textures| - 1];
      LastListedIs(init, hash);
      if k :| 0 <= k < |init| && init[k].nameHash == hash {
        assert textures[k] == init[k];
      }
      if LastListed(init, hash).Some? && textures[|init|].nameHash != hash {
        var k :| 0 <= k < |init| && init[k] == LastListed(init, hash).value && forall j :: k < j < |init| ==> init[j].nameHash != hash;
        assert textures[k] == init[k] && forall j :: k < j < |init| ==> textures[j] == init[j];
      } else if textures[|init|].nameHash == hash {
        assert textures[|init|] == LastListed(textures, hash).value;
      }
    }
  }

  lemma NotListedBefore(textures: seq<TextureInfo>, k: nat, hash: int)
    requires k <= |textures|
    ensures LastListed(textures[..k], hash).None? <==> forall j :: 0 <= j < k ==> textures[j].nameHash != hash
  {
    LastListedIs(textures[..k], hash);
    assert forall j :: 0 <= j < k ==> textures[..k][j] == textures[j];
  }

  /** A texture listed under a hash for the first time. */
  lemma FirstListedExists(textures: seq<TextureInfo>, hash: int) returns (first: nat)
    requires LastListed(textures, hash).Some?
    ensures first < |textures| && textures[first].nameHash == hash
    ensures forall k :: 0 <= k < first ==> textures[k].nameHash != hash
  {
    LastListedIs(textures, hash);
    first := 0;
    while textures[first].nameHash != hash
      invariant first < |textures| && forall k :: 0 <= k < first ==> textures[k].nameHash != hash
      invariant exists k :: 0 <= k < |textures| && textures[k].nameHash == hash
      decreases |textures| - first
    {
      first := first + 1;
    }
  }

  /** The box of a tile gives the size of the frame away. */
  lemma SameBoxSameSize(tile: MapTile, a: TextureInfo, b: TextureInfo)
    ensures GetTextureBounds(tile, a) == GetTextureBounds(tile, b) <==> SameSize(a, b)
  {
  }

  lemma RefreshedWhen(tiles: Tiles, before: Boxes, after: Boxes, textures: seq<TextureInfo>, hash: int)
    requires tiles.Keys == before.Keys == after.Keys && BoxesFrom(tiles, before, after, LastListed(textures, hash), hash)
    ensures LastListed(textures, hash).Some? ==>
      (Refreshed(tiles, after, textures, hash) <==> NoTiles(tiles, hash) || FirstAndLastAgree(textures, hash))
  {
    if LastListed(textures, hash).Some? {
      var last := LastListed(textures, hash).value;
      var first := FirstListedExists(textures, hash);
      NotListedBefore(textures, first, hash);
      assert FirstAndLastAgree(textures, hash) <==> SameSize(textures[first], last) by {
        forall k | 0 <= k < |textures| && textures[k].nameHash == hash && LastListed(textures[..k], hash).None? ensures k == first {
          NotListedBefore(textures, k, hash);
        }
      }
      forall id | id in tiles && tiles[id].textureHash == hash
        ensures after[id] == GetTileBounds(textures, tiles[id]) <==> SameSize(textures[first], last)
      {
        FirstListedBounds(textures, tiles[id], first);
        SameBoxSameSize(tiles[id], textures[first], last);
      }
    }
  }

  /** The boxes as they now are, the changes that led there in order, with their tiles, and the
      boxes around what tiles had and what they got. */
  datatype StaleSet = Stale(boxes: Boxes, ids: seq<nat>, elems: seq<DB.Elem>, deadBox: Option<Box>, newBox: Option<Box>)

  ghost predicate StaleSound(stale: StaleSet, locations: Boxes) {
    && stale.boxes.Keys == locations.Keys && (forall id :: id in locations ==> Normal(stale.boxes[id]))
    && stale.boxes == DB.WithBatch(locations, stale.elems)
    && |stale.elems| == |stale.ids| && (forall k :: 0 <= k < |stale.ids| ==> stale.elems[k].id == stale.ids[k])
    && (forall id :: id in stale.ids ==> id in locations)
    && (stale.deadBox.Some? <==> stale.ids != []) && (stale.newBox.Some? <==> stale.ids != [])
    && (stale.ids != [] ==>
          && Normal(stale.deadBox.value) && Normal(stale.newBox.value)
          && (forall id :: id in stale.ids ==> Inside(locations[id], stale.deadBox.value))
          && forall k :: 0 <= k < |stale.elems| ==> Inside(stale.elems[k].box, stale.newBox.value) && Normal(stale.elems[k].box))
    && (forall id :: id in locations && id !in stale.ids ==> stale.boxes[id] == locations[id])
  }

  method AddStale(stale: StaleSet, id: nat, newBox: Box, ghost locations: Boxes) returns (r: StaleSet)
    requires StaleSound(stale, locations) && id in locations && Normal(newBox)
    ensures StaleSound(r, locations)
    ensures r.boxes == stale.boxes[id := newBox]
    ensures forall i :: DB.BoxesOf(r.elems, i) == DB.BoxesOf(stale.elems, i) + if i == id then [newBox] else []
  {
    hide Inside, Normal;
    var dead := AddToBounds(stale.deadBox, stale.boxes[id]);
    var wider := AddToBounds(stale.newBox, newBox);
    var elem := DB.Elem(id, newBox);
    r := Stale(stale.boxes[id := newBox], stale.ids + [id], stale.elems + [elem], dead, wider);
    assert (stale.elems + [elem])[..|stale.elems|] == stale.elems;
  }

  /** The boxes a tile gets as the textures are gone through, each different from the one before. */
  ghost function NewBoxes(tile: MapTile, box: Box, textures: seq<TextureInfo>): seq<Box> {
    if textures == [] then []
    else
      var init, last := NewBoxes(tile, box, textures[..|textures| - 1]), textures[|textures| - 1];
      init + if last.nameHash == tile.textureHash then NextBoxes(tile, BoxAfter(box, init), last) else []
  }

  ghost function NextBoxes(tile: MapTile, box: Box, texture: TextureInfo): seq<Box> {
    if GetTextureBounds(tile, texture) != box then [GetTextureBounds(tile, texture)] else []
  }

  ghost function BoxAfter(box: Box, boxes: seq<Box>): Box {
    if boxes == [] then box else boxes[|boxes| - 1]
  }

  /** The changes recorded for a tile are the boxes it gets. */
  ghost predicate Recorded(tiles: Tiles, locations: Boxes, elems: seq<DB.Elem>, textures: seq<TextureInfo>, hash: int)
    requires tiles.Keys == locations.Keys
  {
    forall id :: id in tiles ==>
      DB.BoxesOf(elems, id) == if tiles[id].textureHash == hash then NewBoxes(tiles[id], locations[id], textures) else []
  }

  /** Textures of one size give a tile at most one new box. */
  lemma {:induction false} OneNewBox(tile: MapTile, box: Box, textures: seq<TextureInfo>)
    requires OneSize(textures, tile.textureHash)
    ensures DB.Settles(NewBoxes(tile, box, textures))
    ensures |NewBoxes(tile, box, textures)| <= 1
    ensures var last := LastListed(textures, tile.textureHash);
      BoxAfter(box, NewBoxes(tile, box, textures)) == if last.Some? then GetTextureBounds(tile, last.value) else box
    ensures LastListed(textures, tile.textureHash).None? ==> NewBoxes(tile, box, textures) == []
  {
    if textures != [] {
      var init, last := textures[..|textures| - 1], textures[|textures| - 1];
      OneNewBox(tile, box, init);
      LastListedIs(init, tile.textureHash);
      if last.nameHash == tile.textureHash && LastListed(init, tile.textureHash).Some? {
        var k :| 0 <= k < |init| && init[k] == LastListed(init, tile.textureHash).value;
        assert SameSize(textures[k], last);
        SameBoxSameSize(tile, init[k], last);
      }
      hide GetTextureBounds, OneSize;
    }
  }

  /** The boxes under the hash of the tiles seen are those of the texture, and recorded. */
  ghost predicate PassState(tiles: Tiles, stale: StaleSet, r: StaleSet, texture: TextureInfo, seen: seq<nat>)
    requires tiles.Keys == stale.boxes.Keys
  {
    && r.boxes.Keys == tiles.Keys
    && forall id :: id in tiles ==>
         var hit := id in seen && tiles[id].textureHash == texture.nameHash;
         && r.boxes[id] == (if hit then GetTextureBounds(tiles[id], texture) else stale.boxes[id])
         && DB.BoxesOf(r.elems, id)
              == DB.BoxesOf(stale.elems, id) + if hit then NextBoxes(tiles[id], stale.boxes[id], texture) else []
  }

  /** Brings the boxes under the hash of one texture to those it gives. */
  method RefreshTexture(tiles: Tiles, stale: StaleSet, texture: TextureInfo, ghost locations: Boxes) returns (r: StaleSet)
    requires StaleSound(stale, locations) && tiles.Keys == locations.Keys == stale.boxes.Keys
    requires texture.frameWidth > 0 && texture.frameHeight > 0
    ensures StaleSound(r, locations) && r.boxes.Keys == tiles.Keys
    ensures BoxesFrom(tiles, stale.boxes, r.boxes, Some(texture), texture.nameHash)
    ensures forall id :: id in tiles ==>
      var hit := tiles[id].textureHash == texture.nameHash;
      DB.BoxesOf(r.elems, id)
        == DB.BoxesOf(stale.elems, id) + if hit then NextBoxes(tiles[id], stale.boxes[id], texture) else []
  {
    hide StaleSound, PassState, BoxesFrom, GetTextureBounds, NextBoxes, DB.BoxesOf;
    var ids := Indices(tiles);
    r := stale;
    StaleKeys(tiles, stale, locations);
    PassBegins(tiles, stale, texture);
    for k := 0 to |ids|
      invariant StaleSound(r, locations) && PassState(tiles, stale, r, texture, ids[..k])
    {
      StaleKeys(tiles, r, locations);
      var id := ids[k];
      assert ids[..k + 1] == ids[..k] + [id];
      assert id !in ids[..k];
      var newBox := GetTextureBounds(tiles[id], texture);
      ghost var before := r;
      if tiles[id].textureHash == texture.nameHash && newBox != r.boxes[id] {
        TextureBoundsNormal(tiles[id], texture);
        r := AddStale(r, id, newBox, locations);
      }
      PassStep(tiles, stale, before, r, texture, ids[..k], id);
    }
    assert ids[..|ids|] == ids;
    PassEnds(tiles, stale, r, texture, ids);
  }

  lemma StaleKeys(tiles: Tiles, stale: StaleSet, locations: Boxes)
    requires StaleSound(stale, locations) && tiles.Keys == locations.Keys
    ensures stale.boxes.Keys == tiles.Keys
  {
  }

  lemma PassBegins(tiles: Tiles, stale: StaleSet, texture: TextureInfo)
    requires tiles.Keys == stale.boxes.Keys
    ensures PassState(tiles, stale, stale, texture, [])
  {
    hide DB.BoxesOf, GetTextureBounds;
  }

  lemma PassEnds(tiles: Tiles, stale: StaleSet, r: StaleSet, texture: TextureInfo, seen: seq<nat>)
    requires tiles.Keys == stale.boxes.Keys && PassState(tiles, stale, r, texture, seen) && forall id :: id in tiles ==> id in seen
    ensures r.boxes.Keys == tiles.Keys && BoxesFrom(tiles, stale.boxes, r.boxes, Some(texture), texture.nameHash)
    ensures forall id :: id in tiles ==>
      var hit := tiles[id].textureHash == texture.nameHash;
      DB.BoxesOf(r.elems, id)
        == DB.BoxesOf(stale.elems, id) + if hit then NextBoxes(tiles[id], stale.boxes[id], texture) else []
  {
    hide DB.BoxesOf, NextBoxes, GetTextureBounds;
  }

  lemma PassStep(tiles: Tiles, stale: StaleSet, r: StaleSet, r': StaleSet, texture: TextureInfo, seen: seq<nat>, id: nat)
    requires tiles.Keys == stale.boxes.Keys && PassState(tiles, stale, r, texture, seen) && id !in seen && id in tiles
    requires var newBox := GetTextureBounds(tiles[id], texture);
      if tiles[id].textureHash == texture.nameHash && newBox != r.boxes[id] then
        && r'.boxes == r.boxes[id := newBox]
        && forall i :: DB.BoxesOf(r'.elems, i) == DB.BoxesOf(r.elems, i) + if i == id then [newBox] else []
      else r' == r
    ensures PassState(tiles, stale, r', texture, seen + [id])
  {
    hide GetTextureBounds, DB.BoxesOf;
  }

  lemma TextureBoundsNormal(tile: MapTile, texture: TextureInfo)
    requires texture.frameWidth > 0 && texture.frameHeight > 0
    ensures Normal(GetTextureBounds(tile, texture))
  {
  }

  /** Goes through the textures under the hash, and for each through the tiles. */
  method FindStale(tiles: Tiles, locations: Boxes, textures: seq<TextureInfo>, hash: int) returns (stale: StaleSet)
    requires tiles.Keys == locations.Keys && PositiveFrames(textures)
    requires forall id :: id in locations ==> Normal(locations[id])
    ensures StaleSound(stale, locations) && stale.boxes.Keys == tiles.Keys
    ensures BoxesFrom(tiles, locations, stale.boxes, LastListed(textures, hash), hash)
    ensures Recorded(tiles, locations, stale.elems, textures, hash)
  {
    stale := Stale(locations, [], [], None, None);
    assert StaleSound(stale, locations);
    assert BoxesFrom(tiles, locations, stale.boxes, LastListed(textures[..0], hash), hash);
    assert Recorded(tiles, locations, stale.elems, textures[..0], hash);
    BoxesAreLast(tiles, locations, stale, textures[..0], hash);
    hide StaleSound, BoxesFrom, LastListed, Recorded, DB.BoxesOf, NewBoxes, NextBoxes, GetTextureBounds, Normal;
    for k := 0 to |textures|
      invariant StaleSound(stale, locations) && stale.boxes.Keys == tiles.Keys
      invariant BoxesFrom(tiles, locations, stale.boxes, LastListed(textures[..k], hash), hash)
      invariant Recorded(tiles, locations, stale.elems, textures[..k], hash)
    {
      LastListedNext(textures, k, hash);
      assert textures[..k + 1] == textures[..k] + [textures[k]];
      ghost var before := stale;
      if textures[k].nameHash == hash {
        BoxesAreLast(tiles, locations, stale, textures[..k], hash);
        stale := RefreshTexture(tiles, stale, textures[k], locations);
        SecondPass(tiles, locations, before.boxes, stale.boxes, LastListed(textures[..k], hash), textures[k], hash);
      }
      RecordedStep(tiles, locations, before, stale, textures[..k], textures[k], hash);
    }
    assert textures[..|textures|] == textures;
  }

  /** The boxes as they are, are the last ones recorded. */
  lemma BoxesAreLast(tiles: Tiles, locations: Boxes, stale: StaleSet, textures: seq<TextureInfo>, hash: int)
    requires StaleSound(stale, locations) && tiles.Keys == locations.Keys && Recorded(tiles, locations, stale.elems, textures, hash)
    ensures forall id :: id in tiles && tiles[id].textureHash == hash ==>
      stale.boxes[id] == BoxAfter(locations[id], NewBoxes(tiles[id], locations[id], textures))
  {
    hide NewBoxes, GetTextureBounds, DB.BoxesOf, Normal, Inside, DB.WithBatch;
    forall id | id in tiles && tiles[id].textureHash == hash
      ensures stale.boxes[id] == BoxAfter(locations[id], NewBoxes(tiles[id], locations[id], textures))
    {
      DB.LastBoxStays(locations, stale.elems, id);
    }
  }

  lemma RecordedStep(tiles: Tiles, locations: Boxes, stale: StaleSet, stale': StaleSet, textures: seq<TextureInfo>, texture: TextureInfo, hash: int)
    requires tiles.Keys == locations.Keys == stale.boxes.Keys && Recorded(tiles, locations, stale.elems, textures, hash)
    requires texture.nameHash == hash ==> forall id :: id in tiles && tiles[id].textureHash == hash ==>
      stale.boxes[id] == BoxAfter(locations[id], NewBoxes(tiles[id], locations[id], textures))
    requires if texture.nameHash == hash then
        forall id :: id in tiles ==>
          DB.BoxesOf(stale'.elems, id)
            == DB.BoxesOf(stale.elems, id) + if tiles[id].textureHash == hash then NextBoxes(tiles[id], stale.boxes[id], texture) else []
      else stale' == stale
    ensures Recorded(tiles, locations, stale'.elems, textures + [texture], hash)
  {
    assert (textures + [texture])[..|textures|] == textures;
    hide NextBoxes, DB.BoxesOf;
  }

  lemma LastListedNext(textures: seq<TextureInfo>, k: nat, hash: int)
    requires k < |textures|
    ensures LastListed(textures[..k + 1], hash)
      == if textures[k].nameHash == hash then Some(textures[k]) else LastListed(textures[..k], hash)
  {
    assert textures[..k + 1][..k] == textures[..k];
  }

  lemma SecondPass(tiles: Tiles, locations: Boxes, boxes: Boxes, boxes': Boxes, first: Option<TextureInfo>, texture: TextureInfo, hash: int)
    requires tiles.Keys == locations.Keys == boxes.Keys == boxes'.Keys
    requires BoxesFrom(tiles, locations, boxes, first, hash) && BoxesFrom(tiles, boxes, boxes', Some(texture), hash)
    ensures BoxesFrom(tiles, locations, boxes', Some(texture), hash)
  {
  }

  /** Of the boxes each tile under the hash gets, the first is the last and reaches every node
      the others do. */
  ghost predicate AllSettle(tiles: Tiles, locations: Boxes, textures: seq<TextureInfo>, hash: int)
    requires tiles.Keys == locations.Keys
  {
    forall id :: id in tiles && tiles[id].textureHash == hash ==> DB.Settles(NewBoxes(tiles[id], locations[id], textures))
  }

  /** The changes taken as one batch, after the entries of their tiles are gone. */
  lemma StaleBatch(locations: Boxes, stale: StaleSet)
    requires StaleSound(stale, locations)
    ensures DB.WithBatch(locations - DB.IdSet(stale.ids), stale.elems) == stale.boxes
    ensures stale.ids != [] ==> forall id :: id in stale.ids ==> Inside(locations[id], stale.deadBox.value)
    ensures stale.ids != [] ==>
      forall k :: 0 <= k < |stale.elems| ==> Inside(stale.elems[k].box, stale.newBox.value) && Normal(stale.elems[k].box)
  {
    hide Inside, Normal, DB.WithBatch;
    forall k | 0 <= k < |stale.elems| ensures stale.elems[k].id in DB.IdSet(stale.ids) {
      assert stale.ids[k] in stale.ids;
    }
    forall id | id in DB.IdSet(stale.ids) ensures DB.HasId(stale.elems, id) {
      var k :| 0 <= k < |stale.ids| && stale.ids[k] == id;
      assert stale.elems[k].id == id;
    }
    BatchOverwrites(locations, DB.IdSet(stale.ids), stale.elems);
  }

  lemma StaleHasBoxes(locations: Boxes, stale: StaleSet)
    requires StaleSound(stale, locations)
    ensures stale.boxes.Keys == locations.Keys
    ensures stale.deadBox.Some? <==> stale.ids != []
    ensures stale.newBox.Some? <==> stale.ids != []
  {
  }

  lemma NothingStale(locations: Boxes, stale: StaleSet)
    requires StaleSound(stale, locations) && stale.ids == []
    ensures stale.boxes == locations
    ensures forall id :: DB.Settles(DB.BoxesFor(locations - DB.IdSet(stale.ids), stale.elems, id))
  {
    forall id ensures DB.Settles(DB.BoxesFor(locations - DB.IdSet(stale.ids), stale.elems, id)) {
      StaleBoxes(locations, stale, id);
    }
  }

  /** The boxes that batch brings for an id are those recorded; the others keep what they have. */
  lemma StaleBoxes(locations: Boxes, stale: StaleSet, id: nat)
    requires StaleSound(stale, locations)
    ensures DB.Settles(DB.BoxesFor(locations - DB.IdSet(stale.ids), stale.elems, id)) <==> DB.Settles(DB.BoxesOf(stale.elems, id))
    ensures DB.BoxesOf(stale.elems, id) != [] ==> id in locations
  {
    hide Inside, Normal, DB.WithBatch, DB.BoxesOf, GetTileBounds;
    DB.BoxesOfIn(stale.elems, id);
    if DB.BoxesOf(stale.elems, id) != [] {
      var k :| 0 <= k < |stale.elems| && stale.elems[k].id == id;
      assert stale.ids[k] == id;
      assert DB.BoxesFor(locations - DB.IdSet(stale.ids), stale.elems, id) == DB.BoxesOf(stale.elems, id);
    }
  }

  lemma StaleSettles(tiles: Tiles, locations: Boxes, stale: StaleSet, textures: seq<TextureInfo>, hash: int)
    requires StaleSound(stale, locations) && tiles.Keys == locations.Keys && Recorded(tiles, locations, stale.elems, textures, hash)
    ensures (forall id :: DB.Settles(DB.BoxesFor(locations - DB.IdSet(stale.ids), stale.elems, id)))
      <==> AllSettle(tiles, locations, textures, hash)
  {
    forall id ensures DB.Settles(DB.BoxesFor(locations - DB.IdSet(stale.ids), stale.elems, id)) <==> DB.Settles(DB.BoxesOf(stale.elems, id))
              ensures DB.BoxesOf(stale.elems, id) != [] ==> id in tiles
    {
      StaleBoxes(locations, stale, id);
    }
    assert DB.Settles([]);
    hide StaleSound, NewBoxes, DB.BoxesOf, DB.BoxesFor, DB.Settles;
  }

  lemma OneSizeSettles(tiles: Tiles, locations: Boxes, textures: seq<TextureInfo>, hash: int)
    requires tiles.Keys == locations.Keys
    ensures OneSize(textures, hash) || NoTiles(tiles, hash) ==> AllSettle(tiles, locations, textures, hash)
  {
    if OneSize(textures, hash) {
      forall id | id in tiles && tiles[id].textureHash == hash ensures DB.Settles(NewBoxes(tiles[id], locations[id], textures)) {
        OneNewBox(tiles[id], locations[id], textures);
      }
    }
  }
}
