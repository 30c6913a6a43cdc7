/** Putting the tiles of a preview on a layer (MapEditorTileManager::CommitPreviewTiles). */
module TilePreview {
  import opened Geometry
  import opened Options
  import DB = SpatialDatabase
  import opened TileBoxes
  import opened Vectors

  method PreviewBounds(preview: seq<MapTile>) returns (bounds: Box)
    requires preview != []
    ensures Normal(bounds) && forall k :: 0 <= k < |preview| ==> In(bounds, Vec(preview[k].x, preview[k].y))
  {
    bounds := FromPoint(Vec(preview[0].x, preview[0].y));
    for k := 0 to |preview|
      invariant Normal(bounds)
      invariant forall j :: 0 <= j < k ==> In(bounds, Vec(preview[j].x, preview[j].y))
    {
      bounds := BoxUnion(bounds, FromPoint(Vec(preview[k].x, preview[k].y)));
    }
  }

  ghost predicate HasKey(tiles: Tiles, tile: MapTile) {
    exists id :: id in tiles && SameKey(tiles[id], tile)
  }

  /** The tiles of a preview that no tile of the layer makes room for. */
  ghost function Unplaced(tiles: Tiles, preview: seq<MapTile>): seq<MapTile> {
    if preview == [] then []
    else
      var last := preview[|preview| - 1];
      Unplaced(tiles, preview[..|preview| - 1]) + if HasKey(tiles, last) then [] else [last]
  }

  /** The last tile of a preview with the key of a tile and another frame, if there is one. */
  function Overwritten(tile: MapTile, preview: seq<MapTile>): MapTile {
    if preview == [] then tile
    else
      var last := preview[|preview| - 1];
      if SameKey(tile, last) && tile.frameId != last.frameId then last else Overwritten(tile, preview[..|preview| - 1])
  }

  lemma {:induction false} OverwrittenIs(tile: MapTile, preview: seq<MapTile>) returns (last: int)
    ensures -1 <= last < |preview|
    ensures last < 0 ==> Overwritten(tile, preview) == tile
    ensures last >= 0 ==> Overwritten(tile, preview) == preview[last] && SameKey(tile, preview[last]) && preview[last].frameId != tile.frameId
    ensures forall j :: last < j < |preview| && SameKey(tile, preview[j]) ==> preview[j].frameId == tile.frameId
  {
    last := |preview| - 1;
    if last >= 0 && !(SameKey(tile, preview[last]) && tile.frameId != preview[last].frameId) {
      last := OverwrittenIs(tile, preview[..last]);
    }
  }

  /** Of the tiles of the preview with its key the last that asks for another frame than a tile has
      is like tile k, or none does and the tile is like k already. */
  ghost predicate LastWord(tile: MapTile, preview: seq<MapTile>, k: nat)
    requires k < |preview|
  {
    if preview[k].frameId == tile.frameId then
      forall j :: 0 <= j < |preview| && SameKey(tile, preview[j]) ==> preview[j].frameId == tile.frameId
    else
      exists m :: 0 <= m < |preview| && preview[m] == preview[k] &&
        forall j :: m < j < |preview| && SameKey(tile, preview[j]) ==> preview[j].frameId == tile.frameId
  }

  lemma OverwrittenWhen(tile: MapTile, preview: seq<MapTile>, k: nat)
    requires k < |preview| && SameKey(tile, preview[k])
    ensures Overwritten(tile, preview) == preview[k] <==> LastWord(tile, preview, k)
  {
    var last := OverwrittenIs(tile, preview);
    hide Overwritten;
  }

  /** Which tiles of a preview no tile makes room for. */
  ghost function NewPlaces(tiles: Tiles, preview: seq<MapTile>): (r: seq<bool>)
    ensures |r| == |preview|
  {
    seq(|preview|, k requires 0 <= k < |preview| => forall id :: id in tiles ==> !SameKey(tiles[id], preview[k]))
  }

  /** These are put at new indices, in order. */
  lemma NewPlacesSnoc(tiles: Tiles, preview: seq<MapTile>)
    requires preview != []
    ensures var n := |preview| - 1; NewPlaces(tiles, preview) == NewPlaces(tiles, preview[..n]) + [!HasKey(tiles, preview[n])]
  {
    hide SameKey;
  }

  lemma UnplacedSnoc(tiles: Tiles, preview: seq<MapTile>)
    requires preview != []
    ensures var n := |preview| - 1;
      Unplaced(tiles, preview) == Unplaced(tiles, preview[..n]) + if HasKey(tiles, preview[n]) then [] else [preview[n]]
  {
    hide HasKey;
  }

  lemma {:induction false} UnplacedAre(tiles: Tiles, preview: seq<MapTile>) returns (at: seq<nat>)
    ensures SetAt(at, NewPlaces(tiles, preview)) && (forall j :: 0 <= j < |at| ==> at[j] < |preview|)
    ensures Unplaced(tiles, preview) == Picked(preview, at)
  {
    hide SameKey;
    at := [];
    if preview == [] {
      NoneSet();
      assert NewPlaces(tiles, preview) == [];
    } else {
      var n, flag := |preview| - 1, !HasKey(tiles, preview[|preview| - 1]);
      NewPlacesSnoc(tiles, preview);
      UnplacedSnoc(tiles, preview);
      hide SetAt, NewPlaces, HasKey, Unplaced;
      var init := UnplacedAre(tiles, preview[..n]);
      PickedSnoc(preview, init, NewPlaces(tiles, preview[..n]), flag);
      at := if flag then init + [n] else init;
    }
  }

  /** The first tile with its key in the order of the query; only that one is replaced. */
  ghost predicate Winner(tiles: Tiles, existing: seq<nat>, id: nat)
    requires id in tiles && forall i :: i in existing ==> i in tiles
  {
    exists k :: 0 <= k < |existing| && existing[k] == id && forall j :: 0 <= j < k ==> !SameKey(tiles[existing[j]], tiles[id])
  }

  /** What a list of replacements makes of one tile. */
  function LastFor(replaced: seq<(nat, MapTile)>, id: nat, tile: MapTile): MapTile {
    if replaced == [] then tile
    else
      var last := replaced[|replaced| - 1];
      if last.0 == id then last.1 else LastFor(replaced[..|replaced| - 1], id, tile)
  }

  /** The replacements found so far do to each tile what the preview so far says. */
  ghost predicate Matches(tiles: Tiles, existing: seq<nat>, preview: seq<MapTile>, replaced: seq<(nat, MapTile)>)
    requires forall id :: id in existing ==> id in tiles
  {
    && (forall r :: r in replaced ==> r.0 in tiles)
    && forall id :: id in tiles ==>
      LastFor(replaced, id, tiles[id]) == if Winner(tiles, existing, id) then Overwritten(tiles[id], preview) else tiles[id]
  }

  lemma MatchesNoChange(tiles: Tiles, existing: seq<nat>, preview: seq<MapTile>, k: nat, replaced: seq<(nat, MapTile)>)
    requires forall id :: id in existing ==> id in tiles
    requires k < |preview| && Matches(tiles, existing, preview[..k], replaced)
    requires forall id :: id in tiles && Winner(tiles, existing, id) && SameKey(tiles[id], preview[k]) ==>
      tiles[id].frameId == preview[k].frameId
    ensures Matches(tiles, existing, preview[..k + 1], replaced)
  {
    assert preview[..k + 1][..k] == preview[..k];
    hide Winner;
  }

  lemma OneWinner(tiles: Tiles, existing: seq<nat>, index: nat, id: nat)
    requires forall i :: i in existing ==> i in tiles
    requires index < |existing| && forall j :: 0 <= j < index ==> !SameKey(tiles[existing[j]], tiles[existing[index]])
    requires id in tiles && SameKey(tiles[id], tiles[existing[index]])
    ensures Winner(tiles, existing, id) <==> id == existing[index]
  {
    if Winner(tiles, existing, id) {
      var k :| 0 <= k < |existing| && existing[k] == id && forall j :: 0 <= j < k ==> !SameKey(tiles[existing[j]], tiles[id]);
    }
  }

  lemma MatchesReplace(tiles: Tiles, existing: seq<nat>, preview: seq<MapTile>, k: nat, replaced: seq<(nat, MapTile)>, index: nat)
    requires forall id :: id in existing ==> id in tiles
    requires k < |preview| && Matches(tiles, existing, preview[..k], replaced)
    requires index < |existing| && SameKey(tiles[existing[index]], preview[k])
    requires forall j :: 0 <= j < index ==> !SameKey(tiles[existing[j]], preview[k])
    requires tiles[existing[index]].frameId != preview[k].frameId
    ensures Matches(tiles, existing, preview[..k + 1], replaced + [(existing[index], preview[k])])
  {
    assert preview[..k + 1][..k] == preview[..k];
    var more := replaced + [(existing[index], preview[k])];
    assert more[..|replaced|] == replaced;
    forall id | id in tiles
      ensures LastFor(more, id, tiles[id])
        == if Winner(tiles, existing, id) then Overwritten(tiles[id], preview[..k + 1]) else tiles[id]
    {
      if SameKey(tiles[id], preview[k]) {
        OneWinner(tiles, existing, index, id);
      }
      hide Winner;
    }
  }

  /** Sorts the preview into tiles that replace one in place and tiles to add; a tile there
      already needs nothing. */
  method MatchPreview(tiles: Tiles, existing: seq<nat>, preview: seq<MapTile>)
    returns (replaced: seq<(nat, MapTile)>, newTiles: seq<MapTile>)
    requires forall id :: id in existing ==> id in tiles
    requires forall k, id :: 0 <= k < |preview| && id in tiles && SameKey(tiles[id], preview[k]) ==> id in existing
    ensures Matches(tiles, existing, preview, replaced) && newTiles == Unplaced(tiles, preview)
    ensures forall r :: r in replaced ==> r.0 in tiles
  {
    replaced, newTiles := [], [];
    hide Matches, SameKey;
    assert Matches(tiles, existing, preview[..0], replaced) by {
      NoMatches(tiles, existing);
    }
    for k := 0 to |preview|
      invariant Matches(tiles, existing, preview[..k], replaced) && newTiles == Unplaced(tiles, preview[..k])
    {
      assert preview[..k + 1][..k] == preview[..k];
      var index := FindSameKey(tiles, existing, preview[k]);
      if index >= 0 {
        assert HasKey(tiles, preview[k]);
        if tiles[existing[index]].frameId != preview[k].frameId {
          MatchesReplace(tiles, existing, preview, k, replaced, index);
          replaced := replaced + [(existing[index], preview[k])];
        } else {
          FoundWins(tiles, existing, index, preview[k]);
          MatchesNoChange(tiles, existing, preview, k, replaced);
        }
      } else {
        assert !HasKey(tiles, preview[k]);
        MatchesNoChange(tiles, existing, preview, k, replaced);
        newTiles := newTiles + [preview[k]];
      }
    }
    assert preview[..|preview|] == preview;
    MatchedIds(tiles, existing, preview, replaced);
  }

  lemma MatchedIds(tiles: Tiles, existing: seq<nat>, preview: seq<MapTile>, replaced: seq<(nat, MapTile)>)
    requires forall id :: id in existing ==> id in tiles
    requires Matches(tiles, existing, preview, replaced)
    ensures forall r :: r in replaced ==> r.0 in tiles
  {
  }

  lemma NoMatches(tiles: Tiles, existing: seq<nat>)
    requires forall id :: id in existing ==> id in tiles
    ensures Matches(tiles, existing, [], [])
  {
  }

  lemma FoundWins(tiles: Tiles, existing: seq<nat>, index: nat, tile: MapTile)
    requires forall id :: id in existing ==> id in tiles
    requires index < |existing| && SameKey(tiles[existing[index]], tile)
    requires forall j :: 0 <= j < index ==> !SameKey(tiles[existing[j]], tile)
    ensures forall id :: id in tiles && Winner(tiles, existing, id) && SameKey(tiles[id], tile) ==> id == existing[index]
  {
    forall id | id in tiles && Winner(tiles, existing, id) && SameKey(tiles[id], tile) ensures id == existing[index] {
      OneWinner(tiles, existing, index, id);
    }
  }

  method ReplaceTiles(tiles: Tiles, replaced: seq<(nat, MapTile)>) returns (r: Tiles)
    requires forall e :: e in replaced ==> e.0 in tiles
    ensures r.Keys == tiles.Keys && forall id :: id in tiles ==> r[id] == LastFor(replaced, id, tiles[id])
    ensures replaced == [] ==> r == tiles
  {
    r := tiles;
    for k := 0 to |replaced|
      invariant r.Keys == tiles.Keys && forall id :: id in tiles ==> r[id] == LastFor(replaced[..k], id, tiles[id])
      invariant k == 0 ==> r == tiles
    {
      assert replaced[k] in replaced;
      assert replaced[..k + 1][..k] == replaced[..k];
      r := r[replaced[k].0 := replaced[k].1];
    }
    assert replaced[..|replaced|] == replaced;
  }

  lemma LocatedKeys(tiles: Tiles, boxes: Boxes, textures: seq<TextureInfo>)
    requires Located(tiles, boxes, textures)
    ensures tiles.Keys == boxes.Keys
  {
  }

  lemma SameKeysLocated(before: Tiles, after: Tiles, boxes: Boxes, textures: seq<TextureInfo>)
    requires Located(before, boxes, textures)
    requires after.Keys == before.Keys && forall id :: id in before ==> SameKey(after[id], before[id])
    ensures Located(after, boxes, textures)
  {
    forall id | id in after ensures boxes[id] == GetTileBounds(textures, after[id]) {
      SameKeySameBounds(textures, after[id], before[id]);
    }
  }

  /** Of the tiles with a key, one takes the frame the preview has for it last, and the others
      keep theirs. */
  ghost predicate PreviewPut(before: Tiles, after: Tiles, preview: seq<MapTile>) {
    && after.Keys == before.Keys
    && (forall id :: id in before ==> after[id] == before[id] || after[id] == Overwritten(before[id], preview))
    && (forall id :: id in before ==> KeyPut(before, after, preview, id))
    && forall i, j :: i in before && j in before && SameKey(before[i], before[j]) && after[i] != before[i] && after[j] != before[j] ==>
      i == j
  }

  ghost predicate KeyPut(before: Tiles, after: Tiles, preview: seq<MapTile>, id: nat)
    requires after.Keys == before.Keys && id in before
  {
    exists w :: w in before && SameKey(before[w], before[id]) && after[w] == Overwritten(before[w], preview)
  }

  /** First the preview changes tiles that have its keys, then what has none is put at the ids. */
  ghost predicate PreviewCommitted(before: Tiles, after: Tiles, preview: seq<MapTile>, ids: seq<nat>) {
    exists put :: PreviewPut(before, put, preview) && TilesAdded(put, after, Unplaced(before, preview), ids)
  }

  /** No tile has one of the ids. */
  ghost predicate IdsNew(tiles: Tiles, ids: seq<nat>) {
    forall id :: id in ids ==> id !in tiles
  }

  /** A tile that has one of the ids already has the box of the tile that is to come there. */
  ghost predicate IdsFit(textures: seq<TextureInfo>, tiles: Tiles, newTiles: seq<MapTile>, ids: seq<nat>)
    requires |ids| == |newTiles|
  {
    forall k :: 0 <= k < |ids| && ids[k] in tiles ==>
      GetTileBounds(textures, tiles[ids[k]]) == GetTileBounds(textures, newTiles[k])
  }

  lemma FitAfterPut(textures: seq<TextureInfo>, before: Tiles, put: Tiles, newTiles: seq<MapTile>, ids: seq<nat>)
    requires |ids| == |newTiles| && put.Keys == before.Keys
    requires forall id :: id in before ==> SameKey(put[id], before[id])
    ensures IdsFit(textures, put, newTiles, ids) <==> IdsFit(textures, before, newTiles, ids)
  {
    forall id | id in before {
      SameKeySameBounds(textures, put[id], before[id]);
    }
    hide GetTileBounds;
  }

  lemma {:induction false} OverwrittenKey(tile: MapTile, preview: seq<MapTile>)
    ensures SameKey(Overwritten(tile, preview), tile)
    ensures Overwritten(tile, preview) == tile || Overwritten(tile, preview) in preview
    ensures (forall k :: 0 <= k < |preview| ==> !SameKey(tile, preview[k])) ==> Overwritten(tile, preview) == tile
  {
    if preview != [] {
      OverwrittenKey(tile, preview[..|preview| - 1]);
    }
  }

  lemma {:induction false} UnplacedIs(tiles: Tiles, preview: seq<MapTile>, tile: MapTile)
    ensures tile in Unplaced(tiles, preview) <==> tile in preview && !HasKey(tiles, tile)
  {
    if preview != [] {
      var init, last := preview[..|preview| - 1], preview[|preview| - 1];
      UnplacedIs(tiles, init, tile);
      assert preview == init + [last];
      hide HasKey;
    }
  }

  lemma CommittedBy(before: Tiles, put: Tiles, after: Tiles, preview: seq<MapTile>, ids: seq<nat>)
    requires PreviewPut(before, put, preview) && TilesAdded(put, after, Unplaced(before, preview), ids)
    ensures PreviewCommitted(before, after, preview, ids)
  {
  }

  lemma NothingCommitted(textures: seq<TextureInfo>, tiles: Tiles)
    ensures PreviewCommitted(tiles, tiles, [], []) && Unplaced(tiles, []) == [] && IdsFit(textures, tiles, [], [])
  {
    assert PreviewPut(tiles, tiles, []) by {
      assert forall id :: id in tiles ==> KeyPut(tiles, tiles, [], id);
    }
    NoneAdded(textures, tiles, tiles);
  }

  lemma NoneAdded(textures: seq<TextureInfo>, tiles: Tiles, before: Tiles)
    ensures TilesAdded(tiles, tiles, [], []) && IdsFit(textures, before, [], [])
  {
  }

  lemma FirstIsWinner(tiles: Tiles, existing: seq<nat>, id: nat) returns (w: nat)
    requires forall i :: i in existing ==> i in tiles
    requires id in existing
    ensures w in tiles && SameKey(tiles[w], tiles[id]) && Winner(tiles, existing, w)
  {
    var k := 0;
    while !SameKey(tiles[existing[k]], tiles[id])
      invariant k < |existing| && forall j :: 0 <= j < k ==> !SameKey(tiles[existing[j]], tiles[id])
      decreases |existing| - k
    {
      k := k + 1;
    }
    w := existing[k];
  }

  lemma WinnersDiffer(tiles: Tiles, existing: seq<nat>, i: nat, j: nat)
    requires forall id :: id in existing ==> id in tiles
    requires i in tiles && j in tiles && SameKey(tiles[i], tiles[j]) && Winner(tiles, existing, i) && Winner(tiles, existing, j)
    ensures i == j
  {
    var k :| 0 <= k < |existing| && existing[k] == i && forall n :: 0 <= n < k ==> !SameKey(tiles[existing[n]], tiles[i]);
    OneWinner(tiles, existing, k, j);
  }

  lemma WinnerOfKey(before: Tiles, after: Tiles, existing: seq<nat>, preview: seq<MapTile>, id: nat)
    requires forall i :: i in existing ==> i in before
    requires after.Keys == before.Keys && id in before
    requires id in existing || forall k :: 0 <= k < |preview| ==> !SameKey(before[id], preview[k])
    requires forall i :: i in before ==> after[i] == if Winner(before, existing, i) then Overwritten(before[i], preview) else before[i]
    ensures SameKey(after[id], before[id]) && KeyPut(before, after, preview, id)
  {
    hide Winner, Overwritten;
    OverwrittenKey(before[id], preview);
    if id in existing {
      var w := FirstIsWinner(before, existing, id);
      assert after[w] == Overwritten(before[w], preview);
    } else {
      assert after[id] == Overwritten(before[id], preview);
    }
  }

  lemma MatchedAll(before: Tiles, after: Tiles, existing: seq<nat>, preview: seq<MapTile>, replaced: seq<(nat, MapTile)>)
    requires forall id :: id in existing ==> id in before
    requires forall k, id :: 0 <= k < |preview| && id in before && SameKey(before[id], preview[k]) ==> id in existing
    requires Matches(before, existing, preview, replaced)
    requires after.Keys == before.Keys && forall id :: id in before ==> after[id] == LastFor(replaced, id, before[id])
    ensures PreviewPut(before, after, preview)
    ensures forall id :: id in before ==> SameKey(after[id], before[id])
  {
    hide Winner, Overwritten, LastFor, KeyPut, SameKey;
    forall id | id in before ensures SameKey(after[id], before[id]) && KeyPut(before, after, preview, id) {
      WinnerOfKey(before, after, existing, preview, id);
    }
    forall i, j | i in before && j in before && SameKey(before[i], before[j]) && after[i] != before[i] && after[j] != before[j]
      ensures i == j
    {
      WinnersDiffer(before, existing, i, j);
    }
  }

  ghost predicate KeysDiffer(tiles: Tiles) {
    forall i, j :: i in tiles && j in tiles && SameKey(tiles[i], tiles[j]) ==> i == j
  }

  lemma OnlyOneOfKey(before: Tiles, put: Tiles, preview: seq<MapTile>, id: nat)
    requires PreviewPut(before, put, preview) && KeysDiffer(before) && id in before
    ensures put[id] == Overwritten(before[id], preview)
  {
    assert KeyPut(before, put, preview, id);
  }

  /** Where one tile has the key, only that one can come to be the tile of the preview. */
  lemma ShownAt(before: Tiles, put: Tiles, after: Tiles, preview: seq<MapTile>, ids: seq<nat>, tile: MapTile, id: nat)
    requires PreviewPut(before, put, preview) && TilesAdded(put, after, Unplaced(before, preview), ids)
    requires KeysDiffer(before) && IdsNew(before, ids) && id in before && SameKey(before[id], tile)
    ensures HasTile(after, tile) <==> Overwritten(before[id], preview) == tile
  {
    OnlyOneOfKey(before, put, preview, id);
    assert after[id] == put[id];
    if other :| other in after && after[other] == tile {
      if other in before {
        OnlyOneOfKey(before, put, preview, other);
        OverwrittenKey(before[other], preview);
        assert SameKey(before[other], before[id]);
      } else {
        AddedFrom(put, after, Unplaced(before, preview), ids, other);
        UnplacedIs(before, preview, tile);
        assert false;
      }
      hide PreviewPut, TilesAdded, Overwritten, Unplaced, KeysDiffer;
    }
  }

  /** A tile of the preview is on the layer afterwards when no tile there had its key, and where
      one tile has it exactly when it has the last word on that tile. */
  lemma PreviewShownExactly(before: Tiles, after: Tiles, preview: seq<MapTile>, ids: seq<nat>, k: nat)
    requires PreviewCommitted(before, after, preview, ids) && IdsNew(before, ids) && k < |preview| && KeysDiffer(before)
    ensures HasTile(after, preview[k])
      <==> forall id :: id in before && SameKey(before[id], preview[k]) ==> LastWord(before[id], preview, k)
  {
    forall id | id in before && SameKey(before[id], preview[k])
      ensures Overwritten(before[id], preview) == preview[k] <==> LastWord(before[id], preview, k)
    {
      OverwrittenWhen(before[id], preview, k);
    }
    hide LastWord;
    var put :| PreviewPut(before, put, preview) && TilesAdded(put, after, Unplaced(before, preview), ids);
    hide PreviewPut, TilesAdded, Overwritten, Unplaced, KeysDiffer, HasTile, SameKey;
    forall id | id in before && SameKey(before[id], preview[k])
      ensures HasTile(after, preview[k]) <==> Overwritten(before[id], preview) == preview[k]
    {
      ShownAt(before, put, after, preview, ids, preview[k], id);
    }
    if !HasKey(before, preview[k]) {
      UnplacedIs(before, preview, preview[k]);
      AddedShown(put, after, Unplaced(before, preview), ids, preview[k]);
    }
  }

  /** When no two tiles of the preview have the same key all are shown. */
  lemma DistinctPreviewShown(before: Tiles, after: Tiles, preview: seq<MapTile>, ids: seq<nat>, k: nat)
    requires PreviewCommitted(before, after, preview, ids) && IdsNew(before, ids) && k < |preview|
    requires forall i, j :: 0 <= i < j < |preview| ==> !SameKey(preview[i], preview[j])
    ensures HasTile(after, preview[k])
  {
    var tile := preview[k];
    var put :| PreviewPut(before, put, preview) && TilesAdded(put, after, Unplaced(before, preview), ids);
    UnplacedIs(before, preview, tile);
    if id :| id in before && SameKey(before[id], tile) {
      assert KeyPut(before, put, preview, id);
      var w :| w in before && SameKey(before[w], before[id]) && put[w] == Overwritten(before[w], preview);
      OverwrittenByOne(before[w], preview, k);
      assert after[w] == tile;
    } else {
      AddedShown(put, after, Unplaced(before, preview), ids, tile);
    }
  }

  lemma {:induction false} OverwrittenByOne(tile: MapTile, preview: seq<MapTile>, k: nat)
    requires k < |preview| && SameKey(tile, preview[k])
    requires forall i, j :: 0 <= i < j < |preview| ==> !SameKey(preview[i], preview[j])
    ensures Overwritten(tile, preview) == preview[k]
  {
    var last := |preview| - 1;
    if k < last {
      OverwrittenByOne(tile, preview[..last], k);
      assert !SameKey(preview[k], preview[last]);
    } else {
      assert forall i :: 0 <= i < last ==> !SameKey(preview[i], preview[last]);
      OverwrittenKey(tile, preview[..last]);
    }
  }

  /** Two tiles of the preview with one key: of frames 2 and 1 over a tile of frame 1, the second
      is taken to be there already and the first replaces it. */
  lemma PreviewTwice(after: Tiles, ids: seq<nat>)
    requires 0 !in ids && PreviewCommitted(map[0 := MapTile(0, 0, 1, 7)], after, [MapTile(0, 0, 2, 7), MapTile(0, 0, 1, 7)], ids)
    ensures HasTile(after, MapTile(0, 0, 2, 7)) && !HasTile(after, MapTile(0, 0, 1, 7))
  {
    var old1, new2 := MapTile(0, 0, 1, 7), MapTile(0, 0, 2, 7);
    var before: Tiles, preview := map[0 := old1], [new2, old1];
    assert Overwritten(old1, preview) == new2 by {
      assert preview[..1] == [new2] && preview[..1][..0] == [];
    }
    hide PreviewCommitted, Overwritten, HasTile;
    PreviewShownExactly(before, after, preview, ids, 0);
    PreviewShownExactly(before, after, preview, ids, 1);
    assert SameKey(before[0], preview[0]) && SameKey(before[0], preview[1]);
  }

  /** The query finds every tile that has the key of a tile previewed. */
  lemma SameKeysExist(tiles: Tiles, boxes: Boxes, textures: seq<TextureInfo>, existing: seq<nat>, bounds: Box, preview: seq<MapTile>)
    requires Located(tiles, boxes, textures) && PositiveFrames(textures)
    requires forall id :: id in existing <==> id in boxes && BoxIntersect(bounds, boxes[id])
    requires forall k :: 0 <= k < |preview| ==> In(bounds, Vec(preview[k].x, preview[k].y))
    ensures forall k, id :: 0 <= k < |preview| && id in tiles && SameKey(tiles[id], preview[k]) ==> id in existing
  {
    forall k, id | 0 <= k < |preview| && id in tiles && SameKey(tiles[id], preview[k]) ensures id in existing {
      TileBoundsHoldPosition(textures, tiles[id]);
      assert In(bounds, Vec(preview[k].x, preview[k].y));
    }
  }

  lemma EmptyBatch(entries: Boxes)
    ensures DB.FreshBatch([], entries) && DB.WithBatch(entries, []) == entries
  {
  }

  /** Each new tile is at an index of its own, and nothing else changed. */
  ghost predicate TilesAdded(before: Tiles, after: Tiles, newTiles: seq<MapTile>, ids: seq<nat>) {
    && Distinct(ids) && |ids| == |newTiles|
    && (forall k :: 0 <= k < |ids| ==> ids[k] in after && after[ids[k]] == newTiles[k])
    && (forall id :: id in after <==> id in before || id in ids)
    && forall id :: id in before && id !in ids ==> after[id] == before[id]
  }

  lemma AddedFrom(before: Tiles, after: Tiles, newTiles: seq<MapTile>, ids: seq<nat>, id: nat)
    requires TilesAdded(before, after, newTiles, ids) && id in after && id !in before
    ensures after[id] in newTiles
  {
    var k :| 0 <= k < |ids| && ids[k] == id;
    assert newTiles[k] in newTiles;
  }

  lemma AddedShown(before: Tiles, after: Tiles, newTiles: seq<MapTile>, ids: seq<nat>, tile: MapTile)
    requires TilesAdded(before, after, newTiles, ids) && tile in newTiles
    ensures HasTile(after, tile)
  {
    var k :| 0 <= k < |newTiles| && newTiles[k] == tile;
    assert after[ids[k]] == tile;
  }

  predicate HasTile(tiles: Tiles, tile: MapTile) {
    exists id :: id in tiles && tiles[id] == tile
  }

  ghost predicate AddedTiles(tiles0: Tiles, boxes0: Boxes, tiles: Tiles, boxes: Boxes, textures: seq<TextureInfo>,
                             ids: seq<nat>, added: seq<MapTile>, bounds: Option<Box>) {
    && Located(tiles, boxes, textures) && tiles0.Keys == boxes0.Keys && TilesAdded(tiles0, tiles, added, ids)
    && (forall id :: id in tiles0 && id !in ids ==> boxes[id] == boxes0[id])
    && (bounds.None? ==> ids == [])
    && (bounds.Some? ==> Normal(bounds.value) && forall id :: id in ids ==> Inside(boxes[id], bounds.value))
  }

  lemma NoTilesAdded(tiles: Tiles, boxes: Boxes, textures: seq<TextureInfo>)
    requires Located(tiles, boxes, textures)
    ensures AddedTiles(tiles, boxes, tiles, boxes, textures, [], [], None)
  {
  }

  lemma BoundsNormal(tiles0: Tiles, boxes0: Boxes, tiles: Tiles, boxes: Boxes, textures: seq<TextureInfo>,
                     ids: seq<nat>, added: seq<MapTile>, bounds: Option<Box>)
    requires AddedTiles(tiles0, boxes0, tiles, boxes, textures, ids, added, bounds)
    ensures bounds.Some? ==> Normal(bounds.value)
    ensures forall id :: id in tiles <==> id in tiles0 || id in ids
  {
  }

  lemma AddedSnoc(before: Tiles, after: Tiles, newTiles: seq<MapTile>, ids: seq<nat>, id: nat, tile: MapTile)
    requires TilesAdded(before, after, newTiles, ids) && id !in ids
    ensures TilesAdded(before, after[id := tile], newTiles + [tile], ids + [id])
  {
    assert Distinct(ids + [id]);
    forall k | 0 <= k < |ids| ensures ids[k] != id {
      assert ids[k] in ids;
    }
  }

  lemma AddOneTile(tiles0: Tiles, boxes0: Boxes, tiles: Tiles, boxes: Boxes, textures: seq<TextureInfo>,
                   ids: seq<nat>, added: seq<MapTile>, bounds: Option<Box>, id: nat, tile: MapTile, wider: Option<Box>)
    requires AddedTiles(tiles0, boxes0, tiles, boxes, textures, ids, added, bounds)
    requires id !in ids
    requires wider.Some? && Normal(wider.value) && Inside(GetTileBounds(textures, tile), wider.value)
    requires bounds.Some? ==> forall c :: Inside(c, bounds.value) ==> Inside(c, wider.value)
    ensures AddedTiles(tiles0, boxes0, tiles[id := tile], boxes[id := GetTileBounds(textures, tile)], textures,
                       ids + [id], added + [tile], wider)
  {
    LocatedStep(tiles, boxes, textures, id, tile);
    AddedSnoc(tiles0, tiles, added, ids, id, tile);
    hide GetTileBounds, Inside, Normal, Located, TilesAdded;
  }

  /** The boxes of the tiles at some ids, taken as a batch over what was there. */
  lemma OverlayBatch(boxes0: Boxes, boxes: Boxes, ids: seq<nat>)
    requires Distinct(ids) && forall id :: id in ids ==> id in boxes
    requires forall id :: id in boxes <==> id in boxes0 || id in ids
    requires forall id :: id in boxes && id !in ids ==> boxes[id] == boxes0[id]
    requires forall id :: id in boxes ==> Normal(boxes[id])
    ensures DB.DistinctIds(BatchOf(boxes, ids)) && DB.WithBatch(boxes0, BatchOf(boxes, ids)) == boxes
    ensures forall k :: 0 <= k < |ids| ==> Normal(BatchOf(boxes, ids)[k].box)
  {
    var batch, gone := BatchOf(boxes, ids), DB.IdSet(ids);
    BatchGivesLocations(boxes0 - gone, boxes, batch, ids);
    BatchOverwrites(boxes0, gone, batch);
    forall id | id in gone ensures id in BatchIds(batch) {
      var k :| 0 <= k < |ids| && ids[k] == id;
      assert batch[k].id == id;
    }
    hide DB.WithBatch, Normal;
    assert gone - BatchIds(batch) == {};
    assert DB.WithBatch(boxes0, batch) - {} == DB.WithBatch(boxes0, batch);
  }

  lemma AddedBatch(tiles0: Tiles, boxes0: Boxes, tiles: Tiles, boxes: Boxes, textures: seq<TextureInfo>,
                   ids: seq<nat>, added: seq<MapTile>, bounds: Option<Box>)
    requires AddedTiles(tiles0, boxes0, tiles, boxes, textures, ids, added, bounds) && Located(tiles0, boxes0, textures)
    requires PositiveFrames(textures) && bounds.Some?
    ensures |ids| == |added| && forall id :: id in ids ==> id in boxes
    ensures DB.DistinctIds(BatchOf(boxes, ids)) && DB.WithBatch(boxes0, BatchOf(boxes, ids)) == boxes
    ensures forall k :: 0 <= k < |ids| ==> Inside(BatchOf(boxes, ids)[k].box, bounds.value) && Normal(BatchOf(boxes, ids)[k].box)
    ensures DB.Agrees(BatchOf(boxes, ids), boxes0) <==> IdsFit(textures, tiles0, added, ids)
    ensures Located(tiles, boxes, textures) && TilesAdded(tiles0, tiles, added, ids)
    ensures forall id :: id in tiles <==> id in tiles0 || id in ids
  {
    BoxesAreNormal(tiles, boxes, textures);
    hide GetTileBounds, Inside, Normal, DB.WithBatch;
    OverlayBatch(boxes0, boxes, ids);
    hide DB.DistinctIds;
    forall k | 0 <= k < |ids| ensures ids[k] in boxes && boxes[ids[k]] == GetTileBounds(textures, added[k]) {
      assert ids[k] in tiles;
    }
  }
}
