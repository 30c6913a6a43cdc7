/** The single-box and multi-box frame editors (Editor/FrameEditorSingleBox.cpp and
    Editor/FrameEditorMultiBox.cpp): what a drawing gesture stores. */
module FrameEditorBoxes {
  import opened CellSets
  import opened EdgeSets
  import opened FrameEditorUtil
  import opened Geometry
  import opened Options

  function DefaultSingleBox(): (b: Box)
    ensures Normal(b)
  {
    FromFrameCenterAndSize(Vec(0, 0), Vec(4, 4))
  }

  function Thickness(b: Box, kind: EdgeType): int {
    if kind.Top? || kind.Bottom? then b.end.y - b.start.y + 1 else b.end.x - b.start.x + 1
  }

  function MoveSide(b: Box, kind: EdgeType, k: int): Box {
    match kind
    case Top => b.(end := Vec(b.end.x, b.end.y + k))
    case Bottom => b.(start := Vec(b.start.x, b.start.y - k))
    case Left => b.(start := Vec(b.start.x - k, b.start.y))
    case Right => b.(end := Vec(b.end.x + k, b.end.y))
  }

  /** The edge of one type of a box. */
  function BoxEdge(b: Box, kind: EdgeType): Edge {
    match kind
    case Top => Edge(Vec(b.start.x, b.end.y), Vec(b.end.x + 1, b.end.y), Top)
    case Bottom => Edge(b.start, Vec(b.end.x + 1, b.start.y), Bottom)
    case Left => Edge(b.start, Vec(b.start.x, b.end.y + 1), Left)
    case Right => Edge(Vec(b.end.x, b.start.y), Vec(b.end.x, b.end.y + 1), Right)
  }

  /** The boundary of a box has one edge of each type. */
  lemma BoxEdgeIsOnlyRun(b: Box, e: Edge)
    requires Normal(b)
    ensures MaximalRun(e, BoxCells(b)) <==> e == BoxEdge(b, e.kind)
  {
    var cells := BoxCells(b);
    if MaximalRun(e, cells) {
      assert OnEdge(e, e.p1);
      var last := Minus(e.p2, CheckDirection(e.kind));
      assert OnEdge(e, last);
      assert Side(cells, e.kind, e.p1) && Side(cells, e.kind, last);
    }
  }

  lemma {:induction false} BoxErosion(b: Box, kind: EdgeType, k: int)
    requires Normal(b) && 0 <= k
    ensures ErosionDepth(BoxEdge(b, kind), k, BoxCells(b)) == Min(k, Thickness(b, kind) - 1)
  {
    if k > 0 {
      BoxErosion(b, kind, k - 1);
      var e := BoxEdge(b, kind);
      if k < Thickness(b, kind) {
        assert FullLayer(e, k, BoxCells(b));
      } else {
        var p := match kind
          case Top => Vec(b.start.x, b.end.y - k)
          case Bottom => Vec(b.start.x, b.start.y + k)
          case Left => Vec(b.start.x + k, b.start.y)
          case Right => Vec(b.end.x - k, b.start.y);
        assert Within(e, p) && Depth(e, p) == -k && !In(b, p);
      }
    }
  }

  /** Dragging a side of a box gives a box; it keeps a thickness of one at least. */
  lemma BoxDrag(b: Box, kind: EdgeType, k: int)
    requires Normal(b)
    ensures var d := Max(k, 1 - Thickness(b, kind));
      && Normal(MoveSide(b, kind, d))
      && DragCells(BoxCells(b), BoxEdge(b, kind), k) == BoxCells(MoveSide(b, kind, d))
      && DragEdge(BoxCells(b), BoxEdge(b, kind), k) == BoxEdge(MoveSide(b, kind, d), kind)
  {
    if k < 0 {
      BoxErosion(b, kind, -k);
    }
  }

  /** The boxes that rasterising a box, dragging an edge and, when it grew, rasterising again
      lead to. */
  method DragToBoxes(b: Box, e: Edge, k: int) returns (boxList: seq<Box>, moved: Edge)
    requires Normal(b) && MaximalRun(e, BoxCells(b))
    ensures GreedyList(boxList, DragCells(BoxCells(b), e, k), true) && moved == DragEdge(BoxCells(b), e, k)
  {
    hide BoxCells, ErosionDepth, MaximalRun, GreedyList, DragCells, DragEdge, In, Within, Depth;
    EdgeOfBox(b, e);
    SingleBoxIsRasterizable(b);
    var byteArray := new FrameEditorByteArray.FromBox(b);
    var newBox: Option<Box>;
    if k < 0 {
      byteArray.BoundaryDragInGrid(e, -k);
    }
    moved, newBox := byteArray.OffsetEdge(e, k);
    if newBox.Some? {
      DragCover(b, e, k, newBox.value);
      var newByteArray := new FrameEditorByteArray.FromBoxes([b, newBox.value]);
      boxList := newByteArray.ConvertToMaximalBoxes();
    } else {
      NoDrag(BoxCells(b), e);
      boxList := byteArray.ConvertToMaximalBoxes();
    }
  }

  /** Takes the first of these boxes: it is the only one. */
  method DragBox(b: Box, e: Edge, k: int) returns (box: Box, moved: Edge)
    requires Normal(b) && MaximalRun(e, BoxCells(b))
    ensures box == MoveSide(b, e.kind, Max(k, 1 - Thickness(b, e.kind))) && Normal(box)
    ensures MaximalRun(moved, BoxCells(box)) && moved.kind == e.kind
  {
    hide BoxCells, MaximalRun, BoxEdge, GreedyList, DragCells, DragEdge, MoveSide, Thickness;
    ghost var expected := MoveSide(b, e.kind, Max(k, 1 - Thickness(b, e.kind)));
    BoxEdgeIsOnlyRun(b, e);
    BoxDrag(b, e.kind, k);
    var boxList: seq<Box>;
    boxList, moved := DragToBoxes(b, e, k);
    SingleBoxIsGreedy(expected, true);
    GreedyListUnique(boxList, [expected], BoxCells(expected), true);
    box := boxList[0];
    BoxEdgeIsOnlyRun(box, moved);
    MovedEdgeKind(BoxCells(b), e, k);
  }

  lemma MovedEdgeKind(cells: iset<Vec>, e: Edge, k: int)
    ensures DragEdge(cells, e, k).kind == e.kind
  {
  }

  lemma NoDrag(cells: iset<Vec>, e: Edge)
    ensures DragCells(cells, e, 0) == cells
  {
  }

  lemma EdgeOfBox(b: Box, e: Edge)
    requires Normal(b) && MaximalRun(e, BoxCells(b))
    ensures BoundaryRun(e, BoxCells(b)) && Straight(e)
  {
  }

  /** An entry of the list of frame data. */
  datatype FrameData<T> = FrameData(name: string, data: T)

  /** Looks for the last entry of a name. */
  method FindDataIndex<T>(list: seq<FrameData<T>>, name: string) returns (index: int)
    ensures -1 <= index < |list|
    ensures index >= 0 ==> list[index].name == name
    ensures forall k :: index < k < |list| ==> list[k].name != name
  {
    index := -1;
    for k := 0 to |list|
      invariant -1 <= index < k
      invariant index >= 0 ==> list[index].name == name
      invariant forall j :: index < j < k ==> list[j].name != name
    {
      if list[k].name == name {
        index := k;
      }
    }
  }

  /** The data at an index, if there is a list and an index. */
  function DataAt<T>(list: Option<seq<FrameData<T>>>, index: int): Option<T>
    requires list.Some? ==> -1 <= index < |list.value|
  {
    if list.Some? && index != -1 then Some(list.value[index].data) else None
  }

  /** The entry at the index has new data, or a new entry of the name is at the end; the others
      are as they were. */
  ghost predicate DataWritten<T>(before: seq<FrameData<T>>, after: seq<FrameData<T>>, name: string, index: int, index': int, data: T)
    requires -1 <= index < |before|
  {
    if index != -1 then index' == index && after == before[index := before[index].(data := data)]
    else index' == |before| && after == before + [FrameData(name, data)]
  }

  method WriteEntry<T>(list: seq<FrameData<T>>, name: string, index: int, data: T) returns (list': seq<FrameData<T>>, index': int)
    requires -1 <= index < |list|
    ensures DataWritten(list, list', name, index, index', data)
  {
    if index != -1 {
      list', index' := list[index := list[index].(data := data)], index;
    } else {
      list' := list + [FrameData(name, data)];
      index' := FindDataIndex(list', name);
      assert list'[|list|].name == name;
    }
  }

  class FrameEditorSingleBox {
    var list: Option<seq<FrameData<Box>>>
    var frameDataName: string
    var frameDataIndex: int
    var previewBox: Option<Box>
    var previewEdge: Option<Edge>
    var previewOffset: int
    var drawStart: Vec

    /** An editor for the entry of a name, which the list need not have. */
    constructor (list: Option<seq<FrameData<Box>>>, name: string)
      requires list.Some? ==> forall k :: 0 <= k < |list.value| ==> Normal(list.value[k].data)
      ensures Valid() && this.list == list && frameDataName == name && previewBox.None? && previewEdge.None?
      ensures Stored().Some? ==> list.Some? && 0 <= frameDataIndex < |list.value| && list.value[frameDataIndex].name == name
      ensures Stored().None? && list.Some? ==> forall k :: 0 <= k < |list.value| ==> list.value[k].name != name
    {
      this.list, frameDataName, frameDataIndex := list, name, -1;
      previewBox, previewEdge, previewOffset, drawStart := None, None, 0, Vec(0, 0);
      new;
      if list.Some? {
        frameDataIndex := FindDataIndex(list.value, name);
      }
    }

    predicate IndexInList()
      reads this
    {
      list.Some? ==> -1 <= frameDataIndex < |list.value|
    }

    /** The box stored, if there is one. */
    function Stored(): Option<Box>
      requires IndexInList()
      reads this
    {
      DataAt(list, frameDataIndex)
    }

    /** The box shown when nothing is being dragged. */
    ghost function Current(): Box
      requires IndexInList()
      reads this
    {
      if previewBox.Some? then previewBox.value
      else if Stored().Some? then Stored().value
      else DefaultSingleBox()
    }

    /** A highlighted edge is one of the edges of the box shown. */
    ghost predicate Valid()
      reads this
    {
      && IndexInList() && Normal(Current())
      && (Stored().Some? ==> Normal(Stored().value))
      && (previewBox.Some? ==> previewEdge.Some?)
      && (previewEdge.Some? ==> MaximalRun(previewEdge.value, BoxCells(Current())))
    }

    /** What the drag shows: the box with one side moved. */
    ghost function Preview(): Box
      requires Valid()
      reads this
    {
      if previewBox.None? then Current()
      else
        var kind := previewEdge.value.kind;
        MoveSide(Current(), kind, Max(previewOffset, 1 - Thickness(Current(), kind)))
    }

    method GetPreviewData() returns (box: Box, edge: Option<Edge>)
      requires Valid()
      ensures box == Preview() && Normal(box)
      ensures edge.Some? <==> previewEdge.Some?
      ensures edge.Some? ==> MaximalRun(edge.value, BoxCells(box)) && edge.value.kind == previewEdge.value.kind
    {
      if previewBox.Some? {
        box := previewBox.value;
        var moved: Edge;
        box, moved := DragBox(box, previewEdge.value, previewOffset);
        edge := Some(moved);
      } else if Stored().Some? {
        box, edge := Stored().value, previewEdge;
      } else {
        box, edge := DefaultSingleBox(), previewEdge;
      }
    }

    /** Stores a box in the entry of the name, or in a new one, and in no other. */
    method WriteData(box: Box)
      requires IndexInList()
      modifies this`list, this`frameDataIndex
      ensures IndexInList()
      ensures old(list).None? ==> list.None?
      ensures old(list).Some? ==>
        && list.Some? && Stored() == Some(box)
        && DataWritten(old(list).value, list.value, frameDataName, old(frameDataIndex), frameDataIndex, box)
    {
      if list.None? {
        return;
      }
      var written, index := WriteEntry(list.value, frameDataName, frameDataIndex, box);
      list, frameDataIndex := Some(written), index;
    }

    method DrawStart(pos: Vec) returns (started: bool)
      requires Valid() && previewBox.None?
      modifies this`previewBox, this`drawStart, this`previewOffset
      ensures Valid() && list == old(list) && frameDataIndex == old(frameDataIndex) && previewEdge == old(previewEdge)
      ensures started <==> previewEdge.Some?
      ensures started ==> previewBox == Some(old(Current())) && previewOffset == 0 && drawStart == pos
    {
      started := false;
      if previewEdge.Some? {
        var box, _ := GetPreviewData();
        previewBox := Some(box);
        drawStart := pos;
        previewOffset := 0;
        started := true;
      }
    }

    method DrawMove(pos: Vec)
      requires Valid() && previewBox.Some?
      modifies this`previewOffset
      ensures Valid()
      ensures previewOffset == Depth(previewEdge.value, pos) - Depth(previewEdge.value, drawStart)
    {
      previewOffset := GetOffsetForEdgeMove(previewEdge.value.kind, drawStart, pos);
    }

    /** Ends the drag: the box stored is the grabbed one with the grabbed side moved. */
    method DrawEnd()
      requires Valid() && previewBox.Some?
      modifies this`list, this`frameDataIndex, this`previewBox, this`previewEdge
      ensures Valid() && frameDataName == old(frameDataName)
      ensures old(list).None? || old(previewOffset) == 0 ==> list == old(list)
      ensures old(list).Some? && old(previewOffset) != 0 ==>
        && list.Some? && Stored() == Some(old(Preview()))
        && DataWritten(old(list).value, list.value, frameDataName, old(frameDataIndex), frameDataIndex, old(Preview()))
      ensures previewBox.None? && previewEdge.None?
    {
      if previewOffset != 0 {
        var box, _ := GetPreviewData();
        WriteData(box);
      }
      previewEdge := None;
      previewBox := None;
    }
  }

  lemma SingleBoxIsRasterizable(b: Box)
    requires Normal(b)
    ensures Rasterizable([b])
  {
    NormalIsRasterizable([b]);
  }

  /** Outward, the box swept over together with the old box are the dragged cells. */
  lemma DragCover(b: Box, e: Edge, k: int, swept: Box)
    requires Normal(b) && MaximalRun(e, BoxCells(b)) && k > 0
    requires forall p :: In(swept, p) <==> Within(e, p) && 0 <= Depth(e, p) <= k
    ensures Cover([b, swept]) == DragCells(BoxCells(b), e, k)
    ensures Rasterizable([b, swept])
  {
    CoverSnoc([], b);
    CoverSnoc([b], swept);
    assert [b] + [swept] == [b, swept] && [] + [b] == [b];
    SweptIsDragged(BoxCells(b), e, k, swept);
    assert In(swept, e.p1);
    NormalIsRasterizable([b, swept]);
  }

  lemma SweptIsDragged(cells: iset<Vec>, e: Edge, k: int, swept: Box)
    requires BoundaryRun(e, cells) && k > 0
    requires forall p :: In(swept, p) <==> Within(e, p) && 0 <= Depth(e, p) <= k
    ensures cells + BoxCells(swept) == DragCells(cells, e, k)
  {
    assert forall p :: Within(e, p) && Depth(e, p) == 0 ==> OnEdge(e, p);
  }

  datatype EditMode = NoEdit | EdgeEdit | AddEdit | RemoveEdit

  /** The cells an edit of the given mode leaves. */
  ghost function EditedCells(cells: iset<Vec>, mode: EditMode, drawn: Box, edge: Option<Edge>, offset: int): iset<Vec>
    requires mode.EdgeEdit? ==> edge.Some?
  {
    match mode
    case NoEdit => cells
    case EdgeEdit => DragCells(cells, edge.value, offset)
    case AddEdit => cells + BoxCells(drawn)
    case RemoveEdit => cells - BoxCells(drawn)
  }

  /** Drags one edge of a list of boxes. */
  method DragList(boxes: seq<Box>, edge: Edge, offset: int) returns (r: seq<Box>, moved: Edge)
    requires Rasterizable(boxes) && BoundaryRun(edge, Cover(boxes))
    ensures Rasterizable(r) && Cover(r) == DragCells(Cover(boxes), edge, offset)
    ensures moved == DragEdge(Cover(boxes), edge, offset)
  {
    hide DragCells, DragEdge, Cover, Rasterizable, GreedyPrefix;
    var byteArray := new FrameEditorByteArray.FromBoxes(boxes);
    var newBox: Option<Box>;
    if offset < 0 {
      byteArray.BoundaryDragInGrid(edge, -offset);
    }
    moved, newBox := byteArray.OffsetEdge(edge, offset);
    if newBox.Some? {
      r := boxes + [newBox.value];
      CoverSnoc(boxes, newBox.value);
      SweptIsDragged(Cover(boxes), edge, offset, newBox.value);
      assert In(newBox.value, edge.p1);
      SingleBoxIsRasterizable(newBox.value);
      RasterizableSnoc(boxes, newBox.value);
      var newByteArray := new FrameEditorByteArray.FromBoxes(r);
      r := newByteArray.ConvertToMinimalBoxes();
      GreedyCoversExactly(r, newByteArray.Cells(), false);
      GreedyIsNormal(r, newByteArray.Cells(), false);
    } else {
      NoDrag(Cover(boxes), edge);
      r := byteArray.ConvertToMaximalBoxes();
      GreedyCoversExactly(r, byteArray.Cells(), true);
      GreedyIsNormal(r, byteArray.Cells(), true);
    }
    NormalIsRasterizable(r);
  }

  /** Adds a box to the cells of a list. */
  method WithBox(boxes: seq<Box>, box: Box) returns (r: seq<Box>)
    requires Rasterizable(boxes) && Normal(box)
    ensures GreedyList(r, Cover(boxes) + BoxCells(box), false)
  {
    hide BoxCells, Rasterizable, GreedyList, Cover;
    SingleBoxIsRasterizable(box);
    var byteArray := new FrameEditorByteArray.FromBoxes(boxes);
    byteArray.AddBox(box);
    r := byteArray.ConvertToMinimalBoxes();
  }

  /** Takes a box out of the cells of a list. */
  method WithoutBox(boxes: seq<Box>, box: Box) returns (r: seq<Box>)
    requires Rasterizable(boxes)
    ensures GreedyList(r, Cover(boxes) - BoxCells(box), false)
  {
    hide BoxCells, Rasterizable, GreedyList, Cover;
    var byteArray := new FrameEditorByteArray.FromBoxes(boxes);
    byteArray.RemoveBox(box);
    r := byteArray.ConvertToMinimalBoxes();
  }

  class FrameEditorMultiBox {
    var list: Option<seq<FrameData<seq<Box>>>>
    var frameDataName: string
    var frameDataIndex: int
    var editMode: EditMode
    var drawStart: Vec
    var drawEnd: Vec
    var previewEdge: Option<Edge>
    var previewOffset: int

    /** An editor for the entry of a name, which the list need not have. */
    constructor (list: Option<seq<FrameData<seq<Box>>>>, name: string)
      requires list.Some? ==> forall k :: 0 <= k < |list.value| ==> Rasterizable(list.value[k].data)
      ensures Valid() && this.list == list && frameDataName == name && previewEdge.None? && editMode.NoEdit?
      ensures Stored().Some? ==> list.Some? && 0 <= frameDataIndex < |list.value| && list.value[frameDataIndex].name == name
      ensures Stored().None? && list.Some? ==> forall k :: 0 <= k < |list.value| ==> list.value[k].name != name
    {
      this.list, frameDataName, frameDataIndex := list, name, -1;
      previewEdge, editMode, previewOffset := None, NoEdit, 0;
      drawStart, drawEnd := Vec(0, 0), Vec(0, 0);
      new;
      SingleBoxIsRasterizable(DefaultSingleBox());
      if list.Some? {
        frameDataIndex := FindDataIndex(list.value, name);
      }
    }

    predicate IndexInList()
      reads this
    {
      list.Some? ==> -1 <= frameDataIndex < |list.value|
    }

    function Stored(): Option<seq<Box>>
      requires IndexInList()
      reads this
    {
      DataAt(list, frameDataIndex)
    }

    function Boxes(): seq<Box>
      requires IndexInList()
      reads this
    {
      if Stored().Some? then Stored().value else [DefaultSingleBox()]
    }

    /** A grabbed edge is a run of the boundary of the boxes stored. */
    ghost predicate Valid()
      reads this
    {
      && IndexInList() && Rasterizable(Boxes())
      && (editMode.EdgeEdit? ==> previewEdge.Some?)
      && (previewEdge.Some? ==> BoundaryRun(previewEdge.value, Cover(Boxes())))
    }

    /** The cells the gesture in hand leaves. */
    ghost function Edited(): iset<Vec>
      requires Valid()
      reads this
    {
      EditedCells(Cover(Boxes()), editMode, FromPoints(drawStart, drawEnd), previewEdge, previewOffset)
    }

    method GetPreviewData() returns (boxes: seq<Box>, edge: Option<Edge>)
      requires Valid()
      ensures GreedyList(boxes, Edited(), false)
      ensures edge == if editMode.EdgeEdit? then Some(DragEdge(Cover(Boxes()), previewEdge.value, previewOffset)) else previewEdge
    {
      hide BoxCells, Rasterizable, GreedyList, DragCells, DragEdge;
      boxes := Boxes();
      edge := previewEdge;
      if editMode.EdgeEdit? {
        var moved: Edge;
        boxes, moved := DragList(boxes, previewEdge.value, previewOffset);
        edge := Some(moved);
      } else if editMode.AddEdit? {
        boxes := WithBox(boxes, FromPoints(drawStart, drawEnd));
        return;
      } else if editMode.RemoveEdit? {
        boxes := WithoutBox(boxes, FromPoints(drawStart, drawEnd));
        return;
      }
      var byteArray := new FrameEditorByteArray.FromBoxes(boxes);
      boxes := byteArray.ConvertToMinimalBoxes();
    }

    /** Stores the maximal boxes of the cells of a list, when there is a list to store in. */
    method WriteData(boxes: seq<Box>)
      requires IndexInList() && Rasterizable(boxes)
      modifies this`list, this`frameDataIndex
      ensures IndexInList()
      ensures old(list).None? ==> list.None?
      ensures old(list).Some? ==>
        && list.Some? && Stored().Some? && GreedyList(Stored().value, Cover(boxes), true)
        && DataWritten(old(list).value, list.value, frameDataName, old(frameDataIndex), frameDataIndex, Stored().value)
    {
      if list.None? {
        return;
      }
      var byteArray := new FrameEditorByteArray.FromBoxes(boxes);
      var newBoxList := byteArray.ConvertToMaximalBoxes();
      var written, index := WriteEntry(list.value, frameDataName, frameDataIndex, newBoxList);
      list, frameDataIndex := Some(written), index;
    }

    method DrawStart(pos: Vec, alt: bool, ctrl: bool) returns (started: bool)
      requires Valid()
      modifies this`drawStart, this`drawEnd, this`editMode, this`previewOffset
      ensures Valid() && started && drawStart == pos
      ensures editMode == if alt then RemoveEdit else if ctrl || previewEdge.None? then AddEdit else EdgeEdit
      ensures editMode.EdgeEdit? ==> previewOffset == 0
      ensures !editMode.EdgeEdit? ==> drawEnd == pos
    {
      if alt {
        drawStart, drawEnd := pos, pos;
        editMode := RemoveEdit;
      } else if ctrl || previewEdge.None? {
        drawStart, drawEnd := pos, pos;
        editMode := AddEdit;
      } else {
        drawStart := pos;
        previewOffset := 0;
        editMode := EdgeEdit;
      }
      started := true;
    }

    method DrawMove(pos: Vec)
      requires Valid()
      modifies this`drawEnd, this`previewOffset
      ensures Valid() && drawEnd == pos
      ensures editMode.EdgeEdit? ==> previewOffset == Depth(previewEdge.value, pos) - Depth(previewEdge.value, drawStart)
    {
      drawEnd := pos;
      if editMode.EdgeEdit? {
        previewOffset := GetOffsetForEdgeMove(previewEdge.value.kind, drawStart, pos);
      }
    }

    /** Ends the gesture: the boxes stored denote exactly the edited cells. */
    method DrawEnd()
      requires Valid()
      modifies this`list, this`frameDataIndex, this`previewEdge, this`editMode
      ensures Valid() && previewEdge.None? && editMode.NoEdit?
      ensures old(list).None? || (old(editMode).EdgeEdit? && previewOffset == 0) ==> list == old(list)
      ensures old(list).Some? && !(old(editMode).EdgeEdit? && previewOffset == 0) ==>
        && list.Some? && Stored().Some?
        && Cover(Stored().value) == old(Edited()) && GreedyList(Stored().value, old(Edited()), true)
        && DataWritten(old(list).value, list.value, frameDataName, old(frameDataIndex), frameDataIndex, Stored().value)
    {
      hide GreedyPrefix, EditedCells, Cover;
      if !editMode.EdgeEdit? || previewOffset != 0 {
        ghost var edited := Edited();
        var boxes, _ := GetPreviewData();
        GreedyCoversExactly(boxes, edited, false);
        GreedyIsNormal(boxes, edited, false);
        NormalIsRasterizable(boxes);
        WriteData(boxes);
        if list.Some? {
          GreedyCoversExactly(Stored().value, edited, true);
          GreedyIsNormal(Stored().value, edited, true);
          NormalIsRasterizable(Stored().value);
        }
      }
      previewEdge := None;
      editMode := NoEdit;
    }

    method DrawCancel()
      requires Valid()
      modifies this`previewEdge, this`editMode
      ensures Valid() && previewEdge.None? && editMode.NoEdit?
    {
      previewEdge := None;
      editMode := NoEdit;
    }
  }
}
