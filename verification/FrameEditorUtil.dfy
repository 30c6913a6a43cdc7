/** The byte grid of the frame editors (Editor/FrameEditorUtil.cpp). */
module FrameEditorUtil {
  import opened BoundaryCounts
  import opened CellSets
  import opened EdgeSets
  import opened Geometry
  import opened Options

  function BoundsOf(boxes: seq<Box>): (r: Box)
    requires boxes != []
    ensures forall k :: 0 <= k < |boxes| ==> Inside(boxes[k], r)
  {
    if |boxes| == 1 then boxes[0]
    else BoxUnion(BoundsOf(boxes[..|boxes| - 1]), boxes[|boxes| - 1])
  }

  /** The grid needs a size that is not negative. Every list of boxes that are not
      inverted has one. */
  predicate Rasterizable(boxes: seq<Box>) {
    boxes == [] ||
    (var b := BoundsOf(boxes); b.end.x - b.start.x + 3 >= 0 && b.end.y - b.start.y + 3 >= 0)
  }

  lemma NormalIsRasterizable(boxes: seq<Box>)
    requires forall k :: 0 <= k < |boxes| ==> Normal(boxes[k])
    ensures Rasterizable(boxes)
  {
    if boxes != [] {
      assert Inside(boxes[0], BoundsOf(boxes));
    }
  }

  lemma RasterizableSnoc(boxes: seq<Box>, b: Box)
    requires Rasterizable(if boxes == [] then [b] else boxes)
    ensures Rasterizable(boxes + [b])
  {
    if boxes == [] {
      assert boxes + [b] == [b];
    } else {
      assert (boxes + [b])[..|boxes|] == boxes;
    }
  }

  method BoundsOfBoxes(boxes: seq<Box>) returns (b: Box)
    requires boxes != []
    ensures b == BoundsOf(boxes)
  {
    b := boxes[0];
    for index := 1 to |boxes|
      invariant b == BoundsOf(boxes[..index])
    {
      assert boxes[..index + 1][..index] == boxes[..index];
      b := BoxUnion(b, boxes[index]);
    }
    assert boxes[..|boxes|] == boxes;
  }

  /** Writes v in the cells of columns x0..x1 and rows y0..y1 (upper bounds excluded). */
  method Fill(data: array2<bool>, x0: int, x1: int, y0: int, y1: int, v: bool)
    requires x0 < x1 && y0 < y1 ==> 0 <= x0 && x1 <= data.Length1 && 0 <= y0 && y1 <= data.Length0
    modifies data
    ensures forall i, j :: 0 <= i < data.Length1 && 0 <= j < data.Length0 ==>
      data[j, i] == if x0 <= i < x1 && y0 <= j < y1 then v else old(data[j, i])
  {
    var y := y0;
    while y < y1
      invariant y == y0 || y0 <= y <= y1
      invariant forall i, j :: 0 <= i < data.Length1 && 0 <= j < data.Length0 ==>
        data[j, i] == if x0 <= i < x1 && y0 <= j < y then v else old(data[j, i])
    {
      var x := x0;
      while x < x1
        invariant x == x0 || x0 <= x <= x1
        invariant forall i, j :: 0 <= i < data.Length1 && 0 <= j < data.Length0 ==>
          data[j, i] == if (x0 <= i < x1 && y0 <= j < y) || (j == y && x0 <= i < x) then v else old(data[j, i])
      {
        data[y, x] := v;
        x := x + 1;
      }
      y := y + 1;
    }
  }

  lemma FlatIndexInjective(width: int, x: int, y: int, x': int, y': int)
    requires 0 <= x < width && 0 <= x' < width && FlatIndex(x, y, width) == FlatIndex(x', y', width)
    ensures x == x' && y == y'
  {
    if y < y' {
      MulMono(y + 1, y', width);
    } else if y' < y {
      MulMono(y' + 1, y, width);
    }
  }

  /** No cell, set or not, is outside the grid that stands for it: y * width + x numbers the
      cells of the grid without gap or repeat, so rows and columns may be told apart. */
  lemma FlatIndexIsBijective(width: int, height: int, i: int)
    requires width >= 0 && height >= 0
    ensures 0 <= i < width * height <==>
      exists x, y :: 0 <= x < width && 0 <= y < height && FlatIndex(x, y, width) == i
    ensures forall x, y, x', y' ::
      0 <= x < width && 0 <= x' < width && FlatIndex(x, y, width) == FlatIndex(x', y', width) ==> x == x' && y == y'
  {
    if 0 <= i < width * height {
      assert i < height * width;
      assert FlatIndex(i % width, i / width, width) == i;
      DivBelow(i, width, height);
    }
    forall x, y | 0 <= x < width && 0 <= y < height && FlatIndex(x, y, width) == i ensures 0 <= i < width * height {
      MulMono(y, height - 1, width);
    }
    forall x, y, x', y' | 0 <= x < width && 0 <= x' < width && FlatIndex(x, y, width) == FlatIndex(x', y', width)
      ensures x == x' && y == y'
    {
      FlatIndexInjective(width, x, y, x', y');
    }
  }

  function FlatIndex(x: int, y: int, width: int): int { y * width + x }

  lemma MulMono(a: int, b: int, w: int)
    requires a <= b && 0 <= w
    ensures a * w <= b * w
  {
  }

  lemma DivBelow(i: int, w: int, h: int)
    requires 0 <= i < h * w && 0 < w
    ensures 0 <= i / w < h
  {
    if h <= i / w {
      MulMono(h, i / w, w);
    }
  }

  /** The boxes of a set of cells, and one more. */
  lemma BoxesAndOne(boxes: seq<Box>, cells: iset<Vec>, box: Box)
    requires GreedyList(boxes, cells, false) && (Rasterizable([box]) || cells != iset{})
    ensures Rasterizable(boxes + [box]) && Cover(boxes + [box]) == cells + BoxCells(box)
  {
    hide GreedyPrefix, BoxCells;
    GreedyCoversExactly(boxes, cells, false);
    GreedyIsNormal(boxes, cells, false);
    CoverSnoc(boxes, box);
    NormalIsRasterizable(boxes);
    RasterizableSnoc(boxes, box);
  }

  /** How much further out the end is than the start. */
  function GetOffsetForEdgeMove(kind: EdgeType, start: Vec, end: Vec): (r: int)
    ensures forall e: Edge :: e.kind == kind ==> r == Depth(e, end) - Depth(e, start)
  {
    match kind
    case Top => end.y - start.y
    case Bottom => start.y - end.y
    case Left => start.x - end.x
    case Right => end.x - start.x
  }

  class FrameEditorByteArray {
    var origin: Vec
    var size: Vec
    var data: array2<bool>

    ghost predicate Valid()
      reads this
    {
      data.Length0 == size.y && data.Length1 == size.x
    }

    ghost predicate InGrid(p: Vec)
      reads this
    {
      0 <= p.x - origin.x < size.x && 0 <= p.y - origin.y < size.y
    }

    /** The set cells, in absolute coordinates. */
    ghost function Cells(): iset<Vec>
      requires Valid()
      reads this, data
    {
      iset p: Vec | InGrid(p) && data[p.y - origin.y, p.x - origin.x]
    }

    /** No set cell touches the border of the grid. */
    ghost predicate Padded()
      requires Valid()
      reads this, data
    {
      forall p :: p in Cells() ==> 1 <= p.x - origin.x < size.x - 1 && 1 <= p.y - origin.y < size.y - 1
    }

    /** The set cells that do not touch the border. */
    ghost function Core(): iset<Vec>
      requires Valid()
      reads this, data
    {
      iset p: Vec | p in Cells() && 1 <= p.x - origin.x < size.x - 1 && 1 <= p.y - origin.y < size.y - 1
    }

    /** Writes one value in all the cells of a box that lies in the grid. */
    method WriteBox(box: Box, v: bool)
      requires Valid()
      requires Normal(box) ==> InGrid(box.start) && InGrid(box.end)
      modifies data
      ensures Cells() == if v then old(Cells()) + BoxCells(box) else old(Cells()) - BoxCells(box)
    {
      var extent := Plus(Minus(box.end, box.start), Vec(1, 1));
      var offset := Minus(box.start, origin);
      Fill(data, offset.x, offset.x + extent.x, offset.y, offset.y + extent.y, v);
    }

    constructor FromBox(rhs: Box)
      requires Rasterizable([rhs])
      ensures Valid() && fresh(data)
      ensures Cells() == BoxCells(rhs) && Padded()
    {
      origin := Minus(rhs.start, Vec(1, 1));
      size := Plus(Minus(rhs.end, rhs.start), Vec(3, 3));
      data := new bool[rhs.end.y - rhs.start.y + 3, rhs.end.x - rhs.start.x + 3]((_, _) => false);
      new;
      Fill(data, 1, size.x - 1, 1, size.y - 1, true);
    }

    /** The box keeps clear of the border ring. */
    ghost predicate Interior(box: Box)
      reads this
    {
      Normal(box) ==>
        1 <= box.start.x - origin.x && box.end.x - origin.x < size.x - 1 &&
        1 <= box.start.y - origin.y && box.end.y - origin.y < size.y - 1
    }

    /** Sets the cells of every box in turn. */
    method Rasterize(boxes: seq<Box>)
      requires Valid() && Cells() == iset{}
      requires forall k :: 0 <= k < |boxes| ==> Interior(boxes[k])
      modifies data
      ensures Cells() == Cover(boxes) && Padded()
    {
      for k := 0 to |boxes|
        invariant Cells() == Cover(boxes[..k]) && Padded()
      {
        assert Interior(boxes[k]);
        WriteBox(boxes[k], true);
        CoverSnoc(boxes[..k], boxes[k]);
        assert boxes[..k] + [boxes[k]] == boxes[..k + 1];
      }
      assert boxes[..|boxes|] == boxes;
    }

    constructor FromBoxes(rhs: seq<Box>)
      requires Rasterizable(rhs)
      ensures Valid() && fresh(data)
      ensures Cells() == Cover(rhs) && Padded()
    {
      if |rhs| == 0 {
        origin := Vec(0, 0);
        size := Vec(2, 2);
        data := new bool[2, 2]((_, _) => false);
      } else {
        var b := BoundsOfBoxes(rhs);
        origin := Minus(b.start, Vec(1, 1));
        size := Plus(Minus(b.end, b.start), Vec(3, 3));
        data := new bool[b.end.y - b.start.y + 3, b.end.x - b.start.x + 3]((_, _) => false);
      }
      new;
      assert Cells() == iset{};
      assert forall k :: 0 <= k < |rhs| ==> Inside(rhs[k], BoundsOf(rhs));
      Rasterize(rhs);
    }

    ghost function Abs(x: int, y: int): Vec
      reads this
    {
      Vec(x + origin.x, y + origin.y)
    }

    ghost predicate SameSize(marked: array2<bool>)
      reads this
    {
      marked.Length0 == size.y && marked.Length1 == size.x
    }

    /** The cells a scratch array of the size of the grid marks. */
    ghost function Marks(marked: array2<bool>): iset<Vec>
      requires SameSize(marked)
      reads this, marked
    {
      iset p: Vec | InGrid(p) && marked[p.y - origin.y, p.x - origin.x]
    }

    method MarkCell(marked: array2<bool>, x: int, y: int)
      requires SameSize(marked) && 0 <= x < size.x && 0 <= y < size.y
      modifies marked
      ensures Grown(old(Marks(marked)), Marks(marked), FromPoint(Abs(x, y)))
    {
      marked[y, x] := true;
    }

    method TestCell(marked: array2<bool>, x: int, y: int, overlap: bool) returns (ok: bool)
      requires Valid() && SameSize(marked) && 0 <= x < size.x && 0 <= y < size.y
      ensures ok <==> Abs(x, y) in Cells() && (overlap || Abs(x, y) !in Marks(marked))
    {
      ok := data[y, x] && (overlap || !marked[y, x]);
    }

    /** Widens a box on its first row and marks the cells after its start. */
    method ExtendRight(marked: array2<bool>, x: int, y: int, overlap: bool, ghost marks: iset<Vec>, ghost avail: iset<Vec>)
      returns (width: int)
      requires Valid() && SameSize(marked) && marked != data && marks == Marks(marked)
      requires 0 <= x < size.x && 0 <= y < size.y
      requires Abs(x, y) in avail && avail <= Cells()
      requires TestShows(Cells(), marks, overlap, avail, Box(Abs(x + 1, y), Abs(size.x, y)))
      modifies marked
      ensures 1 <= width <= size.x - x
      ensures AllIn(Row(origin.x + x, origin.x + x + width - 1, origin.y + y), avail)
      ensures Abs(x + width, y) !in avail
      ensures Grown(marks, Marks(marked), Row(origin.x + x + 1, origin.x + x + width - 1, origin.y + y))
    {
      width := 1;
      var bx := x + 1;
      while bx < size.x
        invariant bx == x + width <= size.x
        invariant AllIn(Row(origin.x + x, origin.x + bx - 1, origin.y + y), avail)
        invariant Grown(marks, Marks(marked), Row(origin.x + x + 1, origin.x + bx - 1, origin.y + y))
      {
        var ok := TestCell(marked, bx, y, overlap);
        if ok {
          MarkCell(marked, bx, y);
          width := width + 1;
        } else {
          return;
        }
        bx := bx + 1;
      }
    }

    method IsRowAvailable(marked: array2<bool>, x: int, y: int, width: int, overlap: bool, ghost avail: iset<Vec>)
      returns (ok: bool)
      requires Valid() && SameSize(marked)
      requires 0 <= x && x + width <= size.x && 0 <= y < size.y
      requires TestShows(Cells(), Marks(marked), overlap, avail, Row(origin.x + x, origin.x + x + width - 1, origin.y + y))
      ensures ok <==> AllIn(Row(origin.x + x, origin.x + x + width - 1, origin.y + y), avail)
    {
      var bx := x;
      while bx < x + width
        invariant bx == x || x <= bx <= x + width
        invariant AllIn(Row(origin.x + x, origin.x + bx - 1, origin.y + y), avail)
      {
        var free := TestCell(marked, bx, y, overlap);
        if !free {
          return false;
        }
        bx := bx + 1;
      }
      return true;
    }

    /** Adds rows below the first row of a box and marks them. */
    method ExtendDown(marked: array2<bool>, x: int, y: int, width: int, overlap: bool, ghost marks: iset<Vec>, ghost avail: iset<Vec>)
      returns (height: int)
      requires Valid() && SameSize(marked) && marked != data && marks == Marks(marked)
      requires 0 <= x && 1 <= width && x + width <= size.x && 0 <= y < size.y
      requires AllIn(Row(origin.x + x, origin.x + x + width - 1, origin.y + y), avail) && avail <= Cells()
      requires TestShows(Cells(), marks, overlap, avail, Box(Abs(x, y + 1), Abs(x + width - 1, size.y)))
      modifies marked
      ensures 1 <= height <= size.y - y
      ensures AllIn(Box(Abs(x, y), Abs(x + width - 1, y + height - 1)), avail)
      ensures !AllIn(Row(origin.x + x, origin.x + x + width - 1, origin.y + y + height), avail)
      ensures Grown(marks, Marks(marked), Box(Abs(x, y + 1), Abs(x + width - 1, y + height - 1)))
    {
      hide Marks;
      height := 1;
      var row := y + 1;
      while row < size.y
        invariant row == y + height <= size.y
        invariant AllIn(Box(Abs(x, y), Abs(x + width - 1, row - 1)), avail)
        invariant Grown(marks, Marks(marked), Box(Abs(x, y + 1), Abs(x + width - 1, row - 1)))
      {
        var ok := IsRowAvailable(marked, x, row, width, overlap, avail);
        if ok {
          MarkRow(marked, x, row, width);
          height := height + 1;
        } else {
          return;
        }
        row := row + 1;
      }
      assert Abs(x, row) !in Cells();
    }

    method MarkRow(marked: array2<bool>, x: int, y: int, width: int)
      requires Valid() && SameSize(marked) && marked != data
      requires 0 <= x && x + width <= size.x && 0 <= y < size.y
      modifies marked
      ensures Grown(old(Marks(marked)), Marks(marked), Row(origin.x + x, origin.x + x + width - 1, origin.y + y))
    {
      Fill(marked, x, x + width, y, y + 1, true);
    }

    /** Takes the greedy box that starts at (x, y). */
    method TakeBox(marked: array2<bool>, ghost taken: iset<Vec>, x: int, y: int, overlap: bool) returns (b: Box)
      requires Valid() && SameSize(marked) && marked != data
      requires 0 <= x < size.x && 0 <= y < size.y
      requires Abs(x, y) in Cells() && Abs(x, y) !in Marks(marked)
      requires Scanned(Cells(), Marks(marked), taken, Abs(x, y))
      modifies marked
      ensures b.start == Abs(x, y)
      ensures GreedyBox(b, Cells() - taken, Avail(Cells(), taken, overlap))
      ensures MarkedFor(old(Marks(marked)), Marks(marked), b)
    {
      hide Cells, Marks;
      ghost var avail := Avail(Cells(), taken, overlap);
      FirstFreeCell(Cells(), Marks(marked), taken, Abs(x, y));
      var width := ExtendRight(marked, x, y, overlap, Marks(marked), avail);
      var height := ExtendDown(marked, x, y, width, overlap, Marks(marked), avail);
      var start := Plus(Vec(x, y), origin);
      b := Box(start, Minus(Plus(start, Vec(width, height)), Vec(1, 1)));
      BlockedIsGreedy(b, Cells() - taken, avail);
    }

    /** The scan both conversions make; only the minimal one respects the marks
        while it extends a box. */
    method Decompose(overlap: bool) returns (boxes: seq<Box>)
      requires Valid()
      ensures GreedyList(boxes, Cells(), overlap) && |boxes| <= Count(Cells(), origin, data.Length1, data.Length0)
    {
      var marked := new bool[data.Length0, data.Length1]((_, _) => false);
      boxes := [];
      var y := 0;
      while y < size.y
        invariant 0 <= y && (y == 0 || y <= size.y)
        invariant GreedyPrefix(boxes, Cells(), overlap)
        invariant Scanned(Cells(), Marks(marked), Cover(boxes), Abs(0, y))
      {
        boxes := ScanRow(marked, boxes, y, overlap);
        y := y + 1;
      }
      NoMoreBoxesThanCells(boxes, Cells(), overlap, origin, data.Length1, data.Length0);
    }

    method ScanRow(marked: array2<bool>, boxes: seq<Box>, y: int, overlap: bool) returns (r: seq<Box>)
      requires Valid() && SameSize(marked) && marked != data
      requires 0 <= y < size.y
      requires GreedyPrefix(boxes, Cells(), overlap)
      requires Scanned(Cells(), Marks(marked), Cover(boxes), Abs(0, y))
      modifies marked
      ensures GreedyPrefix(r, Cells(), overlap)
      ensures Scanned(Cells(), Marks(marked), Cover(r), Abs(0, y + 1))
    {
      r := boxes;
      var x := 0;
      while x < size.x
        invariant 0 <= x && (x == 0 || x <= size.x)
        invariant GreedyPrefix(r, Cells(), overlap)
        invariant Scanned(Cells(), Marks(marked), Cover(r), Abs(x, y))
      {
        if data[y, x] && !marked[y, x] {
          ghost var marks := Marks(marked);
          var b := TakeBox(marked, Cover(r), x, y, overlap);
          GreedySnoc(r, b, Cells(), overlap);
          CoverSnoc(r, b);
          ScannedAfterBox(Cells(), marks, Marks(marked), Cover(r), b);
          r := r + [b];
        }
        x := x + 1;
      }
    }

    method ConvertToMinimalBoxes() returns (boxes: seq<Box>)
      requires Valid()
      ensures GreedyList(boxes, Cells(), false) && |boxes| <= Count(Cells(), origin, data.Length1, data.Length0)
    {
      boxes := Decompose(false);
    }

    method ConvertToMaximalBoxes() returns (boxes: seq<Box>)
      requires Valid()
      ensures GreedyList(boxes, Cells(), true) && |boxes| <= Count(Cells(), origin, data.Length1, data.Length0)
    {
      boxes := Decompose(true);
    }

    /** A new grid of what is set and a box. */
    method Regrow(box: Box)
      requires Valid() && (Rasterizable([box]) || Cells() != iset{})
      modifies this
      ensures Valid() && fresh(data)
      ensures Cells() == old(Cells()) + BoxCells(box)
    {
      var minBoxes := ConvertToMinimalBoxes();
      BoxesAndOne(minBoxes, Cells(), box);
      var grid := new FrameEditorByteArray.FromBoxes(minBoxes + [box]);
      ghost var cells := grid.Cells();
      hide Cover, BoxCells, Rasterizable;
      origin, size, data := grid.origin, grid.size, grid.data;
      assert forall p :: p in Cells() <==> p in cells;
    }

    /** Adds a box, moving to a larger grid when the box does not fit in this one. */
    method AddBox(box: Box)
      requires Valid() && (Rasterizable([box]) || Cells() != iset{})
      modifies this, data
      ensures Valid() && (data == old(data) || fresh(data))
      ensures Cells() == old(Cells()) + BoxCells(box)
    {
      var newBox := Box(Minus(box.start, origin), Minus(box.end, origin));
      if newBox.start.x < 0 || newBox.start.y < 0 || newBox.end.x >= size.x || newBox.end.y >= size.y {
        Regrow(box);
        return;
      }
      Fill(data, newBox.start.x, newBox.end.x + 1, newBox.start.y, newBox.end.y + 1, true);
    }

    /** Removes the part of a box that lies in the grid. */
    method RemoveBox(box: Box)
      requires Valid()
      modifies data
      ensures Cells() == old(Cells()) - BoxCells(box)
    {
      var newBox := Box(Minus(box.start, origin), Minus(box.end, origin));
      newBox := newBox.(end := Vec(Min(newBox.end.x, size.x), Min(newBox.end.y, size.y)));
      if newBox.start.x >= size.x || newBox.start.y >= size.y || newBox.end.x < 0 || newBox.end.y < 0 {
        return;
      }
      Fill(data, Max(newBox.start.x, 0), Min(newBox.end.x, size.x - 1) + 1,
           Max(newBox.start.y, 0), Min(newBox.end.y, size.y - 1) + 1, false);
    }

    /** Whether every cell of an edge is set. The cells tested must lie in the grid. */
    method TestLayer(e: Edge) returns (allGood: bool)
      requires Valid() && Straight(e)
      requires forall p :: OnEdge(e, p) ==> InGrid(p)
      ensures allGood <==> LayerSet(e, Cells())
    {
      var testPoint := Minus(e.p1, origin);
      var v := Len(e);
      EdgePoints(e);
      hide OnEdge, Straight, Scale, CheckDirection;
      while v > 0
        invariant 0 <= v <= Len(e)
        invariant Plus(testPoint, origin) == Plus(e.p1, Scale(CheckDirection(e.kind), Len(e) - v))
        invariant forall p :: OnEdge(Edge(e.p1, Plus(testPoint, origin), e.kind), p) ==> p in Cells()
      {
        EdgePoint(e, Len(e) - v);
        EdgeLonger(e.p1, Plus(testPoint, origin), e.kind, Len(e) - v);
        NextPoint(e.p1, e.kind, Len(e) - v);
        if !data[testPoint.y, testPoint.x] {
          return false;
        }
        assert Plus(testPoint, origin) in Cells();
        assert Plus(Plus(testPoint, CheckDirection(e.kind)), origin) == Plus(Plus(testPoint, origin), CheckDirection(e.kind));
        testPoint := Plus(testPoint, CheckDirection(e.kind));
        v := v - 1;
      }
      return true;
    }

    /** Clears every cell of an edge. */
    method ClearLayer(e: Edge)
      requires Valid() && Straight(e)
      requires forall p :: OnEdge(e, p) ==> InGrid(p)
      modifies data
      ensures LayerCleared(e, old(Cells()), Cells())
    {
      var writePoint := Minus(e.p1, origin);
      var v := Len(e);
      EdgePoints(e);
      hide OnEdge, Straight, Scale, CheckDirection;
      while v > 0
        invariant 0 <= v <= Len(e)
        invariant Plus(writePoint, origin) == Plus(e.p1, Scale(CheckDirection(e.kind), Len(e) - v))
        invariant forall p :: p in Cells() <==> p in old(Cells()) && !OnEdge(Edge(e.p1, Plus(writePoint, origin), e.kind), p)
      {
        EdgePoint(e, Len(e) - v);
        EdgeLonger(e.p1, Plus(writePoint, origin), e.kind, Len(e) - v);
        NextPoint(e.p1, e.kind, Len(e) - v);
        ghost var before := Cells();
        data[writePoint.y, writePoint.x] := false;
        assert forall p :: p in Cells() <==> p in before && p != Plus(writePoint, origin);
        assert Plus(Plus(writePoint, CheckDirection(e.kind)), origin) == Plus(Plus(writePoint, origin), CheckDirection(e.kind));
        writePoint := Plus(writePoint, CheckDirection(e.kind));
        v := v - 1;
      }
    }

    /** The cells an inward drag looks at lie in the grid. */
    ghost predicate DragInGrid(e: Edge, k: nat)
      requires Valid()
      reads this, data
    {
      forall p :: DragVisits(e, k, Cells(), p) ==> InGrid(p)
    }

    /** An edge of the boundary of a padded grid does not lead out of it. */
    lemma BoundaryDragInGrid(e: Edge, k: nat)
      requires Valid() && Padded() && BoundaryRun(e, Cells())
      ensures DragInGrid(e, k)
    {
      var cells := Cells();
      var m: int := ErosionDepth(e, k, cells);
      ErosionDepthErodes(e, k, cells);
      assert FullLayer(e, 0, cells) by {
        assert forall p :: Within(e, p) && Depth(e, p) == 0 ==> OnEdge(e, p);
      }
      hide Cells, ErosionDepth;
      forall p | DragVisits(e, k, cells, p) ensures InGrid(p) {
        if -Depth(e, p) <= m {
          assert FullLayer(e, -Depth(e, p), cells);
        } else {
          var q := Plus(p, OffsetDirection(e.kind));
          assert FullLayer(e, m, cells) && Within(e, q) && Depth(e, q) == -m;
        }
      }
    }

    /** Drags an edge: outward it only tells the box to add, inward it clears the layers
        that have a full layer behind them. */
    method OffsetEdge(edge: Edge, offset: int) returns (moved: Edge, box: Option<Box>)
      requires Valid() && Straight(edge)
      requires offset < 0 ==> DragInGrid(edge, -offset)
      modifies data
      ensures moved == DragEdge(old(Cells()), edge, offset)
      ensures box.Some? <==> offset > 0
      ensures offset > 0 ==> forall p :: In(box.value, p) <==> Within(edge, p) && 0 <= Depth(edge, p) <= offset
      ensures offset >= 0 ==> Cells() == old(Cells())
      ensures offset < 0 ==> Cells() == DragCells(old(Cells()), edge, offset)
    {
      if offset == 0 {
        moved, box := edge, None;
      } else if offset > 0 {
        var swept: Box;
        moved, swept := SweepOut(edge, offset);
        box := Some(swept);
      } else {
        ghost var m;
        moved, m := DragIn(edge, -offset);
        box := None;
      }
    }

    method SweepOut(edge: Edge, offset: int) returns (moved: Edge, box: Box)
      requires Straight(edge) && offset > 0
      ensures moved == Shift(edge, offset)
      ensures forall p :: In(box, p) <==> Within(edge, p) && 0 <= Depth(edge, p) <= offset
    {
      var startBox := FromPoints(edge.p1, edge.p2);
      startBox := startBox.(end := Minus(startBox.end, CheckDirection(edge.kind)));
      moved := Shift(edge, offset);
      var endBox := FromPoints(moved.p1, moved.p2);
      endBox := endBox.(end := Minus(endBox.end, CheckDirection(edge.kind)));
      box := BoxUnion(startBox, endBox);
    }

    method DragIn(edge: Edge, count: int) returns (moved: Edge, ghost m: int)
      requires Valid() && Straight(edge) && count > 0
      requires DragInGrid(edge, count)
      modifies data
      ensures m == ErosionDepth(edge, count, old(Cells()))
      ensures moved == Shift(edge, -m) && Eroded(edge, m, old(Cells()), Cells())
    {
      hide Cells, FullLayers, FullLayer, Eroded, OnEdge, Straight, ErosionDepth, DragVisits;
      moved, m := edge, 0;
      var left := count;
      ghost var before := Cells();
      NothingEroded(edge, before);
      while left > 0
        invariant 0 <= left == count - m
        invariant moved == Shift(edge, -m)
        invariant DragState(edge, m, before, Cells())
      {
        var allGood := DragLayer(moved, edge, m, before, count);
        if !allGood {
          ErosionDepthIs(edge, count, before, m);
          return;
        }
        ShiftTwice(edge, -m, -1);
        moved := Shift(moved, -1);
        left := left - 1;
        m := m + 1;
      }
      ErosionDepthIs(edge, count, before, m);
    }

    /** Clears the layer under the edge if the one behind it is set. */
    method DragLayer(moved: Edge, ghost edge: Edge, ghost m: int, ghost before: iset<Vec>, ghost count: int) returns (allGood: bool)
      requires Valid() && Straight(edge) && moved == Shift(edge, -m)
      requires DragState(edge, m, before, Cells()) && 0 <= m < count
      requires forall p :: DragVisits(edge, count, before, p) ==> InGrid(p)
      modifies data
      ensures allGood <==> FullLayer(edge, m + 1, before)
      ensures DragState(edge, if allGood then m + 1 else m, before, Cells())
    {
      hide Cells, FullLayers, FullLayer, Eroded, LayerSet, LayerCleared, DragVisits;
      ghost var now := Cells();
      ShiftTwice(edge, -m, -1);
      ShiftedLayer(edge, -m);
      ShiftedLayer(edge, -m - 1);
      LayersVisited(edge, m, before, count);
      LayerUntouched(edge, m, before, now);
      allGood := TestLayer(Shift(moved, -1));
      if allGood {
        ClearLayer(moved);
        DragStep(edge, m, before, now, Cells());
      }
    }

    /** One bit for each edge type in every cell of a scratch array. */
    ghost predicate SameSizeBits(marked: array2<set<EdgeType>>)
      reads this
    {
      marked.Length0 == size.y && marked.Length1 == size.x
    }

    ghost function Bits(marked: array2<set<EdgeType>>, kind: EdgeType): iset<Vec>
      requires SameSizeBits(marked)
      reads this, marked
    {
      iset p: Vec | InGrid(p) && kind in marked[p.y - origin.y, p.x - origin.x]
    }

    ghost function AllBits(marked: array2<set<EdgeType>>): EdgeMarks
      requires SameSizeBits(marked)
      reads this, marked
    {
      EdgeMarks(Bits(marked, Top), Bits(marked, Bottom), Bits(marked, Left), Bits(marked, Right))
    }

    method TestSide(x: int, y: int, kind: EdgeType) returns (side: bool)
      requires Valid() && 1 <= x < size.x - 1 && 1 <= y < size.y - 1
      ensures side <==> Side(Cells(), kind, Abs(x, y), Core())
    {
      var check := Plus(Vec(x, y), OffsetDirection(kind));
      side := data[y, x] && !data[check.y, check.x];
      assert Abs(check.x, check.y) == Plus(Abs(x, y), OffsetDirection(kind));
    }

    method TestBit(marked: array2<set<EdgeType>>, x: int, y: int, kind: EdgeType) returns (bit: bool)
      requires SameSizeBits(marked) && 0 <= x < size.x && 0 <= y < size.y
      ensures bit <==> Abs(x, y) in AllBits(marked).Of(kind)
    {
      bit := kind in marked[y, x];
    }

    method MarkSide(marked: array2<set<EdgeType>>, x: int, y: int, kind: EdgeType)
      requires SameSizeBits(marked) && 0 <= x < size.x && 0 <= y < size.y
      modifies marked
      ensures MarksGrow(old(AllBits(marked)), AllBits(marked), Edge(Abs(x, y), Plus(Abs(x, y), CheckDirection(kind)), kind))
    {
      marked[y, x] := marked[y, x] + {kind};
    }

    /** Follows the boundary from a side to the end of its run. */
    method TraceEdge(marked: array2<set<EdgeType>>, x: int, y: int, kind: EdgeType) returns (e: Edge)
      requires Valid() && SameSizeBits(marked)
      requires 1 <= x < size.x - 1 && 1 <= y < size.y - 1
      requires Side(Cells(), kind, Abs(x, y), Core())
      modifies marked
      ensures e.p1 == Abs(x, y) && e.kind == kind
      ensures BoundaryRun(e, Cells(), Core()) && !Side(Cells(), kind, e.p2, Core())
      ensures MarksGrow(old(AllBits(marked)), AllBits(marked), e)
    {
      hide Bits, AllBits, MarksGrow, AllSides, Side, Cells, Core;
      var q := Vec(x, y);
      ghost var marks := AllBits(marked);
      e := Edge(Plus(q, origin), Plus(q, origin), kind);
      RunBegins(marks, e, Cells(), Core());
      while if kind.Top? || kind.Bottom? then q.x < size.x - 1 else q.y < size.y - 1
        invariant 1 <= q.x < size.x && 1 <= q.y < size.y
        invariant if kind.Top? || kind.Bottom? then q.y == y else q.x == x
        invariant e == Edge(Abs(x, y), Plus(q, origin), kind)
        invariant if q == Vec(x, y) then e.p1 == e.p2 else Straight(e)
        invariant AllSides(e, Cells(), Core())
        invariant MarksGrow(marks, AllBits(marked), e)
        decreases size.x + size.y - q.x - q.y
      {
        var side := TestSide(q.x, q.y, kind);
        if !side {
          return;
        }
        ghost var now := AllBits(marked);
        MarkSide(marked, q.x, q.y, kind);
        var next := Plus(q, CheckDirection(kind));
        RunGoesOn(e, Cells(), Core(), Plus(next, origin));
        MarksGrowOn(marks, now, AllBits(marked), e, Plus(next, origin));
        q := next;
        e := e.(p2 := Plus(q, origin));
      }
      NoSideOnRing(q, kind);
    }

    lemma NoSideOnRing(q: Vec, kind: EdgeType)
      requires Valid()
      requires q.x == size.x - 1 || q.y == size.y - 1
      ensures !Side(Cells(), kind, Plus(q, origin), Core())
    {
    }

    /** The step the scan makes for one cell and one edge type. */
    method ScanSide(marked: array2<set<EdgeType>>, edges: seq<Edge>, x: int, y: int, kind: EdgeType) returns (r: seq<Edge>)
      requires Valid() && SameSizeBits(marked)
      requires 1 <= x < size.x - 1 && 1 <= y < size.y - 1
      requires EdgesSoFar(edges, Cells(), Core(), AllBits(marked), Abs(x, y))
      modifies marked
      ensures EdgesSoFar(r, Cells(), Core(), AllBits(marked), Abs(x, y))
      ensures Side(Cells(), kind, Abs(x, y), Core()) ==> Abs(x, y) in AllBits(marked).Of(kind)
      ensures forall k, p :: p in old(AllBits(marked)).Of(k) ==> p in AllBits(marked).Of(k)
    {
      hide Bits, AllBits, Cells, Core, EdgesSoFar, BoundaryRun, MarksGrow;
      r := edges;
      var bit := TestBit(marked, x, y, kind);
      var side := TestSide(x, y, kind);
      if !bit && side {
        ghost var marks := AllBits(marked);
        var e := TraceEdge(marked, x, y, kind);
        EdgeAdded(edges, Cells(), Core(), marks, AllBits(marked), Abs(x, y), e);
        r := edges + [e];
      }
    }

    /** The edges of the boundary. Set cells in the ring are passed over. */
    method ConvertToEdges() returns (edges: seq<Edge>)
      requires Valid()
      ensures BoundaryPartition(edges, Cells(), Core())
      ensures Padded() ==> BoundaryPartition(edges, Cells())
      ensures Padded() ==> TotalLength(edges, Top) == TotalLength(edges, Bottom) && TotalLength(edges, Left) == TotalLength(edges, Right)
    {
      var marked := new set<EdgeType>[data.Length0, data.Length1]((_, _) => {});
      edges := [];
      var y := 1;
      while y < size.y - 1
        invariant 1 <= y && (y == 1 || y <= size.y - 1)
        invariant EdgesSoFar(edges, Cells(), Core(), AllBits(marked), Abs(1, y))
      {
        edges := ScanEdgeRow(marked, edges, y);
        y := y + 1;
      }
      AllSidesFound(edges, Cells(), Core(), AllBits(marked), Abs(1, y));
      if Padded() {
        assert Core() == Cells();
        BoundaryIsBalanced(edges, Cells(), origin, data.Length1, data.Length0);
      }
    }

    method ScanEdgeRow(marked: array2<set<EdgeType>>, edges: seq<Edge>, y: int) returns (r: seq<Edge>)
      requires Valid() && SameSizeBits(marked)
      requires 1 <= y < size.y - 1
      requires EdgesSoFar(edges, Cells(), Core(), AllBits(marked), Abs(1, y))
      modifies marked
      ensures EdgesSoFar(r, Cells(), Core(), AllBits(marked), Abs(1, y + 1))
    {
      hide Bits, AllBits, EdgesSoFar, Side;
      r := edges;
      var x := 1;
      while x < size.x - 1
        invariant 1 <= x && (x == 1 || x <= size.x - 1)
        invariant EdgesSoFar(r, Cells(), Core(), AllBits(marked), Abs(x, y))
      {
        r := ScanSide(marked, r, x, y, Top);
        r := ScanSide(marked, r, x, y, Bottom);
        r := ScanSide(marked, r, x, y, Left);
        r := ScanSide(marked, r, x, y, Right);
        CellScanned(r, Cells(), Core(), AllBits(marked), Abs(x, y));
        x := x + 1;
      }
      RowScanned(r, Cells(), Core(), AllBits(marked), Abs(x, y), Abs(1, y + 1));
    }
  }
}
