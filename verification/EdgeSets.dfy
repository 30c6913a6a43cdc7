/** Boundary sides of a set of cells, and edges as runs of sides. */
module EdgeSets {
  import opened CellSets
  import opened Geometry

  datatype EdgeType = Top | Bottom | Left | Right

  /** p1 is the first cell of the run and p2 the cell after its last. */
  datatype Edge = Edge(p1: Vec, p2: Vec, kind: EdgeType)

  /** The direction out of the set through a side (y+ is "top"). */
  function OffsetDirection(kind: EdgeType): Vec {
    match kind
    case Top => Vec(0, 1)
    case Bottom => Vec(0, -1)
    case Left => Vec(-1, 0)
    case Right => Vec(1, 0)
  }

  /** The direction in which the run goes on. */
  function CheckDirection(kind: EdgeType): Vec {
    match kind
    case Top => Vec(1, 0)
    case Bottom => Vec(1, 0)
    case Left => Vec(0, 1)
    case Right => Vec(0, 1)
  }

  function Len(e: Edge): int {
    var d := Minus(e.p2, e.p1);
    (if d.x < 0 then -d.x else d.x) + (if d.y < 0 then -d.y else d.y)
  }

  predicate Straight(e: Edge) {
    if e.kind.Top? || e.kind.Bottom? then e.p1.y == e.p2.y && e.p1.x < e.p2.x
    else e.p1.x == e.p2.x && e.p1.y < e.p2.y
  }

  /** How far p lies out of the line of the edge. */
  function Depth(e: Edge, p: Vec): int {
    match e.kind
    case Top => p.y - e.p1.y
    case Bottom => e.p1.y - p.y
    case Left => e.p1.x - p.x
    case Right => p.x - e.p1.x
  }

  /** p lies in the strip the edge sweeps when it moves. */
  predicate Within(e: Edge, p: Vec) {
    if e.kind.Top? || e.kind.Bottom? then e.p1.x <= p.x < e.p2.x else e.p1.y <= p.y < e.p2.y
  }

  predicate OnEdge(e: Edge, p: Vec) {
    Within(e, p) && Depth(e, p) == 0
  }

  lemma EdgePoints(e: Edge)
    requires Straight(e)
    ensures Plus(e.p1, Scale(CheckDirection(e.kind), 0)) == e.p1
    ensures Plus(e.p1, Scale(CheckDirection(e.kind), Len(e))) == e.p2
    ensures forall p :: !OnEdge(Edge(e.p1, e.p1, e.kind), p)
  {
  }

  lemma EdgePoint(e: Edge, n: nat)
    requires Straight(e) && n < Len(e)
    ensures OnEdge(e, Plus(e.p1, Scale(CheckDirection(e.kind), n)))
  {
  }

  lemma NextPoint(p: Vec, kind: EdgeType, n: int)
    ensures Plus(Plus(p, Scale(CheckDirection(kind), n)), CheckDirection(kind)) == Plus(p, Scale(CheckDirection(kind), n + 1))
  {
  }

  /** An edge one cell longer has the cell at its old end besides. */
  lemma EdgeLonger(p1: Vec, q: Vec, kind: EdgeType, n: nat)
    requires q == Plus(p1, Scale(CheckDirection(kind), n))
    ensures forall p :: OnEdge(Edge(p1, Plus(q, CheckDirection(kind)), kind), p) <==> OnEdge(Edge(p1, q, kind), p) || p == q
  {
  }

  /** The edge moved k cells out along its offset direction. */
  function Shift(e: Edge, k: int): Edge {
    var d :=
      match e.kind
      case Top => Vec(0, k)
      case Bottom => Vec(0, -k)
      case Left => Vec(-k, 0)
      case Right => Vec(k, 0);
    Edge(Plus(e.p1, d), Plus(e.p2, d), e.kind)
  }

  ghost function EdgeCells(e: Edge): iset<Vec> {
    iset p: Vec | OnEdge(e, p)
  }

  /** The cell is set and its neighbour on that side is not. Only cells of core are looked at,
      which are all unless said otherwise. */
  ghost predicate Side(cells: iset<Vec>, kind: EdgeType, p: Vec, core: iset<Vec> := cells) {
    p in core && Plus(p, OffsetDirection(kind)) !in cells
  }

  ghost predicate AllSides(e: Edge, cells: iset<Vec>, core: iset<Vec> := cells) {
    forall p :: OnEdge(e, p) ==> Side(cells, e.kind, p, core)
  }

  ghost predicate BoundaryRun(e: Edge, cells: iset<Vec>, core: iset<Vec> := cells) {
    Straight(e) && AllSides(e, cells, core)
  }

  ghost predicate MaximalRun(e: Edge, cells: iset<Vec>, core: iset<Vec> := cells) {
    && BoundaryRun(e, cells, core)
    && !Side(cells, e.kind, Minus(e.p1, CheckDirection(e.kind)), core)
    && !Side(cells, e.kind, e.p2, core)
  }

  /** The cells of the edges of one type. */
  ghost function EdgeCover(edges: seq<Edge>, kind: EdgeType): iset<Vec> {
    if edges == [] then iset{}
    else
      var last := edges[|edges| - 1];
      EdgeCover(edges[..|edges| - 1], kind) + if last.kind == kind then EdgeCells(last) else iset{}
  }

  lemma EdgeCoverSnoc(edges: seq<Edge>, e: Edge, kind: EdgeType)
    ensures EdgeCover(edges + [e], kind) == EdgeCover(edges, kind) + if e.kind == kind then EdgeCells(e) else iset{}
  {
    assert (edges + [e])[..|edges|] == edges;
  }

  lemma {:induction false} EdgeCoverMember(edges: seq<Edge>, kind: EdgeType, p: Vec) returns (k: int)
    requires p in EdgeCover(edges, kind)
    ensures 0 <= k < |edges| && edges[k].kind == kind && OnEdge(edges[k], p)
  {
    k := |edges| - 1;
    if !(edges[k].kind == kind && OnEdge(edges[k], p)) {
      k := EdgeCoverMember(edges[..k], kind, p);
    }
  }

  lemma {:induction false} EdgeCoverContains(edges: seq<Edge>, k: nat, p: Vec)
    requires k < |edges| && OnEdge(edges[k], p)
    ensures p in EdgeCover(edges, edges[k].kind)
  {
    if k < |edges| - 1 {
      EdgeCoverContains(edges[..|edges| - 1], k, p);
    }
  }

  ghost predicate MaximalRuns(edges: seq<Edge>, cells: iset<Vec>, core: iset<Vec> := cells) {
    forall k :: 0 <= k < |edges| ==> MaximalRun(edges[k], cells, core)
  }

  ghost predicate DisjointRuns(edges: seq<Edge>) {
    forall i, j, p :: 0 <= i < j < |edges| && edges[i].kind == edges[j].kind && OnEdge(edges[i], p) ==> !OnEdge(edges[j], p)
  }

  /** Every side of the boundary lies in exactly one edge of its type, and every
      edge is a run of sides that cannot be made longer. */
  ghost predicate BoundaryPartition(edges: seq<Edge>, cells: iset<Vec>, core: iset<Vec> := cells) {
    && MaximalRuns(edges, cells, core)
    && DisjointRuns(edges)
    && forall kind, p :: p in EdgeCover(edges, kind) <==> Side(cells, kind, p, core)
  }

  /** The cells marked with each of the four bits. */
  datatype EdgeMarks = EdgeMarks(top: iset<Vec>, bottom: iset<Vec>, left: iset<Vec>, right: iset<Vec>) {
    ghost function Of(kind: EdgeType): iset<Vec> {
      match kind
      case Top => top
      case Bottom => bottom
      case Left => left
      case Right => right
    }
  }

  /** The cells of e got its bit, and no other bit changed. */
  ghost predicate MarksGrow(before: EdgeMarks, after: EdgeMarks, e: Edge) {
    forall kind :: GrowsBy(before.Of(kind), after.Of(kind), e, kind)
  }

  ghost predicate GrowsBy(before: iset<Vec>, after: iset<Vec>, e: Edge, kind: EdgeType) {
    forall p :: p in after <==> p in before || (kind == e.kind && OnEdge(e, p))
  }

  /** What the scan knows when it comes to cell cur: maximal disjoint runs, whose cells
      are the marked ones, for every side passed. */
  ghost predicate EdgesSoFar(edges: seq<Edge>, cells: iset<Vec>, core: iset<Vec>, marks: EdgeMarks, cur: Vec) {
    && MaximalRuns(edges, cells, core)
    && DisjointRuns(edges)
    && MarksAreEdges(marks, edges)
    && forall kind, p :: Before(p, cur) && Side(cells, kind, p, core) ==> p in marks.Of(kind)
  }

  ghost predicate MarksAreEdges(marks: EdgeMarks, edges: seq<Edge>) {
    forall kind :: marks.Of(kind) == EdgeCover(edges, kind)
  }

  lemma MarksStayEdges(marks: EdgeMarks, marks': EdgeMarks, edges: seq<Edge>, e: Edge)
    requires MarksAreEdges(marks, edges) && MarksGrow(marks, marks', e)
    ensures MarksAreEdges(marks', edges + [e])
  {
    forall kind ensures marks'.Of(kind) == EdgeCover(edges + [e], kind) {
      EdgeCoverSnoc(edges, e, kind);
      assert GrowsBy(marks.Of(kind), marks'.Of(kind), e, kind);
    }
  }

  /** An edge of no cells, or of some in a row. */
  predicate Begun(e: Edge) { e.p1 == e.p2 || Straight(e) }

  lemma RunBegins(marks: EdgeMarks, e: Edge, cells: iset<Vec>, core: iset<Vec>)
    requires e.p1 == e.p2
    ensures MarksGrow(marks, marks, e) && AllSides(e, cells, core)
  {
  }

  lemma RunGoesOn(e: Edge, cells: iset<Vec>, core: iset<Vec>, q: Vec)
    requires Begun(e) && AllSides(e, cells, core) && Side(cells, e.kind, e.p2, core)
    requires q == Plus(e.p2, CheckDirection(e.kind))
    ensures Straight(e.(p2 := q)) && AllSides(e.(p2 := q), cells, core)
  {
    assert forall p :: OnEdge(e.(p2 := q), p) ==> OnEdge(e, p) || p == e.p2;
  }

  lemma MarksGrowOn(m0: EdgeMarks, m1: EdgeMarks, m2: EdgeMarks, e: Edge, q: Vec)
    requires MarksGrow(m0, m1, e) && Begun(e)
    requires q == Plus(e.p2, CheckDirection(e.kind))
    requires MarksGrow(m1, m2, Edge(e.p2, q, e.kind))
    ensures MarksGrow(m0, m2, e.(p2 := q))
  {
    forall kind ensures GrowsBy(m0.Of(kind), m2.Of(kind), e.(p2 := q), kind) {
      assert GrowsBy(m0.Of(kind), m1.Of(kind), e, kind);
      assert GrowsBy(m1.Of(kind), m2.Of(kind), Edge(e.p2, q, e.kind), kind);
    }
  }

  lemma EdgeAdded(edges: seq<Edge>, cells: iset<Vec>, core: iset<Vec>, marks: EdgeMarks, marks': EdgeMarks, cur: Vec, e: Edge)
    requires EdgesSoFar(edges, cells, core, marks, cur)
    requires e.p1 == cur && cur !in marks.Of(e.kind) && MarksGrow(marks, marks', e)
    requires BoundaryRun(e, cells, core) && !Side(cells, e.kind, e.p2, core)
    ensures EdgesSoFar(edges + [e], cells, core, marks', cur)
    ensures cur in marks'.Of(e.kind)
    ensures forall kind, p :: p in marks.Of(kind) ==> p in marks'.Of(kind)
  {
    assert Before(Minus(cur, CheckDirection(e.kind)), cur);
    NewRun(edges, e, cells, core);
    MarksStayEdges(marks, marks', edges, e);
    assert OnEdge(e, cur);
  }

  /** All four sides of cell cur are dealt with, so the scan may go on to the next cell. */
  lemma CellScanned(edges: seq<Edge>, cells: iset<Vec>, core: iset<Vec>, marks: EdgeMarks, cur: Vec)
    requires EdgesSoFar(edges, cells, core, marks, cur)
    requires forall kind :: Side(cells, kind, cur, core) ==> cur in marks.Of(kind)
    ensures EdgesSoFar(edges, cells, core, marks, Vec(cur.x + 1, cur.y))
  {
  }

  /** A row scanned up to a column that no set cell has reached lets the scan go on to a
      column of the next row before which there is none. */
  lemma RowScanned(edges: seq<Edge>, cells: iset<Vec>, core: iset<Vec>, marks: EdgeMarks, cur: Vec, next: Vec)
    requires EdgesSoFar(edges, cells, core, marks, cur)
    requires forall p :: p in core && Before(p, next) ==> Before(p, cur)
    ensures EdgesSoFar(edges, cells, core, marks, next)
  {
  }

  lemma AllSidesFound(edges: seq<Edge>, cells: iset<Vec>, core: iset<Vec>, marks: EdgeMarks, cur: Vec)
    requires EdgesSoFar(edges, cells, core, marks, cur)
    requires forall p :: p in core ==> Before(p, cur)
    ensures BoundaryPartition(edges, cells, core)
  {
    forall kind, p | p in EdgeCover(edges, kind) ensures Side(cells, kind, p, core) {
      var k := EdgeCoverMember(edges, kind, p);
      assert MaximalRun(edges[k], cells, core);
    }
  }

  /** Two runs of sides in one line that share a cell, the first of them maximal: the
      second lies in the first. */
  lemma MaximalRunContains(f: Edge, e: Edge, cells: iset<Vec>, core: iset<Vec>, q: Vec)
    requires MaximalRun(f, cells, core) && BoundaryRun(e, cells, core) && e.kind == f.kind
    requires OnEdge(f, q) && OnEdge(e, q)
    ensures OnEdge(f, e.p1)
  {
    var b := Minus(f.p1, CheckDirection(f.kind));
    assert !OnEdge(e, b);
  }

  /** A run that starts at an unmarked side and stops at the first cell that is not one
      is maximal and shares nothing with the edges already found. */
  lemma NewRun(edges: seq<Edge>, e: Edge, cells: iset<Vec>, core: iset<Vec>)
    requires MaximalRuns(edges, cells, core) && DisjointRuns(edges)
    requires BoundaryRun(e, cells, core) && !Side(cells, e.kind, e.p2, core)
    requires e.p1 !in EdgeCover(edges, e.kind)
    requires var b := Minus(e.p1, CheckDirection(e.kind));
      Side(cells, e.kind, b, core) ==> b in EdgeCover(edges, e.kind)
    ensures MaximalRuns(edges + [e], cells, core) && DisjointRuns(edges + [e])
  {
    var b := Minus(e.p1, CheckDirection(e.kind));
    if Side(cells, e.kind, b, core) {
      var k := EdgeCoverMember(edges, e.kind, b);
      assert OnEdge(e, e.p1);
      assert edges[k].p2 != e.p1;
      EdgeCoverContains(edges, k, e.p1);
      assert false;
    }
    forall i, p | 0 <= i < |edges| && edges[i].kind == e.kind && OnEdge(edges[i], p) ensures !OnEdge(e, p) {
      if OnEdge(e, p) {
        MaximalRunContains(edges[i], e, cells, core, p);
        EdgeCoverContains(edges, i, e.p1);
        assert false;
      }
    }
  }

  lemma ShiftTwice(e: Edge, a: int, b: int)
    ensures Shift(Shift(e, a), b) == Shift(e, a + b)
  {
  }

  lemma ShiftedLayer(e: Edge, k: int)
    ensures forall p :: OnEdge(Shift(e, k), p) <==> Within(e, p) && Depth(e, p) == k
    ensures Straight(e) ==> Straight(Shift(e, k))
  {
  }

  ghost predicate LayerSet(e: Edge, cells: iset<Vec>) {
    forall p :: OnEdge(e, p) ==> p in cells
  }

  ghost predicate LayerCleared(e: Edge, before: iset<Vec>, after: iset<Vec>) {
    forall p :: p in after <==> p in before && !OnEdge(e, p)
  }

  /** The layer m cells behind the edge is set. */
  ghost predicate FullLayer(e: Edge, m: int, cells: iset<Vec>) {
    forall p :: Within(e, p) && Depth(e, p) == -m ==> p in cells
  }

  /** The first m layers behind that of the edge are set. */
  ghost predicate FullLayers(e: Edge, m: int, cells: iset<Vec>) {
    0 <= m && forall j :: 1 <= j <= m ==> FullLayer(e, j, cells)
  }

  /** m is the largest number not above k such that the first m layers behind the edge are full. */
  ghost predicate Erodes(e: Edge, k: int, cells: iset<Vec>, m: int) {
    0 <= m <= k && FullLayers(e, m, cells) && (m < k ==> !FullLayer(e, m + 1, cells))
  }

  /** Exactly the first m layers are gone. */
  ghost predicate Eroded(e: Edge, m: int, before: iset<Vec>, after: iset<Vec>) {
    forall p :: p in after <==> p in before && !(Within(e, p) && -m < Depth(e, p) <= 0)
  }

  lemma NothingEroded(e: Edge, cells: iset<Vec>)
    ensures DragState(e, 0, cells, cells)
  {
  }

  /** The number of layers an inward drag by k clears. */
  ghost function ErosionDepth(e: Edge, k: nat, cells: iset<Vec>): nat {
    if k == 0 then 0
    else
      var d := ErosionDepth(e, k - 1, cells);
      if d == k - 1 && FullLayer(e, k, cells) then k else d
  }

  lemma {:induction false} ErosionDepthErodes(e: Edge, k: nat, cells: iset<Vec>)
    ensures Erodes(e, k, cells, ErosionDepth(e, k, cells))
  {
    if k > 0 {
      ErosionDepthErodes(e, k - 1, cells);
    }
  }

  lemma ErosionDepthIs(e: Edge, k: nat, cells: iset<Vec>, m: int)
    requires Erodes(e, k, cells, m)
    ensures m == ErosionDepth(e, k, cells)
  {
    ErosionDepthErodes(e, k, cells);
    ErosionIsUnique(e, k, cells, m, ErosionDepth(e, k, cells));
  }

  lemma ErosionDepthAtLeast(e: Edge, k: nat, cells: iset<Vec>, m: nat)
    requires FullLayers(e, m, cells) && m <= k
    ensures m <= ErosionDepth(e, k, cells)
  {
    ErosionDepthErodes(e, k, cells);
  }

  /** An inward drag by k looks at cell p: one of a layer it tests, or of one it clears. */
  ghost predicate DragVisits(e: Edge, k: nat, cells: iset<Vec>, p: Vec) {
    var m := ErosionDepth(e, k, cells);
    Within(e, p) && (1 <= -Depth(e, p) <= Min(k, m + 1) || 0 <= -Depth(e, p) < m)
  }

  /** After m full layers the next is tested, and if it is full too this one is cleared. */
  lemma LayersVisited(e: Edge, m: int, cells: iset<Vec>, k: int)
    requires FullLayers(e, m, cells) && m < k
    ensures forall p :: Within(e, p) && Depth(e, p) == -m - 1 ==> DragVisits(e, k, cells, p)
    ensures FullLayer(e, m + 1, cells) ==> forall p :: Within(e, p) && Depth(e, p) == -m ==> DragVisits(e, k, cells, p)
  {
    hide FullLayer;
    ErosionDepthAtLeast(e, k, cells, m);
    if FullLayer(e, m + 1, cells) {
      ErosionDepthAtLeast(e, k, cells, m + 1);
    }
  }

  ghost function Cleared(e: Edge, k: nat, cells: iset<Vec>): int {
    ErosionDepth(e, k, cells)
  }

  /** The cells after dragging the edge by k: a strip more, or some full layers less. */
  ghost function DragCells(cells: iset<Vec>, e: Edge, k: int): iset<Vec> {
    if k >= 0 then cells + iset p: Vec | Within(e, p) && 1 <= Depth(e, p) <= k
    else cells - iset p: Vec | Within(e, p) && -Cleared(e, -k, cells) < Depth(e, p) <= 0
  }

  ghost function DragEdge(cells: iset<Vec>, e: Edge, k: int): Edge {
    Shift(e, if k >= 0 then k else -Cleared(e, -k, cells))
  }

  ghost predicate DragState(e: Edge, m: int, before: iset<Vec>, now: iset<Vec>) {
    FullLayers(e, m, before) && Eroded(e, m, before, now)
  }

  /** A layer behind the edge is untouched, so testing it now is testing it at the start. */
  lemma LayerUntouched(e: Edge, m: int, before: iset<Vec>, now: iset<Vec>)
    requires DragState(e, m, before, now)
    ensures LayerSet(Shift(e, -m - 1), now) <==> FullLayer(e, m + 1, before)
  {
    ShiftedLayer(e, -m - 1);
  }

  lemma DragStep(e: Edge, m: int, before: iset<Vec>, now: iset<Vec>, next: iset<Vec>)
    requires DragState(e, m, before, now) && FullLayer(e, m + 1, before)
    requires LayerCleared(Shift(e, -m), now, next)
    ensures DragState(e, m + 1, before, next)
  {
    ShiftedLayer(e, -m);
  }

  lemma ErosionIsUnique(e: Edge, k: int, cells: iset<Vec>, m: int, m': int)
    requires Erodes(e, k, cells, m) && Erodes(e, k, cells, m')
    ensures m == m'
  {
  }

  /** What an inward drag leaves: a full layer whose sides are sides of the new boundary. */
  lemma ErosionLeavesBoundary(e: Edge, k: int, m: int, before: iset<Vec>, after: iset<Vec>)
    requires BoundaryRun(e, before) && Erodes(e, k, before, m) && Eroded(e, m, before, after)
    ensures FullLayer(e, m, after)
    ensures BoundaryRun(Shift(e, -m), after)
  {
    assert m > 0 ==> FullLayer(e, m, before);
    assert forall p :: Within(e, p) && Depth(e, p) == 0 ==> OnEdge(e, p);
    forall p | OnEdge(Shift(e, -m), p) ensures Side(after, e.kind, p) {
      var out := Plus(p, OffsetDirection(e.kind));
      assert Within(e, p) && Depth(e, p) == -m;
      assert Within(e, out) && Depth(e, out) == 1 - m;
      assert m == 0 ==> OnEdge(e, p);
    }
  }
}
