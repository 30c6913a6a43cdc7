/** What the cell grid means: sets of cells, box lists that denote them, and the
    greedy box list that a row-major scan of a set of cells produces. */
module CellSets {
  import opened Geometry

  ghost function BoxCells(b: Box): iset<Vec> {
    iset p: Vec | In(b, p)
  }

  /** The cells denoted by a list of boxes. */
  ghost function Cover(boxes: seq<Box>): iset<Vec> {
    if boxes == [] then iset{}
    else Cover(boxes[..|boxes| - 1]) + BoxCells(boxes[|boxes| - 1])
  }

  lemma CoverSnoc(boxes: seq<Box>, b: Box)
    ensures Cover(boxes + [b]) == Cover(boxes) + BoxCells(b)
  {
    assert (boxes + [b])[..|boxes|] == boxes;
  }

  lemma {:induction false} CoverMember(boxes: seq<Box>, p: Vec)
    ensures p in Cover(boxes) <==> exists k :: 0 <= k < |boxes| && In(boxes[k], p)
  {
    if boxes != [] {
      var init := boxes[..|boxes| - 1];
      CoverMember(init, p);
      assert forall k :: 0 <= k < |init| ==> init[k] == boxes[k];
    }
  }

  /** Row-major order, the order of the scan. */
  predicate Before(p: Vec, q: Vec) {
    p.y < q.y || (p.y == q.y && p.x < q.x)
  }

  /** b starts at the first cell of rest, lies inside avail, cannot be made wider
      on its first row nor taller at its width. */
  ghost predicate GreedyBox(b: Box, rest: iset<Vec>, avail: iset<Vec>) {
    && Normal(b)
    && b.start in rest
    && (forall p :: p in rest ==> !Before(p, b.start))
    && (forall p :: In(b, p) ==> p in avail)
    && Vec(b.end.x + 1, b.start.y) !in avail
    && RowBelowBroken(b, avail)
  }

  ghost predicate RowBelowBroken(b: Box, avail: iset<Vec>) {
    exists p :: p !in avail && p.y == b.end.y + 1 && b.start.x <= p.x <= b.end.x
  }

  ghost function Rest(cells: iset<Vec>, boxes: seq<Box>): iset<Vec> {
    cells - Cover(boxes)
  }

  ghost predicate GreedyStep(boxes: seq<Box>, k: nat, cells: iset<Vec>, overlap: bool)
    requires k < |boxes|
  {
    var rest := Rest(cells, boxes[..k]);
    GreedyBox(boxes[k], rest, Avail(cells, Cover(boxes[..k]), overlap))
  }

  ghost predicate GreedyPrefix(boxes: seq<Box>, cells: iset<Vec>, overlap: bool) {
    forall k :: 0 <= k < |boxes| ==> GreedyStep(boxes, k, cells, overlap)
  }

  lemma GreedySnoc(boxes: seq<Box>, b: Box, cells: iset<Vec>, overlap: bool)
    requires GreedyPrefix(boxes, cells, overlap)
    requires GreedyBox(b, Rest(cells, boxes), Avail(cells, Cover(boxes), overlap))
    ensures GreedyPrefix(boxes + [b], cells, overlap)
  {
    var longer := boxes + [b];
    forall k | 0 <= k < |longer| ensures GreedyStep(longer, k, cells, overlap) {
      assert longer[..k] == boxes[..k];
      assert k == |boxes| ==> boxes[..k] == boxes;
      assert k < |boxes| ==> GreedyStep(boxes, k, cells, overlap);
    }
  }

  /** The list a scan of cells leaves: disjoint boxes ("minimal") or boxes that
      may overlap ("maximal"). */
  ghost predicate GreedyList(boxes: seq<Box>, cells: iset<Vec>, overlap: bool) {
    && GreedyPrefix(boxes, cells, overlap)
    && cells <= Cover(boxes)
  }

  /** What the scan knows when it comes to cell cur: set cells passed are taken by the
      boxes so far, and on the cells to come the marks are exactly the taken cells. */
  ghost predicate Scanned(cells: iset<Vec>, marks: iset<Vec>, taken: iset<Vec>, cur: Vec) {
    forall p: Vec ::
      if Before(p, cur) then p in cells ==> p in taken else p in marks <==> p in taken
  }

  ghost function Avail(cells: iset<Vec>, taken: iset<Vec>, overlap: bool): iset<Vec> {
    if overlap then cells else cells - taken
  }

  ghost predicate AllIn(b: Box, s: iset<Vec>) {
    forall p :: In(b, p) ==> p in s
  }

  /** after is before with the cells of b added. */
  ghost predicate Grown(before: iset<Vec>, after: iset<Vec>, b: Box) {
    forall p :: p in after <==> p in before || In(b, p)
  }

  /** The marks a new box leaves: all its cells but its own start. */
  ghost predicate MarkedFor(before: iset<Vec>, after: iset<Vec>, b: Box) {
    forall p :: p in after <==> p in before || (In(b, p) && p != b.start)
  }

  /** A box's own start is never marked, which does no harm: the scan has passed it. */
  lemma ScannedAfterBox(cells: iset<Vec>, marks: iset<Vec>, marks': iset<Vec>, taken: iset<Vec>, b: Box)
    requires Scanned(cells, marks, taken, b.start) && Normal(b) && MarkedFor(marks, marks', b)
    ensures Scanned(cells, marks', taken + BoxCells(b), Vec(b.start.x + 1, b.start.y))
  {
  }

  ghost function Row(x0: int, x1: int, y: int): Box {
    Box(Vec(x0, y), Vec(x1, y))
  }

  lemma BlockedIsGreedy(b: Box, rest: iset<Vec>, avail: iset<Vec>)
    requires Normal(b) && b.start in rest && (forall p :: p in rest ==> !Before(p, b.start))
    requires AllIn(b, avail)
    requires Vec(b.end.x + 1, b.start.y) !in avail
    requires !AllIn(Row(b.start.x, b.end.x, b.end.y + 1), avail)
    ensures GreedyBox(b, rest, avail)
  {
    var p :| In(Row(b.start.x, b.end.x, b.end.y + 1), p) && p !in avail;
    assert RowBelowBroken(b, avail);
  }

  /** On the cells of a region, the test the scan makes tells what is available. */
  ghost predicate TestShows(cells: iset<Vec>, marks: iset<Vec>, overlap: bool, avail: iset<Vec>, region: Box) {
    forall p :: In(region, p) ==> (p in avail <==> p in cells && (overlap || p !in marks))
  }

  lemma FirstFreeCell(cells: iset<Vec>, marks: iset<Vec>, taken: iset<Vec>, cur: Vec)
    requires Scanned(cells, marks, taken, cur)
    requires cur in cells && cur !in marks
    ensures cur in cells - taken
    ensures forall p :: p in cells - taken ==> !Before(p, cur)
  {
  }

  ghost predicate Disjoint(boxes: seq<Box>) {
    forall i, j, p :: 0 <= i < j < |boxes| && In(boxes[i], p) ==> !In(boxes[j], p)
  }

  lemma GreedyCoversExactly(boxes: seq<Box>, cells: iset<Vec>, overlap: bool)
    requires GreedyList(boxes, cells, overlap)
    ensures Cover(boxes) == cells
  {
    forall p | p in Cover(boxes) ensures p in cells {
      CoverMember(boxes, p);
      var k :| 0 <= k < |boxes| && In(boxes[k], p);
      assert GreedyStep(boxes, k, cells, overlap);
    }
  }

  lemma GreedyIsNormal(boxes: seq<Box>, cells: iset<Vec>, overlap: bool)
    requires GreedyPrefix(boxes, cells, overlap)
    ensures forall k :: 0 <= k < |boxes| ==> Normal(boxes[k])
  {
    forall k | 0 <= k < |boxes| ensures Normal(boxes[k]) {
      assert GreedyStep(boxes, k, cells, overlap);
    }
  }

  lemma MinimalIsDisjoint(boxes: seq<Box>, cells: iset<Vec>)
    requires GreedyList(boxes, cells, false)
    ensures Disjoint(boxes)
  {
    forall i, j, p | 0 <= i < j < |boxes| && In(boxes[i], p) ensures !In(boxes[j], p) {
      assert GreedyStep(boxes, j, cells, false);
      CoverMember(boxes[..j], p);
      assert boxes[..j][i] == boxes[i];
    }
  }

  lemma GreedyBoxNotSmaller(a: Box, b: Box, rest: iset<Vec>, avail: iset<Vec>)
    requires GreedyBox(a, rest, avail) && GreedyBox(b, rest, avail)
    ensures a.start == b.start && b.end.x <= a.end.x && (a.end.x == b.end.x ==> b.end.y <= a.end.y)
  {
    assert a.start == b.start;
    assert a.end.x < b.end.x ==> In(b, Vec(a.end.x + 1, a.start.y));
    var p :| p !in avail && p.y == a.end.y + 1 && a.start.x <= p.x <= a.end.x;
    assert a.end.x == b.end.x && a.end.y < b.end.y ==> In(b, p);
  }

  lemma GreedyBoxUnique(a: Box, b: Box, rest: iset<Vec>, avail: iset<Vec>)
    requires GreedyBox(a, rest, avail) && GreedyBox(b, rest, avail)
    ensures a == b
  {
    GreedyBoxNotSmaller(a, b, rest, avail);
    GreedyBoxNotSmaller(b, a, rest, avail);
  }

  lemma {:induction false} GreedyPrefixesAgree(a: seq<Box>, b: seq<Box>, cells: iset<Vec>, overlap: bool, n: nat)
    requires GreedyList(a, cells, overlap) && GreedyList(b, cells, overlap)
    requires n <= |a| && n <= |b|
    ensures a[..n] == b[..n]
  {
    if n > 0 {
      GreedyPrefixesAgree(a, b, cells, overlap, n - 1);
      assert GreedyStep(a, n - 1, cells, overlap) && GreedyStep(b, n - 1, cells, overlap);
      var rest := Rest(cells, a[..n - 1]);
      GreedyBoxUnique(a[n - 1], b[n - 1], rest, Avail(cells, Cover(a[..n - 1]), overlap));
      assert a[..n] == a[..n - 1] + [a[n - 1]];
      assert b[..n] == b[..n - 1] + [b[n - 1]];
    }
  }

  lemma GreedyNotShorter(a: seq<Box>, b: seq<Box>, cells: iset<Vec>, overlap: bool)
    requires GreedyList(a, cells, overlap) && GreedyList(b, cells, overlap)
    ensures |b| <= |a|
  {
    GreedyPrefixesAgree(a, b, cells, overlap, Min(|a|, |b|));
    assert a[..|a|] == a;
    assert |a| < |b| ==> b[..|a|] == a && GreedyStep(b, |a|, cells, overlap);
  }

  /** The box list is a canonical form: it depends on the set of cells alone. */
  lemma GreedyListUnique(a: seq<Box>, b: seq<Box>, cells: iset<Vec>, overlap: bool)
    requires GreedyList(a, cells, overlap) && GreedyList(b, cells, overlap)
    ensures a == b
  {
    GreedyNotShorter(a, b, cells, overlap);
    GreedyNotShorter(b, a, cells, overlap);
    GreedyPrefixesAgree(a, b, cells, overlap, |a|);
    assert a[..|a|] == a && b[..|b|] == b;
  }

  /** Decomposing, rasterising the boxes and decomposing again changes nothing. */
  lemma DecompositionRoundTrip(boxes: seq<Box>, again: seq<Box>, cells: iset<Vec>, overlap: bool)
    requires GreedyList(boxes, cells, overlap)
    requires GreedyList(again, Cover(boxes), overlap)
    ensures again == boxes
  {
    GreedyCoversExactly(boxes, cells, overlap);
    GreedyListUnique(boxes, again, cells, overlap);
  }

  /** One box is its own decomposition. */
  lemma SingleBoxIsGreedy(b: Box, overlap: bool)
    requires Normal(b)
    ensures GreedyList([b], BoxCells(b), overlap)
  {
    assert [b][..0] == [];
    assert Cover([]) == iset{};
    assert Rest(BoxCells(b), []) == BoxCells(b);
    assert In(b, b.start);
    assert Vec(b.start.x, b.end.y + 1) !in BoxCells(b);
    assert RowBelowBroken(b, BoxCells(b));
    assert GreedyStep([b], 0, BoxCells(b), overlap);
    CoverSnoc([], b);
    assert [] + [b] == [b];
  }
}
