/** Counting cells and sides: what the edge and box lists of a grid conserve. */
module BoundaryCounts {
  import opened CellSets
  import opened EdgeSets
  import opened Geometry

  function Bit(b: bool): nat { if b then 1 else 0 }

  /** The members of s among the n cells from (x0, y) on. */
  ghost function RowCount(s: iset<Vec>, x0: int, n: nat, y: int): nat {
    if n == 0 then 0 else RowCount(s, x0, n - 1, y) + Bit(Vec(x0 + n - 1, y) in s)
  }

  /** The members of s in the rectangle of n columns and m rows at a. */
  ghost function Count(s: iset<Vec>, a: Vec, n: nat, m: nat): nat {
    if m == 0 then 0 else Count(s, a, n, m - 1) + RowCount(s, a.x, n, a.y + m - 1)
  }

  /** All members lie in the rectangle and off its border. */
  ghost predicate Bounded(s: iset<Vec>, a: Vec, n: nat, m: nat) {
    forall p :: p in s ==> a.x < p.x < a.x + n - 1 && a.y < p.y < a.y + m - 1
  }

  /** All members lie in the rectangle. */
  ghost predicate Contained(s: iset<Vec>, a: Vec, n: nat, m: nat) {
    forall p :: p in s ==> a.x <= p.x < a.x + n && a.y <= p.y < a.y + m
  }

  ghost predicate Splits(u: iset<Vec>, s: iset<Vec>, t: iset<Vec>) {
    forall p :: (p in u <==> p in s || p in t) && !(p in s && p in t)
  }

  lemma {:induction false} RowCountSplits(u: iset<Vec>, s: iset<Vec>, t: iset<Vec>, x0: int, n: nat, y: int)
    requires Splits(u, s, t)
    ensures RowCount(u, x0, n, y) == RowCount(s, x0, n, y) + RowCount(t, x0, n, y)
  {
    if n > 0 {
      RowCountSplits(u, s, t, x0, n - 1, y);
    }
  }

  lemma {:induction false} CountSplits(u: iset<Vec>, s: iset<Vec>, t: iset<Vec>, a: Vec, n: nat, m: nat)
    requires Splits(u, s, t)
    ensures Count(u, a, n, m) == Count(s, a, n, m) + Count(t, a, n, m)
  {
    if m > 0 {
      CountSplits(u, s, t, a, n, m - 1);
      RowCountSplits(u, s, t, a.x, n, a.y + m - 1);
    }
  }

  /** In row y the set is the cells of columns c..d (d excluded). */
  lemma {:induction false} RowCountInterval(s: iset<Vec>, x0: int, n: nat, y: int, c: int, d: int)
    requires x0 <= c <= d
    requires forall x :: x0 <= x < x0 + n ==> (Vec(x, y) in s <==> c <= x < d)
    ensures RowCount(s, x0, n, y) == Max(0, Min(d, x0 + n) - Min(c, x0 + n))
  {
    if n > 0 {
      RowCountInterval(s, x0, n - 1, y, c, d);
    }
  }

  /** The set is the cells of columns c..d (d excluded) in one row. */
  lemma {:induction false} CountRow(s: iset<Vec>, a: Vec, n: nat, m: nat, c: int, d: int, y: int)
    requires a.x <= c <= d <= a.x + n && a.y <= y
    requires forall p :: p in s <==> c <= p.x < d && p.y == y
    ensures Count(s, a, n, m) == if y < a.y + m then d - c else 0
  {
    if m > 0 {
      CountRow(s, a, n, m - 1, c, d, y);
      var last := a.y + m - 1;
      RowCountInterval(s, a.x, n, last, if last == y then c else a.x, if last == y then d else a.x);
    }
  }

  /** The set is the cells of one column in rows e..f (f excluded). */
  lemma {:induction false} CountColumn(s: iset<Vec>, a: Vec, n: nat, m: nat, x: int, e: int, f: int)
    requires a.x <= x < a.x + n && a.y <= e <= f
    requires forall p :: p in s <==> p.x == x && e <= p.y < f
    ensures Count(s, a, n, m) == Min(f, a.y + m) - Min(e, a.y + m)
  {
    if m > 0 {
      CountColumn(s, a, n, m - 1, x, e, f);
      var last := a.y + m - 1;
      RowCountInterval(s, a.x, n, last, x, if e <= last < f then x + 1 else x);
    }
  }

  lemma CountRun(e: Edge, a: Vec, n: nat, m: nat)
    requires Straight(e)
    requires forall p :: OnEdge(e, p) ==> a.x <= p.x < a.x + n && a.y <= p.y < a.y + m
    ensures Count(EdgeCells(e), a, n, m) == Len(e)
  {
    assert OnEdge(e, e.p1);
    assert OnEdge(e, Minus(e.p2, CheckDirection(e.kind)));
    if e.kind.Top? || e.kind.Bottom? {
      CountRow(EdgeCells(e), a, n, m, e.p1.x, e.p2.x, e.p1.y);
    } else {
      CountColumn(EdgeCells(e), a, n, m, e.p1.x, e.p1.y, e.p2.y);
    }
  }

  function TotalLength(edges: seq<Edge>, kind: EdgeType): int {
    if edges == [] then 0
    else
      var last := edges[|edges| - 1];
      TotalLength(edges[..|edges| - 1], kind) + if last.kind == kind then Len(last) else 0
  }

  lemma {:induction false} CountEmpty(s: iset<Vec>, a: Vec, n: nat, m: nat)
    requires forall p :: p !in s
    ensures Count(s, a, n, m) == 0
  {
    CountSplits(s, s, s, a, n, m);
  }

  /** Disjoint runs are as long in all as the cells they have. */
  lemma {:induction false} TotalIsCount(edges: seq<Edge>, cells: iset<Vec>, kind: EdgeType, a: Vec, n: nat, m: nat)
    requires MaximalRuns(edges, cells) && DisjointRuns(edges) && Bounded(cells, a, n, m)
    ensures TotalLength(edges, kind) == Count(EdgeCover(edges, kind), a, n, m)
  {
    if edges == [] {
      CountEmpty(iset{}, a, n, m);
    } else {
      var init, last := edges[..|edges| - 1], edges[|edges| - 1];
      TotalIsCount(init, cells, kind, a, n, m);
      assert MaximalRun(last, cells);
      if last.kind == kind {
        forall p | p in EdgeCover(init, kind) ensures p !in EdgeCells(last) {
          var k := EdgeCoverMember(init, kind, p);
          assert OnEdge(edges[k], p);
        }
        CountSplits(EdgeCover(edges, kind), EdgeCover(init, kind), EdgeCells(last), a, n, m);
        CountRun(last, a, n, m);
      } else {
        assert EdgeCover(edges, kind) == EdgeCover(init, kind);
      }
    }
  }

  ghost function Sides(cells: iset<Vec>, kind: EdgeType): iset<Vec> {
    iset p: Vec | Side(cells, kind, p)
  }

  /** Going from one row to the next, tops close and bottoms open. */
  lemma {:induction false} RowsBalance(cells: iset<Vec>, x0: int, n: nat, y: int)
    ensures RowCount(Sides(cells, Top), x0, n, y) + RowCount(cells, x0, n, y + 1)
      == RowCount(Sides(cells, Bottom), x0, n, y + 1) + RowCount(cells, x0, n, y)
  {
    if n > 0 {
      RowsBalance(cells, x0, n - 1, y);
      var p := Vec(x0 + n - 1, y);
      assert Plus(p, OffsetDirection(Top)) == Vec(p.x, y + 1);
      assert Plus(Vec(p.x, y + 1), OffsetDirection(Bottom)) == p;
    }
  }

  lemma {:induction false} TopsAndBottoms(cells: iset<Vec>, a: Vec, n: nat, m: nat)
    requires forall p :: p in cells ==> a.y < p.y
    ensures Count(Sides(cells, Top), a, n, m) + RowCount(cells, a.x, n, a.y + m) == Count(Sides(cells, Bottom), a, n, m + 1)
  {
    if m == 0 {
      RowEmpty(cells, a.x, n, a.y);
      RowEmpty(Sides(cells, Bottom), a.x, n, a.y);
      assert Count(Sides(cells, Bottom), a, n, 0) == 0;
    } else {
      TopsAndBottoms(cells, a, n, m - 1);
      RowsBalance(cells, a.x, n, a.y + m - 1);
    }
  }

  lemma {:induction false} RowEmpty(s: iset<Vec>, x0: int, n: nat, y: int)
    requires forall p :: p in s ==> p.y != y
    ensures RowCount(s, x0, n, y) == 0
  {
    if n > 0 {
      RowEmpty(s, x0, n - 1, y);
    }
  }

  /** Along a row, lefts open and rights close. */
  lemma {:induction false} LeftsAndRights(cells: iset<Vec>, x0: int, n: nat, y: int)
    requires forall p :: p in cells ==> x0 < p.x
    ensures RowCount(Sides(cells, Right), x0, n, y) + Bit(Vec(x0 + n, y) in cells) == RowCount(Sides(cells, Left), x0, n + 1, y)
  {
    var p := Vec(x0 + n, y);
    assert Plus(p, OffsetDirection(Left)) == Vec(x0 + n - 1, y);
    assert p in Sides(cells, Left) <==> p in cells && Vec(x0 + n - 1, y) !in cells;
    if n > 0 {
      LeftsAndRights(cells, x0, n - 1, y);
      var q := Vec(x0 + n - 1, y);
      assert Plus(q, OffsetDirection(Right)) == p;
      assert q in Sides(cells, Right) <==> q in cells && p !in cells;
    }
  }

  lemma {:induction false} LeftsEqualRights(cells: iset<Vec>, a: Vec, n: nat, m: nat, k: nat)
    requires Bounded(cells, a, n, m)
    ensures Count(Sides(cells, Left), a, n, k) == Count(Sides(cells, Right), a, n, k)
  {
    if k > 0 {
      LeftsEqualRights(cells, a, n, m, k - 1);
      LeftsAndRights(cells, a.x, n, a.y + k - 1);
      var p := Vec(a.x + n, a.y + k - 1);
      assert p !in cells && p !in Sides(cells, Left);
    }
  }

  lemma LengthIsSides(edges: seq<Edge>, cells: iset<Vec>, kind: EdgeType, a: Vec, n: nat, m: nat)
    requires BoundaryPartition(edges, cells) && Bounded(cells, a, n, m)
    ensures TotalLength(edges, kind) == Count(Sides(cells, kind), a, n, m)
  {
    TotalIsCount(edges, cells, kind, a, n, m);
    assert EdgeCover(edges, kind) == Sides(cells, kind);
  }

  /** A set of cells has as much top as bottom and as much left as right, so the edges of
      its boundary do. */
  lemma BoundaryIsBalanced(edges: seq<Edge>, cells: iset<Vec>, a: Vec, n: nat, m: nat)
    requires BoundaryPartition(edges, cells) && Bounded(cells, a, n, m)
    ensures TotalLength(edges, Top) == TotalLength(edges, Bottom)
    ensures TotalLength(edges, Left) == TotalLength(edges, Right)
  {
    hide BoundaryPartition;
    LengthIsSides(edges, cells, Top, a, n, m);
    LengthIsSides(edges, cells, Bottom, a, n, m);
    LengthIsSides(edges, cells, Left, a, n, m);
    LengthIsSides(edges, cells, Right, a, n, m);
    TopsAndBottoms(cells, a, n, m);
    RowEmpty(cells, a.x, n, a.y + m);
    RowEmpty(Sides(cells, Bottom), a.x, n, a.y + m);
    LeftsEqualRights(cells, a, n, m, m);
  }

  lemma CountGrows(s: iset<Vec>, u: iset<Vec>, p: Vec, a: Vec, n: nat, m: nat)
    requires s <= u && p in u && p !in s
    requires a.x <= p.x < a.x + n && a.y <= p.y < a.y + m
    ensures Count(s, a, n, m) < Count(u, a, n, m)
  {
    var t := u - s;
    CountSplits(u, s, t, a, n, m);
    CountSplits(t, iset{p}, t - iset{p}, a, n, m);
    CountRow(iset{p}, a, n, m, p.x, p.x + 1, p.y);
  }

  /** Every box of a greedy list starts at a set cell no earlier box covers. */
  lemma {:induction false} BoxesCountCells(boxes: seq<Box>, k: nat, cells: iset<Vec>, overlap: bool, a: Vec, n: nat, m: nat)
    requires GreedyPrefix(boxes, cells, overlap) && Contained(cells, a, n, m) && k <= |boxes|
    ensures k <= Count(cells * Cover(boxes[..k]), a, n, m)
  {
    if k > 0 {
      BoxesCountCells(boxes, k - 1, cells, overlap, a, n, m);
      assert GreedyStep(boxes, k - 1, cells, overlap);
      var b := boxes[k - 1];
      assert boxes[..k] == boxes[..k - 1] + [b];
      CoverSnoc(boxes[..k - 1], b);
      assert In(b, b.start);
      CountGrows(cells * Cover(boxes[..k - 1]), cells * Cover(boxes[..k]), b.start, a, n, m);
    }
  }

  lemma NoMoreBoxesThanCells(boxes: seq<Box>, cells: iset<Vec>, overlap: bool, a: Vec, n: nat, m: nat)
    requires GreedyList(boxes, cells, overlap) && Contained(cells, a, n, m)
    ensures |boxes| <= Count(cells, a, n, m)
  {
    BoxesCountCells(boxes, |boxes|, cells, overlap, a, n, m);
    assert boxes[..|boxes|] == boxes;
    GreedyCoversExactly(boxes, cells, overlap);
    assert cells * Cover(boxes) == cells;
  }
}
