/** Integer vectors and inclusive boxes (Foundation/BasicTypes). */
module Geometry {

  datatype Vec = Vec(x: int, y: int)

  /** Both ends are part of the box. */
  datatype Box = Box(start: Vec, end: Vec)

  function Plus(a: Vec, b: Vec): Vec { Vec(a.x + b.x, a.y + b.y) }

  function Minus(a: Vec, b: Vec): Vec { Vec(a.x - b.x, a.y - b.y) }

  function Scale(a: Vec, k: int): Vec { Vec(a.x * k, a.y * k) }

  function Min(a: int, b: int): int { if a < b then a else b }

  function Max(a: int, b: int): int { if a > b then a else b }

  predicate In(b: Box, p: Vec) {
    b.start.x <= p.x <= b.end.x && b.start.y <= p.y <= b.end.y
  }

  predicate Normal(b: Box) {
    b.start.x <= b.end.x && b.start.y <= b.end.y
  }

  /** C++ division by a positive constant: towards zero. */
  function TruncDiv(a: int, b: int): int
    requires b > 0
  {
    if a >= 0 then a / b else -(-a / b)
  }

  function FromFrameCenterAndSize(center: Vec, size: Vec): Box {
    var start := Vec(center.x - TruncDiv(size.x, 2), center.y - TruncDiv(size.y, 2));
    Box(start, Minus(Plus(start, size), Vec(1, 1)))
  }

  /** The box has the size asked for, and the centre in its middle: as many cells before it as
      after it, or one more. */
  lemma FrameIsCentred(center: Vec, size: Vec)
    requires size.x > 0 && size.y > 0
    ensures var b := FromFrameCenterAndSize(center, size);
      && Normal(b) && In(b, center) && b.end.x - b.start.x + 1 == size.x && b.end.y - b.start.y + 1 == size.y
      && 0 <= (center.x - b.start.x) - (b.end.x - center.x) <= 1
      && 0 <= (center.y - b.start.y) - (b.end.y - center.y) <= 1
  {
  }

  function FromPoint(p: Vec): Box { Box(p, p) }

  function FromPoints(a: Vec, b: Vec): (r: Box)
    ensures Normal(r) && In(r, a) && In(r, b)
  {
    Box(Vec(Min(a.x, b.x), Min(a.y, b.y)), Vec(Max(a.x, b.x), Max(a.y, b.y)))
  }

  predicate Inside(inner: Box, outer: Box) {
    outer.start.x <= inner.start.x && inner.end.x <= outer.end.x &&
    outer.start.y <= inner.start.y && inner.end.y <= outer.end.y
  }

  /** The smallest box around two. */
  function BoxUnion(a: Box, b: Box): (r: Box)
    ensures Inside(a, r) && Inside(b, r) && forall c :: Inside(a, c) && Inside(b, c) ==> Inside(r, c)
    ensures forall p :: In(a, p) || In(b, p) ==> In(r, p)
    ensures Normal(a) || Normal(b) ==> Normal(r)
  {
    Box(Vec(Min(a.start.x, b.start.x), Min(a.start.y, b.start.y)),
        Vec(Max(a.end.x, b.end.x), Max(a.end.y, b.end.y)))
  }

  /** The test the code makes: four comparisons, none of which holds. */
  predicate BoxIntersect(a: Box, b: Box) {
    !(a.start.x > b.end.x || a.start.y > b.end.y || a.end.x < b.start.x || a.end.y < b.start.y)
  }

  /** For boxes that are not inverted the comparison test means sharing a cell. */
  lemma IntersectMeansCommonCell(a: Box, b: Box)
    requires Normal(a) && Normal(b)
    ensures BoxIntersect(a, b) <==> exists p :: In(a, p) && In(b, p)
  {
    if BoxIntersect(a, b) {
      var p := Vec(Max(a.start.x, b.start.x), Max(a.start.y, b.start.y));
      assert In(a, p) && In(b, p);
    }
  }
}
