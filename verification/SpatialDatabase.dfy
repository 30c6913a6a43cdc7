/** The grid of 1024-unit nodes that finds elements by box (Foundation/SpatialDatabase). */
module SpatialDatabase {
  import opened Geometry
  import opened Options
  import opened Vectors

  datatype Elem = Elem(id: nat, box: Box)

  /** The node a coordinate falls in, as the code computes it with C++ division. */
  function GetGridModulo(value: int): int {
    if value >= 0 then TruncDiv(value, 1024) else TruncDiv(value + 1, 1024) - 1
  }

  /** It is floor division. */
  lemma GridModuloIsFloor(value: int)
    ensures GetGridModulo(value) * 1024 <= value <= GetGridModulo(value) * 1024 + 1023
  {
  }

  /** Two's complement fields of 16 bits each. */
  function GetGridId(x: int, y: int): int {
    (y % 0x1_0000) * 0x1_0000 + x % 0x1_0000
  }

  function SignExtend(v: int): int {
    if v < 0x8000 then v else v - 0x1_0000
  }

  function GetGridBoxForGridId(id: int): Box {
    GridBox(Vec(SignExtend(id % 0x1_0000), SignExtend((id / 0x1_0000) % 0x1_0000)))
  }

  function GridBox(g: Vec): Box {
    Box(Vec(g.x * 1024, g.y * 1024), Vec(g.x * 1024 + 1023, g.y * 1024 + 1023))
  }

  /** Node numbers that fit in 16 bits survive packing, so packed ids name single nodes. */
  lemma GridIdRoundTrip(x: int, y: int)
    ensures GetGridBoxForGridId(GetGridId(x, y)) == GridBox(Vec(x, y))
      <==> -0x8000 <= x < 0x8000 && -0x8000 <= y < 0x8000
  {
    var id := GetGridId(x, y);
    assert id % 0x1_0000 == x % 0x1_0000;
    assert id / 0x1_0000 == y % 0x1_0000;
  }

  /** The visit of a box comes to node g. */
  predicate Touches(b: Box, g: Vec) {
    && GetGridModulo(b.start.x) <= g.x <= GetGridModulo(b.end.x)
    && GetGridModulo(b.start.y) <= g.y <= GetGridModulo(b.end.y)
  }

  lemma TouchingIsIntersecting(b: Box, g: Vec)
    requires Normal(b)
    ensures Touches(b, g) <==> BoxIntersect(GridBox(g), b)
  {
    GridModuloIsFloor(b.start.x);
    GridModuloIsFloor(b.start.y);
    GridModuloIsFloor(b.end.x);
    GridModuloIsFloor(b.end.y);
  }

  lemma ModuloMonotonic(a: int, b: int)
    requires a <= b
    ensures GetGridModulo(a) <= GetGridModulo(b)
  {
    GridModuloIsFloor(a);
    GridModuloIsFloor(b);
  }

  lemma InsideTouches(inner: Box, outer: Box, g: Vec)
    requires Inside(inner, outer) && Touches(inner, g)
    ensures Touches(outer, g)
  {
    ModuloMonotonic(outer.start.x, inner.start.x);
    ModuloMonotonic(outer.start.y, inner.start.y);
    ModuloMonotonic(inner.end.x, outer.end.x);
    ModuloMonotonic(inner.end.y, outer.end.y);
  }

  /** The visit of b comes to every node that of a comes to. */
  predicate NodesWithin(a: Box, b: Box) {
    && GetGridModulo(b.start.x) <= GetGridModulo(a.start.x) && GetGridModulo(a.end.x) <= GetGridModulo(b.end.x)
    && GetGridModulo(b.start.y) <= GetGridModulo(a.start.y) && GetGridModulo(a.end.y) <= GetGridModulo(b.end.y)
  }

  lemma FirstNode(b: Box) returns (g: Vec)
    requires Normal(b)
    ensures Touches(b, g) && g == Vec(GetGridModulo(b.start.x), GetGridModulo(b.start.y))
  {
    g := Vec(GetGridModulo(b.start.x), GetGridModulo(b.start.y));
    ModuloMonotonic(b.start.x, b.end.x);
    ModuloMonotonic(b.start.y, b.end.y);
  }

  lemma NodesWithinMeans(a: Box, b: Box)
    requires Normal(a)
    ensures NodesWithin(a, b) <==> forall g :: Touches(a, g) ==> Touches(b, g)
  {
    var g := FirstNode(a);
    var h := Vec(GetGridModulo(a.end.x), GetGridModulo(a.end.y));
    assert Touches(a, h);
    hide GetGridModulo;
  }

  lemma InsideNodes(a: Box, b: Box)
    requires Inside(a, b)
    ensures NodesWithin(a, b)
  {
    ModuloMonotonic(b.start.x, a.start.x);
    ModuloMonotonic(b.start.y, a.start.y);
    ModuloMonotonic(a.end.x, b.end.x);
    ModuloMonotonic(a.end.y, b.end.y);
  }

  /** Boxes that intersect have a node in common, so a query misses nothing. */
  lemma IntersectingTouchSameNode(a: Box, b: Box) returns (g: Vec)
    requires Normal(a) && Normal(b) && BoxIntersect(a, b)
    ensures Touches(a, g) && Touches(b, g)
  {
    var x, y := Max(a.start.x, b.start.x), Max(a.start.y, b.start.y);
    g := Vec(GetGridModulo(x), GetGridModulo(y));
    InsideTouches(FromPoint(Vec(x, y)), a, g);
    InsideTouches(FromPoint(Vec(x, y)), b, g);
  }

  predicate HasId(node: seq<Elem>, id: nat) {
    exists k :: 0 <= k < |node| && node[k].id == id
  }

  ghost predicate DistinctIds(node: seq<Elem>) {
    forall i, j :: 0 <= i < j < |node| ==> node[i].id != node[j].id
  }

  ghost predicate FreshBatch(elems: seq<Elem>, entries: map<nat, Box>) {
    && DistinctIds(elems)
    && forall k :: 0 <= k < |elems| ==> elems[k].id !in entries && Normal(elems[k].box)
  }

  /** A batch says nothing else of an id than what is there already. */
  ghost predicate Agrees(elems: seq<Elem>, entries: map<nat, Box>) {
    forall k :: 0 <= k < |elems| && elems[k].id in entries ==> entries[elems[k].id] == elems[k].box
  }

  /** The box with which a batch brings an id into node g: the first that intersects the node. */
  function Entered(elems: seq<Elem>, g: Vec, id: nat): Option<Box> {
    if elems == [] then None
    else
      var init, last := Entered(elems[..|elems| - 1], g, id), elems[|elems| - 1];
      if init.None? && last.id == id && BoxIntersect(GridBox(g), last.box) then Some(last.box) else init
  }

  /** The boxes a batch has for an id. */
  function BoxesOf(elems: seq<Elem>, id: nat): seq<Box> {
    if elems == [] then []
    else
      var last := elems[|elems| - 1];
      BoxesOf(elems[..|elems| - 1], id) + if last.id == id then [last.box] else []
  }

  /** The boxes brought for an id, that under which it is indexed first. */
  function BoxesFor(entries: map<nat, Box>, elems: seq<Elem>, id: nat): seq<Box> {
    (if id in entries then [entries[id]] else []) + BoxesOf(elems, id)
  }

  /** A node keeps the first box brought for an id. That is the last one everywhere when the first
      and the last are the same and reach all the others do. */
  predicate Settles(boxes: seq<Box>) {
    forall k :: 0 <= k < |boxes| ==> boxes[0] == boxes[|boxes| - 1] && NodesWithin(boxes[k], boxes[0])
  }

  /** The first of some boxes that touches node g. */
  function FirstAt(boxes: seq<Box>, g: Vec): Option<Box> {
    if boxes == [] then None
    else
      var init, last := FirstAt(boxes[..|boxes| - 1], g), boxes[|boxes| - 1];
      if init.None? && Touches(last, g) then Some(last) else init
  }

  ghost function LastAt(boxes: seq<Box>, g: Vec): Option<Box> {
    if boxes != [] && Touches(boxes[|boxes| - 1], g) then Some(boxes[|boxes| - 1]) else None
  }

  /** What node g has for an id after a batch: the nodes the bounds touch are visited. */
  ghost function Brought(entries: map<nat, Box>, elems: seq<Elem>, bounds: Box, id: nat, g: Vec): Option<Box> {
    FirstAt(BoxesFor(entries, if Touches(bounds, g) then elems else [], id), g)
  }

  ghost predicate AllInside(elems: seq<Elem>, bounds: Box) {
    forall k :: 0 <= k < |elems| ==> Inside(elems[k].box, bounds)
  }

  lemma {:induction false} FirstAtIs(boxes: seq<Box>, g: Vec)
    ensures FirstAt(boxes, g).None? <==> forall k :: 0 <= k < |boxes| ==> !Touches(boxes[k], g)
    ensures boxes != [] && Touches(boxes[0], g) ==> FirstAt(boxes, g) == Some(boxes[0])
  {
    hide Touches;
    if boxes != [] {
      var init, last := boxes[..|boxes| - 1], boxes[|boxes| - 1];
      FirstAtIs(init, g);
      assert forall k :: 0 <= k < |init| ==> boxes[k] == init[k];
      assert forall k :: 0 <= k < |boxes| ==> k < |init| || boxes[k] == last;
    }
  }

  lemma {:induction false} FirstAtSplit(a: seq<Box>, b: seq<Box>, g: Vec)
    ensures FirstAt(a + b, g) == if FirstAt(a, g).Some? then FirstAt(a, g) else FirstAt(b, g)
  {
    hide Touches;
    if b == [] {
      assert a + b == a;
    } else {
      FirstAtSplit(a, b[..|b| - 1], g);
      assert (a + b)[..|a + b| - 1] == a + b[..|b| - 1];
    }
  }

  lemma SettlesWhen(boxes: seq<Box>)
    requires forall k :: 0 <= k < |boxes| ==> Normal(boxes[k])
    ensures Settles(boxes) <==> forall g :: FirstAt(boxes, g) == LastAt(boxes, g)
  {
    hide Touches, NodesWithin, FirstAt, Normal;
    if boxes != [] {
      var last := boxes[|boxes| - 1];
      forall k | 0 <= k < |boxes| ensures NodesWithin(boxes[k], last) <==> forall g :: Touches(boxes[k], g) ==> Touches(last, g) {
        NodesWithinMeans(boxes[k], last);
      }
      forall g ensures FirstAt(boxes, g).None? <==> forall k :: 0 <= k < |boxes| ==> !Touches(boxes[k], g)
               ensures Touches(boxes[0], g) ==> FirstAt(boxes, g) == Some(boxes[0])
      {
        FirstAtIs(boxes, g);
      }
      var g := FirstNode(boxes[0]);
    } else {
      forall g ensures FirstAt(boxes, g).None? {
        FirstAtIs(boxes, g);
      }
    }
  }

  lemma {:induction false} EnteredFirst(elems: seq<Elem>, g: Vec, id: nat)
    requires forall k :: 0 <= k < |elems| ==> Normal(elems[k].box)
    ensures Entered(elems, g, id) == FirstAt(BoxesOf(elems, id), g)
  {
    if elems != [] {
      var init, last := elems[..|elems| - 1], elems[|elems| - 1];
      EnteredFirst(init, g, id);
      TouchingIsIntersecting(last.box, g);
      hide Touches, BoxIntersect, GridBox, Normal;
      var boxes := BoxesOf(init, id);
      if last.id == id {
        assert (boxes + [last.box])[..|boxes|] == boxes;
      } else {
        assert boxes + [] == boxes;
      }
    }
  }

  lemma {:induction false} BoxesOfIn(elems: seq<Elem>, id: nat)
    ensures forall k :: 0 <= k < |BoxesOf(elems, id)| ==> Elem(id, BoxesOf(elems, id)[k]) in elems
    ensures BoxesOf(elems, id) == [] <==> !HasId(elems, id)
    ensures DistinctIds(elems) ==> |BoxesOf(elems, id)| <= 1
  {
    if elems != [] {
      var init, last := elems[..|elems| - 1], elems[|elems| - 1];
      BoxesOfIn(init, id);
      assert elems == init + [last];
      HasIdSnoc(init, last, id);
      assert DistinctIds(elems) ==> DistinctIds(init) && (last.id == id ==> !HasId(init, id));
      hide HasId, DistinctIds;
    }
  }

  /** Without an id twice, the boxes settle exactly when the batch agrees with what is there. */
  lemma DistinctSettle(entries: map<nat, Box>, elems: seq<Elem>)
    requires DistinctIds(elems)
    ensures (forall id :: Settles(BoxesFor(entries, elems, id))) <==> Agrees(elems, entries)
  {
    hide NodesWithin;
    forall id ensures |BoxesOf(elems, id)| <= 1 && (BoxesOf(elems, id) != [] ==> Elem(id, BoxesOf(elems, id)[0]) in elems) {
      BoxesOfIn(elems, id);
    }
    forall b ensures NodesWithin(b, b) {
      InsideNodes(b, b);
    }
    forall k | 0 <= k < |elems| ensures BoxesOf(elems, elems[k].id) == [elems[k].box] {
      var id := elems[k].id;
      BoxesOfIn(elems, id);
      assert HasId(elems, id);
      var e := Elem(id, BoxesOf(elems, id)[0]);
      var i :| 0 <= i < |elems| && elems[i] == e;
      assert i == k;
    }
    hide DistinctIds, BoxesOf;
    if Agrees(elems, entries) {
      forall id ensures Settles(BoxesFor(entries, elems, id)) {
        if BoxesOf(elems, id) != [] {
          var k :| 0 <= k < |elems| && elems[k] == Elem(id, BoxesOf(elems, id)[0]);
        }
      }
    } else {
      var k :| 0 <= k < |elems| && elems[k].id in entries && entries[elems[k].id] != elems[k].box;
      assert BoxesFor(entries, elems, elems[k].id) == [entries[elems[k].id], elems[k].box];
      assert !Settles(BoxesFor(entries, elems, elems[k].id)) by {
        assert BoxesFor(entries, elems, elems[k].id)[0] != BoxesFor(entries, elems, elems[k].id)[1];
      }
    }
  }

  /** The visitors the operations pass to the visit of a box. */
  datatype Visitor =
    | Insert(elem: Elem)
    | InsertBatch(elems: seq<Elem>)
    | Remove(id: nat)
    | RemoveBatch(ids: seq<nat>)

  /** Element e is in node g after the visitor has been there. */
  predicate Leaves(v: Visitor, g: Vec, node: seq<Elem>, e: Elem) {
    match v
    case Insert(elem) => e in node || (e == elem && !HasId(node, e.id))
    case InsertBatch(elems) => e in node || (!HasId(node, e.id) && Entered(elems, g, e.id) == Some(e.box))
    case Remove(id) => e in node && e.id != id
    case RemoveBatch(ids) => e in node && e.id !in ids
  }

  ghost predicate Visited(v: Visitor, g: Vec, before: seq<Elem>, after: seq<Elem>) {
    DistinctIds(after) && forall e :: e in after <==> Leaves(v, g, before, e)
  }

  method FindId(node: seq<Elem>, id: nat) returns (index: int)
    ensures -1 <= index < |node|
    ensures index >= 0 ==> node[index].id == id
    ensures index < 0 ==> !HasId(node, id)
  {
    index := 0;
    while index < |node|
      invariant 0 <= index <= |node|
      invariant forall k :: 0 <= k < index ==> node[k].id != id
    {
      if node[index].id == id {
        return;
      }
      index := index + 1;
    }
    index := -1;
  }

  lemma RemoveQuickKeepsOthers(node: seq<Elem>, index: nat)
    requires index < |node| && DistinctIds(node)
    ensures DistinctIds(RemoveIndexQuick(node, index))
    ensures forall e :: e in RemoveIndexQuick(node, index) <==> e in node && e.id != node[index].id
  {
    var r := RemoveIndexQuick(node, index);
    forall e | e in node && e.id != node[index].id ensures e in r {
      var k :| 0 <= k < |node| && node[k] == e;
      assert r[if k == |node| - 1 then index else k] == e;
    }
  }

  method VisitInsertBatch(node: seq<Elem>, g: Vec, elems: seq<Elem>) returns (r: seq<Elem>)
    requires DistinctIds(node)
    ensures Visited(InsertBatch(elems), g, node, r)
  {
    r := node;
    hide BoxIntersect, GridBox;
    for k := 0 to |elems|
      invariant Visited(InsertBatch(elems[..k]), g, node, r)
    {
      ghost var before := r;
      if BoxIntersect(GridBox(g), elems[k].box) {
        var found := FindId(r, elems[k].id);
        if found < 0 {
          r := r + [elems[k]];
        }
      }
      assert elems[..k + 1] == elems[..k] + [elems[k]];
      BatchStep(g, elems, k, node, before, r);
    }
    assert elems[..|elems|] == elems;
  }

  lemma BatchStep(g: Vec, elems: seq<Elem>, k: nat, node: seq<Elem>, before: seq<Elem>, after: seq<Elem>)
    requires k < |elems|
    requires Visited(InsertBatch(elems[..k]), g, node, before)
    requires after == if BoxIntersect(GridBox(g), elems[k].box) && !HasId(before, elems[k].id) then before + [elems[k]] else before
    ensures Visited(InsertBatch(elems[..k + 1]), g, node, after)
  {
    var e := elems[k];
    assert elems[..k + 1][..k] == elems[..k];
    hide BoxIntersect, GridBox;
    assert HasId(before, e.id) <==> HasId(node, e.id) || Entered(elems[..k], g, e.id).Some? by {
      if HasId(node, e.id) {
        var i :| 0 <= i < |node| && node[i].id == e.id;
        assert node[i] in before;
      } else if Entered(elems[..k], g, e.id).Some? {
        assert Elem(e.id, Entered(elems[..k], g, e.id).value) in before;
      }
      if HasId(before, e.id) {
        var i :| 0 <= i < |before| && before[i].id == e.id;
        assert Leaves(InsertBatch(elems[..k]), g, node, before[i]);
        assert before[i] in node ==> HasId(node, e.id);
      }
    }
  }

  method VisitRemoveBatch(node: seq<Elem>, ids: seq<nat>) returns (r: seq<Elem>)
    requires DistinctIds(node)
    ensures DistinctIds(r) && forall e :: e in r <==> e in node && e.id !in ids
  {
    r := node;
    var index := 0;
    while index < |r|
      invariant 0 <= index <= |r| && DistinctIds(r)
      invariant forall k :: 0 <= k < index ==> r[k].id !in ids
      invariant forall e :: e in r ==> e in node
      invariant forall e :: e in node && e.id !in ids ==> e in r
      decreases |r| - index
    {
      var add := 1;
      for k := 0 to |ids|
        invariant forall j :: 0 <= j < k ==> r[index].id != ids[j]
        invariant add == 1
      {
        if r[index].id == ids[k] {
          add := 0;
          break;
        }
      }
      if add == 0 {
        RemoveQuickKeepsOthers(r, index);
        r := RemoveIndexQuick(r, index);
      }
      index := index + add;
    }
  }

  method VisitNode(v: Visitor, g: Vec, node: seq<Elem>) returns (r: seq<Elem>)
    requires DistinctIds(node)
    ensures Visited(v, g, node, r)
  {
    r := node;
    match v
    case Insert(elem) =>
      var found := FindId(node, elem.id);
      if found < 0 {
        r := node + [elem];
      }
    case InsertBatch(elems) =>
      r := VisitInsertBatch(node, g, elems);
    case Remove(id) =>
      var found := FindId(node, id);
      if found >= 0 {
        RemoveQuickKeepsOthers(node, found);
        r := RemoveIndexQuick(node, found);
      }
    case RemoveBatch(ids) =>
      r := VisitRemoveBatch(node, ids);
  }

  /** The elements of a node that may not have been made yet. */
  function Node(nodes: map<Vec, seq<Elem>>, g: Vec): seq<Elem> {
    if g in nodes then nodes[g] else []
  }

  ghost predicate DistinctNodes(nodes: map<Vec, seq<Elem>>) {
    forall g :: DistinctIds(Node(nodes, g))
  }

  /** The nodes in region were visited, the others left alone. */
  ghost predicate VisitedNodes(v: Visitor, before: map<Vec, seq<Elem>>, after: map<Vec, seq<Elem>>, region: iset<Vec>) {
    forall g :: if g in region then Visited(v, g, Node(before, g), Node(after, g)) else Node(after, g) == Node(before, g)
  }

  /** The nodes of b that come before column x of row y. */
  ghost function SoFar(b: Box, x: int, y: int): iset<Vec> {
    iset g: Vec | Touches(b, g) && (g.y < y || (g.y == y && g.x < x))
  }

  lemma NothingVisited(v: Visitor, nodes: map<Vec, seq<Elem>>, b: Box)
    ensures VisitedNodes(v, nodes, nodes, SoFar(b, GetGridModulo(b.start.x), GetGridModulo(b.start.y)))
  {
  }

  lemma NothingToRemove(v: Visitor, g: Vec)
    requires v.Remove? || v.RemoveBatch?
    ensures Visited(v, g, [], [])
  {
  }

  lemma TouchesWhen(b: Box, g: Vec)
    ensures Touches(b, g) <==>
      GetGridModulo(b.start.x) <= g.x <= GetGridModulo(b.end.x) && GetGridModulo(b.start.y) <= g.y <= GetGridModulo(b.end.y)
  {
  }

  lemma AllVisited(b: Box, y: int)
    requires GetGridModulo(b.end.y) < y
    ensures SoFar(b, GetGridModulo(b.start.x), y) == TouchedBy(b)
  {
  }

  lemma SoFarGrows(b: Box, x: int, y: int)
    requires Touches(b, Vec(x, y))
    ensures forall g :: g in SoFar(b, x + 1, y) <==> g in SoFar(b, x, y) || g == Vec(x, y)
  {
  }

  lemma RowDone(b: Box, x: int, y: int)
    requires GetGridModulo(b.end.x) < x
    ensures SoFar(b, x, y) == SoFar(b, GetGridModulo(b.start.x), y + 1)
  {
  }

  lemma VisitOne(v: Visitor, before: map<Vec, seq<Elem>>, now: map<Vec, seq<Elem>>, after: map<Vec, seq<Elem>>, b: Box, x: int, y: int)
    requires Touches(b, Vec(x, y)) && VisitedNodes(v, before, now, SoFar(b, x, y))
    requires forall g :: g != Vec(x, y) ==> Node(after, g) == Node(now, g)
    requires Visited(v, Vec(x, y), Node(now, Vec(x, y)), Node(after, Vec(x, y)))
    ensures VisitedNodes(v, before, after, SoFar(b, x + 1, y))
  {
    SoFarGrows(b, x, y);
    forall g ensures if g in SoFar(b, x + 1, y) then Visited(v, g, Node(before, g), Node(after, g)) else Node(after, g) == Node(before, g) {
      assert if g in SoFar(b, x, y) then Visited(v, g, Node(before, g), Node(now, g)) else Node(now, g) == Node(before, g);
    }
  }

  ghost function TouchedBy(b: Box): iset<Vec> {
    iset g: Vec | Touches(b, g)
  }

  /** The grid stores every entry in exactly the nodes its box touches. */
  ghost predicate Indexes(nodes: map<Vec, seq<Elem>>, entries: map<nat, Box>) {
    && DistinctNodes(nodes)
    && (forall id :: id in entries ==> Normal(entries[id]))
    && forall g, e :: e in Node(nodes, g) <==> e.id in entries && entries[e.id] == e.box && Touches(e.box, g)
  }

  lemma IndexedId(nodes: map<Vec, seq<Elem>>, entries: map<nat, Box>, g: Vec, id: nat)
    requires Indexes(nodes, entries) && HasId(Node(nodes, g), id)
    ensures id in entries
  {
    var k :| 0 <= k < |Node(nodes, g)| && Node(nodes, g)[k].id == id;
    assert Node(nodes, g)[k] in Node(nodes, g);
  }

  ghost function WithBatch(entries: map<nat, Box>, elems: seq<Elem>): map<nat, Box> {
    if elems == [] then entries
    else
      var last := elems[|elems| - 1];
      WithBatch(entries, elems[..|elems| - 1])[last.id := last.box]
  }

  lemma HasIdSnoc(init: seq<Elem>, last: Elem, id: nat)
    ensures HasId(init + [last], id) <==> HasId(init, id) || last.id == id
  {
    if k :| 0 <= k < |init| && init[k].id == id {
      assert (init + [last])[k].id == id;
    }
    assert (init + [last])[|init|] == last;
  }

  lemma {:induction false} BatchLookup(entries: map<nat, Box>, elems: seq<Elem>, id: nat)
    requires DistinctIds(elems)
    ensures HasId(elems, id) ==> id in WithBatch(entries, elems) && Elem(id, WithBatch(entries, elems)[id]) in elems
    ensures !HasId(elems, id) ==> (id in WithBatch(entries, elems) <==> id in entries)
    ensures !HasId(elems, id) && id in entries ==> WithBatch(entries, elems)[id] == entries[id]
  {
    if elems != [] {
      var init, last := elems[..|elems| - 1], elems[|elems| - 1];
      BatchLookup(entries, init, id);
      assert elems == init + [last];
      HasIdSnoc(init, last, id);
      assert last in elems && forall e :: e in init ==> e in elems;
      assert !(HasId(init, id) && last.id == id);
      hide HasId, DistinctIds;
    }
  }

  /** Of an id that is indexed under another box the grid keeps the old one. */
  lemma OldBoxStays(before: map<Vec, seq<Elem>>, after: map<Vec, seq<Elem>>, entries: map<nat, Box>, v: Visitor, region: iset<Vec>,
                    id: nat, entries': map<nat, Box>)
    requires Indexes(before, entries) && VisitedNodes(v, before, after, region) && (v.Insert? || v.InsertBatch?)
    requires id in entries && id in entries' && entries'[id] != entries[id]
    ensures !Indexes(after, entries')
  {
    var kept := Elem(id, entries[id]);
    var g := Vec(GetGridModulo(kept.box.start.x), GetGridModulo(kept.box.start.y));
    ModuloMonotonic(kept.box.start.x, kept.box.end.x);
    ModuloMonotonic(kept.box.start.y, kept.box.end.y);
    assert kept in Node(before, g);
    assert g in region ==> Visited(v, g, Node(before, g), Node(after, g));
    assert Leaves(v, g, Node(before, g), kept);
    assert kept in Node(after, g);
  }

  /** What the visit of a box leaves, operation by operation. Each needs the box visited to
      reach every node that has to change. */
  lemma InsertIndexes(before: map<Vec, seq<Elem>>, after: map<Vec, seq<Elem>>, entries: map<nat, Box>, elem: Elem)
    requires Indexes(before, entries) && Normal(elem.box)
    requires VisitedNodes(Insert(elem), before, after, TouchedBy(elem.box))
    ensures Indexes(after, entries[elem.id := elem.box]) <==> elem.id !in entries || entries[elem.id] == elem.box
  {
    var entries' := entries[elem.id := elem.box];
    if elem.id in entries && entries[elem.id] != elem.box {
      OldBoxStays(before, after, entries, Insert(elem), TouchedBy(elem.box), elem.id, entries');
    } else {
      forall g, e ensures e in Node(after, g) <==> e.id in entries' && entries'[e.id] == e.box && Touches(e.box, g) {
        if HasId(Node(before, g), elem.id) {
          IndexedId(before, entries, g, elem.id);
        } else if elem.id in entries {
          assert elem !in Node(before, g);
        }
        assert g in TouchedBy(elem.box) ==> Visited(Insert(elem), g, Node(before, g), Node(after, g));
        assert g in TouchedBy(elem.box) ==> (e in Node(after, g) <==> Leaves(Insert(elem), g, Node(before, g), e));
      }
      DistinctAfter(Insert(elem), before, after, TouchedBy(elem.box));
    }
  }

  lemma DistinctAfter(v: Visitor, before: map<Vec, seq<Elem>>, after: map<Vec, seq<Elem>>, region: iset<Vec>)
    requires DistinctNodes(before) && VisitedNodes(v, before, after, region)
    ensures DistinctNodes(after)
  {
    forall g ensures DistinctIds(Node(after, g)) {
      assert if g in region then Visited(v, g, Node(before, g), Node(after, g)) else Node(after, g) == Node(before, g);
    }
  }

  lemma InsertBatchIndexes(before: map<Vec, seq<Elem>>, after: map<Vec, seq<Elem>>, entries: map<nat, Box>, elems: seq<Elem>, bounds: Box)
    requires Indexes(before, entries)
    requires forall k :: 0 <= k < |elems| ==> Normal(elems[k].box)
    requires VisitedNodes(InsertBatch(elems), before, after, TouchedBy(bounds))
    ensures Indexes(after, WithBatch(entries, elems))
      <==> forall id, g :: Brought(entries, elems, bounds, id, g) == LastAt(BoxesFor(entries, elems, id), g)
  {
    var entries' := WithBatch(entries, elems);
    forall g, e ensures e in Node(after, g) <==> Brought(entries, elems, bounds, e.id, g) == Some(e.box) {
      BatchAt(before, after, entries, elems, bounds, g, e);
    }
    forall g, e: Elem ensures e.id in entries' && entries'[e.id] == e.box && Touches(e.box, g)
                              <==> LastAt(BoxesFor(entries, elems, e.id), g) == Some(e.box)
    {
      LastBoxStays(entries, elems, e.id);
    }
    forall id | id in entries' ensures Normal(entries'[id]) {
      BoxesNormal(entries, elems, id);
      LastBoxStays(entries, elems, id);
    }
    DistinctAfter(InsertBatch(elems), before, after, TouchedBy(bounds));
    SameElements(after, entries, elems, bounds, entries');
  }

  /** The grid is right when each node has of each id the last box, if that touches it. */
  lemma SameElements(nodes: map<Vec, seq<Elem>>, entries: map<nat, Box>, elems: seq<Elem>, bounds: Box, entries': map<nat, Box>)
    requires DistinctNodes(nodes) && forall id :: id in entries' ==> Normal(entries'[id])
    requires forall g, e :: e in Node(nodes, g) <==> Brought(entries, elems, bounds, e.id, g) == Some(e.box)
    requires forall g, e: Elem :: (e.id in entries' && entries'[e.id] == e.box && Touches(e.box, g)
                                   <==> LastAt(BoxesFor(entries, elems, e.id), g) == Some(e.box))
    ensures Indexes(nodes, entries') <==>
      forall id, g :: Brought(entries, elems, bounds, id, g) == LastAt(BoxesFor(entries, elems, id), g)
  {
    hide Touches, Brought, LastAt, BoxesFor, Normal, DistinctNodes, Node;
    if Indexes(nodes, entries') {
      forall id, g ensures Brought(entries, elems, bounds, id, g) == LastAt(BoxesFor(entries, elems, id), g) {
        if Brought(entries, elems, bounds, id, g).Some? {
          var e := Elem(id, Brought(entries, elems, bounds, id, g).value);
          assert e in Node(nodes, g);
        } else if LastAt(BoxesFor(entries, elems, id), g).Some? {
          var e := Elem(id, LastAt(BoxesFor(entries, elems, id), g).value);
          assert e in Node(nodes, g);
        }
      }
    }
  }

  /** Bounds around all boxes of the batch reach every node these touch. */
  lemma InsideSettles(entries: map<nat, Box>, elems: seq<Elem>, bounds: Box)
    requires forall id :: id in entries ==> Normal(entries[id])
    requires AllInside(elems, bounds) && forall k :: 0 <= k < |elems| ==> Normal(elems[k].box)
    ensures (forall id, g :: Brought(entries, elems, bounds, id, g) == LastAt(BoxesFor(entries, elems, id), g))
      <==> forall id :: Settles(BoxesFor(entries, elems, id))
  {
    forall id, g ensures Brought(entries, elems, bounds, id, g) == FirstAt(BoxesFor(entries, elems, id), g) {
      if !Touches(bounds, g) {
        NothingEnters(elems, bounds, g, id);
        var prior := BoxesFor(entries, [], id);
        assert BoxesFor(entries, elems, id) == prior + BoxesOf(elems, id);
        FirstAtSplit(prior, BoxesOf(elems, id), g);
      }
    }
    forall id ensures Settles(BoxesFor(entries, elems, id)) <==>
                      forall g :: FirstAt(BoxesFor(entries, elems, id), g) == LastAt(BoxesFor(entries, elems, id), g)
    {
      BoxesNormal(entries, elems, id);
      SettlesWhen(BoxesFor(entries, elems, id));
    }
    hide Settles, BoxesFor, Brought, FirstAt, LastAt;
  }

  lemma BoxesNormal(entries: map<nat, Box>, elems: seq<Elem>, id: nat)
    requires forall i :: i in entries ==> Normal(entries[i])
    requires forall k :: 0 <= k < |elems| ==> Normal(elems[k].box)
    ensures forall k :: 0 <= k < |BoxesFor(entries, elems, id)| ==> Normal(BoxesFor(entries, elems, id)[k])
  {
    BoxesOfIn(elems, id);
    hide Normal, BoxesOf;
    forall k | 0 <= k < |BoxesOf(elems, id)| ensures Normal(BoxesOf(elems, id)[k]) {
      assert Elem(id, BoxesOf(elems, id)[k]) in elems;
    }
  }

  lemma {:induction false} LastBoxStays(entries: map<nat, Box>, elems: seq<Elem>, id: nat)
    ensures var boxes := BoxesFor(entries, elems, id);
      && (id in WithBatch(entries, elems) <==> boxes != [])
      && (boxes != [] ==> WithBatch(entries, elems)[id] == boxes[|boxes| - 1])
  {
    if elems != [] {
      LastBoxStays(entries, elems[..|elems| - 1], id);
    }
  }

  /** A node has of an id the first box brought that touches it. */
  lemma BatchAt(before: map<Vec, seq<Elem>>, after: map<Vec, seq<Elem>>, entries: map<nat, Box>, elems: seq<Elem>, bounds: Box, g: Vec, e: Elem)
    requires Indexes(before, entries)
    requires forall k :: 0 <= k < |elems| ==> Normal(elems[k].box)
    requires VisitedNodes(InsertBatch(elems), before, after, TouchedBy(bounds))
    ensures e in Node(after, g) <==> Brought(entries, elems, bounds, e.id, g) == Some(e.box)
  {
    var prior := if e.id in entries then [entries[e.id]] else [];
    assert BoxesFor(entries, [], e.id) == prior;
    FirstAtSplit(prior, BoxesOf(elems, e.id), g);
    assert FirstAt(prior, g) == if e.id in entries && Touches(entries[e.id], g) then Some(entries[e.id]) else None by {
      FirstAtIs(prior, g);
    }
    EnteredFirst(elems, g, e.id);
    hide Touches, BoxIntersect, Normal, GridBox, Entered, FirstAt, BoxesOf;
    if e.id in entries && e !in Node(before, g) && Elem(e.id, entries[e.id]) in Node(before, g) {
      var i :| 0 <= i < |Node(before, g)| && Node(before, g)[i] == Elem(e.id, entries[e.id]);
      assert HasId(Node(before, g), e.id);
    }
    if HasId(Node(before, g), e.id) {
      var i :| 0 <= i < |Node(before, g)| && Node(before, g)[i].id == e.id;
      assert Node(before, g)[i] in Node(before, g);
    }
    assert g in TouchedBy(bounds) ==> Visited(InsertBatch(elems), g, Node(before, g), Node(after, g));
    assert g in TouchedBy(bounds) ==> (e in Node(after, g) <==> Leaves(InsertBatch(elems), g, Node(before, g), e));
  }

  lemma NothingEnters(elems: seq<Elem>, bounds: Box, g: Vec, id: nat)
    requires AllInside(elems, bounds) && !Touches(bounds, g)
    ensures FirstAt(BoxesOf(elems, id), g).None?
  {
    FirstAtIs(BoxesOf(elems, id), g);
    BoxesOfIn(elems, id);
    hide Inside, Touches, FirstAt, BoxesOf;
    forall k | 0 <= k < |BoxesOf(elems, id)| ensures !Touches(BoxesOf(elems, id)[k], g) {
      assert Elem(id, BoxesOf(elems, id)[k]) in elems;
      if Touches(BoxesOf(elems, id)[k], g) {
        InsideTouches(BoxesOf(elems, id)[k], bounds, g);
      }
    }
  }

  ghost function IdSet(ids: seq<nat>): set<nat> {
    set id | id in ids
  }

  /** The visit reaches every node that has one of the ids. */
  ghost predicate Reaches(b: Box, entries: map<nat, Box>, ids: seq<nat>) {
    forall id :: id in ids && id in entries ==> NodesWithin(entries[id], b)
  }

  lemma RemoveBatchIndexes(before: map<Vec, seq<Elem>>, after: map<Vec, seq<Elem>>, entries: map<nat, Box>, ids: seq<nat>, bounds: Box)
    requires Indexes(before, entries)
    requires VisitedNodes(RemoveBatch(ids), before, after, TouchedBy(bounds))
    ensures Indexes(after, entries - IdSet(ids)) <==> Reaches(bounds, entries, ids)
  {
    var entries' := entries - IdSet(ids);
    forall id | id in entries
      ensures NodesWithin(entries[id], bounds) <==> forall g :: Touches(entries[id], g) ==> Touches(bounds, g)
    {
      NodesWithinMeans(entries[id], bounds);
    }
    hide NodesWithin, Touches;
    forall g ensures g in TouchedBy(bounds) <==> Touches(bounds, g) {
    }
    if Reaches(bounds, entries, ids) {
      forall g, e ensures e in Node(after, g) <==> e.id in entries' && entries'[e.id] == e.box && Touches(e.box, g) {
        assert g in TouchedBy(bounds) ==> Visited(RemoveBatch(ids), g, Node(before, g), Node(after, g));
      }
      DistinctAfter(RemoveBatch(ids), before, after, TouchedBy(bounds));
    } else {
      var id :| id in ids && id in entries && !NodesWithin(entries[id], bounds);
      var g :| Touches(entries[id], g) && !Touches(bounds, g);
      assert Elem(id, entries[id]) in Node(before, g);
      assert Elem(id, entries[id]) in Node(after, g);
    }
  }

  lemma RemoveIndexes(before: map<Vec, seq<Elem>>, after: map<Vec, seq<Elem>>, entries: map<nat, Box>, id: nat, b: Box)
    requires Indexes(before, entries)
    requires VisitedNodes(Remove(id), before, after, TouchedBy(b))
    ensures Indexes(after, entries - {id}) <==> id !in entries || NodesWithin(entries[id], b)
  {
    hide NodesWithin, Touches;
    forall g | g in TouchedBy(b) ensures Visited(RemoveBatch([id]), g, Node(before, g), Node(after, g)) {
      assert Visited(Remove(id), g, Node(before, g), Node(after, g));
    }
    RemoveBatchIndexes(before, after, entries, [id], b);
    assert IdSet([id]) == {id};
  }

  class SpatialDatabase {
    var nodes: map<Vec, seq<Elem>>

    /** The boxes the database stands for. */
    ghost var entries: map<nat, Box>

    ghost predicate Valid()
      reads this
    {
      Indexes(nodes, entries)
    }

    constructor ()
      ensures Valid() && entries == map[]
    {
      nodes, entries := map[], map[];
    }

    /** Passes a visitor to every node a box touches, row by row. */
    method VisitGrid(b: Box, v: Visitor, createNodes: bool)
      requires DistinctNodes(nodes)
      requires !createNodes ==> v.Remove? || v.RemoveBatch?
      modifies this`nodes
      ensures VisitedNodes(v, old(nodes), nodes, TouchedBy(b))
    {
      var startX, startY := GetGridModulo(b.start.x), GetGridModulo(b.start.y);
      var endX, endY := GetGridModulo(b.end.x), GetGridModulo(b.end.y);
      hide Visited, Touches, GetGridModulo;
      ghost var before := nodes;
      var y := startY;
      NothingVisited(v, before, b);
      while y <= endY
        invariant startY <= y
        invariant VisitedNodes(v, before, nodes, SoFar(b, startX, y))
        decreases endY - y
      {
        var x := startX;
        while x <= endX
          invariant startX <= x
          invariant VisitedNodes(v, before, nodes, SoFar(b, x, y))
          decreases endX - x
        {
          var g := Vec(x, y);
          ghost var now := nodes;
          TouchesWhen(b, g);
          SoFarGrows(b, x, y);
          assert DistinctIds(Node(before, g)) && Node(now, g) == Node(before, g);
          if g in nodes || createNodes {
            var node := VisitNode(v, g, Node(nodes, g));
            nodes := nodes[g := node];
          } else {
            NothingToRemove(v, g);
          }
          VisitOne(v, before, now, nodes, b, x, y);
          x := x + 1;
        }
        RowDone(b, x, y);
        y := y + 1;
      }
      AllVisited(b, y);
    }

    /** A node does not take an id twice, so an id that is indexed has to keep its box. */
    method Insert(b: Box, elemId: nat)
      requires Valid() && Normal(b)
      modifies this
      ensures entries == old(entries)[elemId := b]
      ensures Valid() <==> elemId !in old(entries) || old(entries)[elemId] == b
    {
      ghost var before := nodes;
      VisitGrid(b, Visitor.Insert(Elem(elemId, b)), true);
      InsertIndexes(before, nodes, entries, Elem(elemId, b));
      entries := entries[elemId := b];
    }

    /** A batch may bring an id more than once, and the bounds need not reach all of it. If they
        do, the grid is right exactly when what is brought for each id settles. */
    method InsertBatch(b: Box, newElems: seq<Elem>)
      requires Valid() && forall k :: 0 <= k < |newElems| ==> Normal(newElems[k].box)
      modifies this
      ensures entries == WithBatch(old(entries), newElems)
      ensures Valid() <==> forall id, g :: Brought(old(entries), newElems, b, id, g) == LastAt(BoxesFor(old(entries), newElems, id), g)
      ensures AllInside(newElems, b) ==> (Valid() <==> forall id :: Settles(BoxesFor(old(entries), newElems, id)))
      ensures AllInside(newElems, b) && DistinctIds(newElems) ==> (Valid() <==> Agrees(newElems, old(entries)))
      ensures AllInside(newElems, b) && FreshBatch(newElems, old(entries)) ==> Valid()
    {
      ghost var before := nodes;
      VisitGrid(b, Visitor.InsertBatch(newElems), true);
      InsertBatchIndexes(before, nodes, entries, newElems, b);
      if AllInside(newElems, b) {
        InsideSettles(entries, newElems, b);
        if DistinctIds(newElems) {
          DistinctSettle(entries, newElems);
        }
      }
      hide Brought, LastAt, BoxesFor, Settles;
      entries := WithBatch(entries, newElems);
    }

    /** Only the nodes the box touches are visited. */
    method Remove(b: Box, elemId: nat)
      requires Valid()
      modifies this
      ensures entries == old(entries) - {elemId}
      ensures Valid() <==> elemId !in old(entries) || NodesWithin(old(entries)[elemId], b)
    {
      ghost var before := nodes;
      VisitGrid(b, Visitor.Remove(elemId), false);
      RemoveIndexes(before, nodes, entries, elemId, b);
      entries := entries - {elemId};
    }

    /** Removes ids from the nodes the bounds touch, which are enough if the boxes lie inside. */
    method RemoveBatch(b: Box, elemIds: seq<nat>)
      requires Valid()
      modifies this
      ensures entries == old(entries) - IdSet(elemIds)
      ensures Valid() <==> Reaches(b, old(entries), elemIds)
      ensures (forall id :: id in elemIds && id in old(entries) ==> Inside(old(entries)[id], b)) ==> Valid()
    {
      ghost var before := nodes;
      VisitGrid(b, Visitor.RemoveBatch(elemIds), false);
      RemoveBatchIndexes(before, nodes, entries, elemIds, b);
      forall id | id in elemIds && id in entries && Inside(entries[id], b) ensures NodesWithin(entries[id], b) {
        InsideNodes(entries[id], b);
      }
      entries := entries - IdSet(elemIds);
    }

    /** Finds exactly the entries whose box intersects the box asked for, each once. */
    method Query(b: Box) returns (ids: seq<nat>)
      requires Valid() && Normal(b)
      ensures forall i, j :: 0 <= i < j < |ids| ==> ids[i] != ids[j]
      ensures forall id :: id in ids <==> id in entries && BoxIntersect(b, entries[id])
    {
      ids := [];
      var startX := GetGridModulo(b.start.x);
      var endX, endY := GetGridModulo(b.end.x), GetGridModulo(b.end.y);
      var y := GetGridModulo(b.start.y);
      while y <= endY
        invariant GetGridModulo(b.start.y) <= y
        invariant QueryResult(b, ids, SoFar(b, startX, y))
        decreases endY - y
      {
        var x := startX;
        while x <= endX
          invariant startX <= x
          invariant QueryResult(b, ids, SoFar(b, x, y))
          decreases endX - x
        {
          SoFarGrows(b, x, y);
          if Vec(x, y) in nodes {
            ghost var before := ids;
            ids := QueryNode(b, Node(nodes, Vec(x, y)), ids);
            forall id | id in ids && id !in before ensures id in entries && BoxIntersect(b, entries[id]) {
              var e :| e in Node(nodes, Vec(x, y)) && e.id == id && BoxIntersect(b, e.box);
            }
          }
          x := x + 1;
        }
        RowDone(b, x, y);
        y := y + 1;
      }
      forall id | id in entries && BoxIntersect(b, entries[id]) ensures id in ids {
        var g := IntersectingTouchSameNode(b, entries[id]);
        assert Elem(id, entries[id]) in Node(nodes, g);
        assert g in SoFar(b, startX, y);
      }
    }

    /** The ids found are those of the intersecting elements of the nodes in region. */
    ghost predicate QueryResult(b: Box, ids: seq<nat>, region: iset<Vec>)
      reads this
    {
      && (forall i, j :: 0 <= i < j < |ids| ==> ids[i] != ids[j])
      && (forall id :: id in ids ==> id in entries && BoxIntersect(b, entries[id]))
      && forall g, e :: g in region && e in Node(nodes, g) && BoxIntersect(b, e.box) ==> e.id in ids
    }
  }

  method QueryNode(b: Box, node: seq<Elem>, ids: seq<nat>) returns (r: seq<nat>)
    requires forall i, j :: 0 <= i < j < |ids| ==> ids[i] != ids[j]
    ensures forall i, j :: 0 <= i < j < |r| ==> r[i] != r[j]
    ensures forall id :: id in ids ==> id in r
    ensures forall e :: e in node && BoxIntersect(b, e.box) ==> e.id in r
    ensures forall id :: id in r ==> id in ids || FoundIn(b, node, id)
  {
    r := ids;
    for k := 0 to |node|
      invariant forall i, j :: 0 <= i < j < |r| ==> r[i] != r[j]
      invariant forall id :: id in ids ==> id in r
      invariant forall i :: 0 <= i < k && BoxIntersect(b, node[i].box) ==> node[i].id in r
      invariant forall id :: id in r ==> id in ids || FoundIn(b, node, id)
    {
      if BoxIntersect(b, node[k].box) && node[k].id !in r {
        r := r + [node[k].id];
      }
    }
  }

  predicate FoundIn(b: Box, node: seq<Elem>, id: nat) {
    exists e :: e in node && e.id == id && BoxIntersect(b, e.box)
  }
}
