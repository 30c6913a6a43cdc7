/** Paths of nodes in a tree of user-interface elements: the node list prints them
    (Editor/UIEditorNodeList.cpp), the editor finds nodes by them (Editor/UIEditor.cpp). */
module UIPaths {
  import opened Decimals
  import opened Options

  /** The children are a sparse list: an index may be a hole. */
  datatype UIDef = UIDef(element: string, children: seq<Slot>)

  datatype Slot = Hole | Child(name: string, ui: UIDef)

  /** A node by the indices that lead to it. */
  type Address = seq<nat>

  predicate HasChild(ui: UIDef, i: int) {
    0 <= i < |ui.children| && ui.children[i].Child?
  }

  function NodeAt(ui: UIDef, address: Address): Option<UIDef>
    decreases |address|
  {
    if address == [] then Some(ui)
    else if HasChild(ui, address[0]) then NodeAt(ui.children[address[0]].ui, address[1..])
    else None
  }

  /** What is printed for a node. */
  function PathOf(address: Address): string {
    if address == [] then "" else "." + ToString(address[0]) + PathOf(address[1..])
  }

  lemma PathOfFirst(a: Address, b: Address)
    requires a != []
    ensures PathOf(a + b) == "." + ToString(a[0]) + PathOf(a[1..] + b)
  {
    hide ToString;
    assert (a + b)[1..] == a[1..] + b;
  }

  lemma Regroup(a: string, b: string, c: string)
    ensures a + (b + c) == (a + b) + c
  {
  }

  lemma {:induction false} PathOfAppend(a: Address, b: Address)
    ensures PathOf(a + b) == PathOf(a) + PathOf(b)
  {
    if a == [] {
      assert a + b == b;
    } else {
      PathOfAppend(a[1..], b);
      PathOfFirst(a, b);
      Regroup("." + ToString(a[0]), PathOf(a[1..]), PathOf(b));
    }
  }

  // Finding

  /** Up to the next point or the end. */
  function Segment(s: string): (seg: string)
    ensures seg <= s && forall i :: 0 <= i < |seg| ==> seg[i] != '.'
    ensures |seg| < |s| ==> s[|seg|] == '.'
  {
    if s == "" || s[0] == '.' then "" else [s[0]] + Segment(s[1..])
  }

  lemma {:induction false} SegmentIs(digits: string, rest: string)
    requires forall i :: 0 <= i < |digits| ==> digits[i] != '.'
    requires rest == "" || rest[0] == '.'
    ensures Segment(digits + rest) == digits
  {
    if digits == "" {
      assert digits + rest == rest;
    } else {
      SegmentIs(digits[1..], rest);
      assert (digits + rest)[1..] == digits[1..] + rest;
    }
  }

  /** The address of the node a text leads to, for any text. */
  function Locate(ui: UIDef, path: string): (found: Option<Address>)
    ensures found.Some? ==> NodeAt(ui, found.value).Some?
    decreases |path|
  {
    if path == "" then Some([])
    else if path[0] != '.' then None
    else
      var seg := Segment(path[1..]);
      var i := Value(seg);
      if !HasChild(ui, i) then None
      else
        match Locate(ui.children[i].ui, path[1 + |seg|..])
        case None => None
        case Some(a) => assert ([i as nat] + a)[1..] == a; Some([i as nat] + a)
  }

  /** The text is a point and an index for each step of the address; the characters of an index
      count as digits, whatever they are. */
  ghost predicate Reads(text: string, address: Address)
    decreases |address|
  {
    if address == [] then text == ""
    else exists seg, rest :: Parts(text, seg, rest) && Value(seg) == address[0] && Reads(rest, address[1..])
  }

  /** A point, what comes up to the next point, and the rest. */
  ghost predicate Parts(text: string, seg: string, rest: string) {
    text == "." + seg + rest && (forall i :: 0 <= i < |seg| ==> seg[i] != '.') && (rest == "" || rest[0] == '.')
  }

  /** Any text leads to a node exactly when it reads as the address of one. */
  lemma {:induction false} LocateExactly(ui: UIDef, text: string, address: Address)
    ensures Locate(ui, text) == Some(address) <==> NodeAt(ui, address).Some? && Reads(text, address)
    decreases |text|
  {
    hide Value, Segment, Reads;
    if text == "" || text[0] != '.' || address == [] {
      ReadsEnds(text, address);
    } else {
      var seg := Segment(text[1..]);
      var rest := text[1 + |seg|..];
      ReadsOnce(text, seg, rest, address);
      LocateDownOnce(ui, text, seg, rest, address);
      if HasChild(ui, address[0]) {
        LocateExactly(ui.children[address[0]].ui, rest, address[1..]);
      }
      hide Locate;
    }
  }

  lemma ReadsEnds(text: string, address: Address)
    requires text == "" || text[0] != '.' || address == []
    ensures Reads(text, address) <==> text == "" && address == []
  {
  }

  lemma ReadsOnce(text: string, seg: string, rest: string, address: Address)
    requires text != "" && text[0] == '.' && seg == Segment(text[1..]) && rest == text[1 + |seg|..] && address != []
    ensures Reads(text, address) <==> Value(seg) == address[0] && Reads(rest, address[1..])
  {
    assert Parts(text, seg, rest);
    forall s, r | Parts(text, s, r) ensures s == seg && r == rest {
      SplitFirst(text, s, r);
    }
    hide Parts, Segment, Value;
  }

  lemma LocateDownOnce(ui: UIDef, text: string, seg: string, rest: string, address: Address)
    requires text != "" && text[0] == '.' && seg == Segment(text[1..]) && rest == text[1 + |seg|..] && address != []
    ensures Locate(ui, text) == Some(address) <==>
      Value(seg) == address[0] && HasChild(ui, address[0]) && Locate(ui.children[address[0]].ui, rest) == Some(address[1..])
  {
    hide Value, Segment;
    if HasChild(ui, Value(seg)) && Locate(ui.children[Value(seg)].ui, rest).Some? {
      var a := Locate(ui.children[Value(seg)].ui, rest).value;
      assert ([Value(seg) as nat] + a)[1..] == a;
      assert address == [address[0]] + address[1..];
    }
  }

  lemma SplitFirst(path: string, digits: string, rest: string)
    requires path == "." + digits + rest && (rest == "" || rest[0] == '.')
    requires forall i :: 0 <= i < |digits| ==> digits[i] != '.'
    ensures path != "" && path[0] == '.' && Segment(path[1..]) == digits && path[1 + |digits|..] == rest
  {
    assert path[1..] == digits + rest;
    SegmentIs(digits, rest);
  }

  /** What the first index of a path is and what comes after it. */
  lemma FirstSegment(address: Address)
    requires address != []
    ensures PathOf(address) != "" && PathOf(address)[0] == '.'
    ensures Value(Segment(PathOf(address)[1..])) == address[0]
    ensures PathOf(address)[1 + |Segment(PathOf(address)[1..])|..] == PathOf(address[1..])
  {
    var digits, rest := ToString(address[0]), PathOf(address[1..]);
    assert PathOf(address) == "." + digits + rest;
    assert rest == "" || rest[0] == '.';
    ValueOfToString(address[0]);
    hide ToString, PathOf, Segment, Value;
    SplitFirst(PathOf(address), digits, rest);
  }

  /** The printed path of an address leads to it exactly when there is a node. */
  lemma {:induction false} LocatePrinted(ui: UIDef, address: Address)
    ensures Locate(ui, PathOf(address)) == if NodeAt(ui, address).Some? then Some(address) else None
    decreases |address|
  {
    if address != [] {
      var i := address[0];
      FirstSegment(address);
      hide PathOf, Segment, Value;
      if HasChild(ui, i) {
        LocatePrinted(ui.children[i].ui, address[1..]);
        assert [i] + address[1..] == address;
      }
    }
  }

  /** Different nodes have different paths. */
  lemma {:induction false} PathsDiffer(a: Address, b: Address)
    requires PathOf(a) == PathOf(b)
    ensures a == b
    decreases |a|
  {
    if a != [] {
      FirstSegment(a);
      assert b != [];
      FirstSegment(b);
      hide PathOf, Segment, Value;
      PathsDiffer(a[1..], b[1..]);
      assert a == [a[0]] + a[1..] && b == [b[0]] + b[1..];
    } else {
      assert PathOf(a) == "";
    }
  }

  function Extended(a: Address, found: Option<Address>): Option<Address> {
    if found.Some? then Some(a + found.value) else None
  }

  lemma SegmentEnd(path: string, start: nat) returns (end: nat)
    requires start <= |path|
    ensures start <= end <= |path| && Segment(path[start..]) == path[start..end]
    ensures (forall k :: start <= k < end ==> path[k] != '.') && (end < |path| ==> path[end] == '.')
  {
    var seg := Segment(path[start..]);
    end := start + |seg|;
    assert seg == path[start..end];
    forall k | start <= k < end ensures path[k] != '.' {
      assert seg[k - start] == path[k];
    }
  }

  lemma ValueEmpty(path: string, start: nat)
    requires start <= |path|
    ensures Value(path[start..start]) == 0
  {
  }

  lemma ValueNext(path: string, start: nat, pos: nat)
    requires start <= pos < |path|
    ensures Value(path[start..pos + 1]) == 10 * Value(path[start..pos]) + (path[pos] as int - '0' as int)
  {
    assert path[start..pos + 1][..pos - start] == path[start..pos];
  }

  /** The digits of one index, up to the next point. */
  method ReadIndex(path: string, start: nat) returns (index: int, pos: nat)
    requires start <= |path|
    ensures index == Value(Segment(path[start..])) && pos == start + |Segment(path[start..])| <= |path|
  {
    ghost var end := SegmentEnd(path, start);
    hide Segment, Value;
    ValueEmpty(path, start);
    index, pos := 0, start;
    while pos < |path| && path[pos] != '.'
      invariant start <= pos <= end && index == Value(path[start..pos])
    {
      ValueNext(path, start, pos);
      index := 10 * index + (path[pos] as int - '0' as int);
      pos := pos + 1;
    }
  }

  lemma LocateOne(elem: UIDef, rest: string)
    requires rest != "" && rest[0] == '.'
    ensures var seg := Segment(rest[1..]);
      Locate(elem, rest) == if HasChild(elem, Value(seg))
        then Extended([Value(seg) as nat], Locate(elem.children[Value(seg)].ui, rest[1 + |seg|..]))
        else None
  {
    hide Segment, Value, NodeAt;
  }

  lemma ExtendedTwice(a: Address, b: Address, found: Option<Address>)
    ensures Extended(a, Extended(b, found)) == Extended(a + b, found)
  {
    if found.Some? {
      assert a + (b + found.value) == (a + b) + found.value;
    }
  }

  /** One more level of what a text leads to. */
  lemma LocateDown(root: UIDef, path: string, at: Address, elem: UIDef, rest: string, seg: string, i: int)
    requires Locate(root, path) == Extended(at, Locate(elem, rest)) && rest != "" && rest[0] == '.'
    requires seg == Segment(rest[1..]) && i == Value(seg)
    ensures HasChild(elem, i) ==>
      Locate(root, path) == Extended(at + [i as nat], Locate(elem.children[i].ui, rest[1 + |seg|..]))
    ensures !HasChild(elem, i) ==> Locate(root, path) == None
  {
    LocateOne(elem, rest);
    assert Extended(at, None) == None;
    hide Segment, Value, NodeAt, Locate, Extended;
    if HasChild(elem, i) {
      ExtendedTwice(at, [i as nat], Locate(elem.children[i].ui, rest[1 + |seg|..]));
    }
  }

  lemma LocateEnds(elem: UIDef, rest: string)
    ensures rest == "" ==> Locate(elem, rest) == Some([])
    ensures rest != "" && rest[0] != '.' ==> Locate(elem, rest) == None
  {
  }

  /** Characters are taken one by one; each index goes down one level. */
  method GetUIForPath(root: UIDef, path: string) returns (found: Option<Address>)
    ensures found == Locate(root, path)
  {
    var elem, pos := root, 0;
    var at: Address := [];
    hide Locate, Segment, Value;
    assert path[0..] == path;
    assert Locate(root, path).Some? ==> [] + Locate(root, path).value == Locate(root, path).value;
    while true
      invariant pos <= |path| && Locate(root, path) == Extended(at, Locate(elem, path[pos..]))
      decreases |path| - pos
    {
      if pos == |path| {
        LocateEnds(elem, path[pos..]);
        assert at + [] == at;
        return Some(at);
      }
      if path[pos] != '.' {
        LocateEnds(elem, path[pos..]);
        return None;
      }
      assert path[pos..][1..] == path[pos + 1..];
      var index, next := ReadIndex(path, pos + 1);
      LocateDown(root, path, at, elem, path[pos..], Segment(path[pos + 1..]), index);
      assert path[pos..][next - pos..] == path[next..];
      if !HasChild(elem, index) {
        return None;
      }
      elem, at, pos := elem.children[index].ui, at + [index], next;
    }
  }

  // Listing

  /** A row of the node list; the address stands for the node itself. */
  datatype Visit = Visit(address: Address, path: string, name: string, x: int, y: int)

  function Walk(ui: UIDef, at: Address, name: string, x: int, y: int): seq<Visit>
    decreases ui, |ui.children| + 1
  {
    [Visit(at, PathOf(at), name, x, y)] + WalkFrom(ui, 0, at, x + 10, y + 13)
  }

  function WalkFrom(ui: UIDef, i: nat, at: Address, x: int, y: int): seq<Visit>
    requires i <= |ui.children|
    decreases ui, |ui.children| - i
  {
    if i == |ui.children| then []
    else match ui.children[i]
      case Hole => WalkFrom(ui, i + 1, at, x, y)
      case Child(name, child) =>
        var w := Walk(child, at + [i], name, x, y);
        w + WalkFrom(ui, i + 1, at, x, y + 13 * |w|)
  }

  /** The rows a visitor is shown: up to the first it does not want to go on after. */
  function Until(visitor: Visit -> bool, rows: seq<Visit>): seq<Visit> {
    if rows == [] then [] else if visitor(rows[0]) then [rows[0]] + Until(visitor, rows[1..]) else [rows[0]]
  }

  /** They are the first rows, the visitor wanted all of them but perhaps the last, and there is
      more only if it did not want that. */
  lemma {:induction false} UntilIs(visitor: Visit -> bool, rows: seq<Visit>)
    ensures var shown := Until(visitor, rows);
      && shown <= rows && (forall i :: 0 <= i < |shown| - 1 ==> visitor(shown[i]))
      && (|shown| < |rows| ==> shown != [] && !visitor(shown[|shown| - 1]))
  {
    if rows != [] && visitor(rows[0]) {
      UntilIs(visitor, rows[1..]);
      assert rows == [rows[0]] + rows[1..];
    }
  }

  ghost predicate AllWanted(visitor: Visit -> bool, rows: seq<Visit>) {
    forall i :: 0 <= i < |rows| ==> visitor(rows[i])
  }

  lemma AllWantedConcat(visitor: Visit -> bool, a: seq<Visit>, b: seq<Visit>)
    ensures AllWanted(visitor, a + b) <==> AllWanted(visitor, a) && AllWanted(visitor, b)
  {
    if AllWanted(visitor, a + b) {
      assert forall i :: 0 <= i < |a| ==> (a + b)[i] == a[i];
      assert forall i :: 0 <= i < |b| ==> (a + b)[|a| + i] == b[i];
    }
  }

  lemma {:induction false} UntilConcat(visitor: Visit -> bool, a: seq<Visit>, b: seq<Visit>)
    ensures Until(visitor, a + b) == if AllWanted(visitor, a) then a + Until(visitor, b) else Until(visitor, a)
    ensures AllWanted(visitor, a) ==> Until(visitor, a) == a
    ensures AllWanted(visitor, a + b) <==> AllWanted(visitor, a) && AllWanted(visitor, b)
  {
    AllWantedConcat(visitor, a, b);
    if a == [] {
      assert a + b == b;
    } else {
      assert (a + b)[1..] == a[1..] + b;
      UntilConcat(visitor, a[1..], b);
      assert a == [a[0]] + a[1..];
      AllWantedConcat(visitor, [a[0]], a[1..]);
      assert AllWanted(visitor, [a[0]]) <==> visitor(a[0]) by {
        assert [a[0]][0] == a[0];
      }
      hide AllWanted;
      assert [a[0]] + (a[1..] + Until(visitor, b)) == a + Until(visitor, b);
    }
  }

  /** What a child's rows add to what was shown, all of it wanted. */
  lemma ChildShown(visitor: Visit -> bool, shown: seq<Visit>, w: seq<Visit>, after: seq<Visit>)
    requires AllWanted(visitor, shown)
    ensures shown + (w + after) == (shown + w) + after
    ensures AllWanted(visitor, w) ==> AllWanted(visitor, shown + w) && Until(visitor, w) == w
    ensures !AllWanted(visitor, w) ==> !AllWanted(visitor, shown + (w + after))
    ensures !AllWanted(visitor, w) ==> Until(visitor, shown + (w + after)) == shown + Until(visitor, w)
  {
    UntilConcat(visitor, shown, w + after);
    UntilConcat(visitor, w, after);
    UntilConcat(visitor, shown, w);
    hide Until, AllWanted;
  }

  lemma WalkFromStep(ui: UIDef, i: nat, at: Address, x: int, y: int)
    requires i < |ui.children|
    ensures WalkFrom(ui, i, at, x, y) ==
      if ui.children[i].Hole? then WalkFrom(ui, i + 1, at, x, y)
      else var w := Walk(ui.children[i].ui, at + [i], ui.children[i].name, x, y);
        w + WalkFrom(ui, i + 1, at, x, y + 13 * |w|)
  {
  }

  lemma RowsBegin(ui: UIDef, at: Address, visitor: Visit -> bool, name: string, x: int, y: int)
    ensures var row, below := Visit(at, PathOf(at), name, x, y), WalkFrom(ui, 0, at, x + 10, y + 13);
      && Walk(ui, at, name, x, y) == [row] + below
      && (visitor(row) ==> AllWanted(visitor, [row]))
      && (!visitor(row) ==> Until(visitor, [row] + below) == [row] && !AllWanted(visitor, [row] + below))
  {
    var row, below := Visit(at, PathOf(at), name, x, y), WalkFrom(ui, 0, at, x + 10, y + 13);
    assert ([row] + below)[0] == row;
  }

  lemma AllShown(visitor: Visit -> bool, shown: seq<Visit>)
    requires AllWanted(visitor, shown)
    ensures Until(visitor, shown) == shown
  {
    UntilConcat(visitor, shown, []);
  }

  /** Goes down the tree, one row for each node, a level further in and a row further down; stops
      as soon as the visitor has had enough. */
  method TraverseElement(ui: UIDef, at: Address, visitor: Visit -> bool, path: string, name: string, x: int, y: int)
    returns (goOn: bool, x': int, y': int, visited: seq<Visit>)
    requires path == PathOf(at)
    ensures visited == Until(visitor, Walk(ui, at, name, x, y)) && (goOn <==> AllWanted(visitor, Walk(ui, at, name, x, y)))
    ensures goOn ==> x' == x && y' == y + 13 * |visited|
    decreases ui
  {
    RowsBegin(ui, at, visitor, name, x, y);
    hide Until, AllWanted, Walk, WalkFrom, PathOf, ToString;
    ghost var all := Walk(ui, at, name, x, y);
    visited, x', y' := [Visit(at, path, name, x, y)], x, y;
    if !visitor(visited[0]) {
      return false, x', y', visited;
    }
    x', y' := x' + 10, y' + 13;
    var i := 0;
    while i < |ui.children|
      invariant i <= |ui.children| && x' == x + 10 && y' == y + 13 * |visited|
      invariant AllWanted(visitor, visited) && all == visited + WalkFrom(ui, i, at, x', y')
    {
      WalkFromStep(ui, i, at, x', y');
      if ui.children[i].Child? {
        ghost var w := Walk(ui.children[i].ui, at + [i], ui.children[i].name, x', y');
        ChildShown(visitor, visited, w, WalkFrom(ui, i + 1, at, x', y' + 13 * |w|));
        ChildPath(at, i);
        var more;
        goOn, x', y', more := TraverseElement(ui.children[i].ui, at + [i], visitor, path + "." + ToString(i), ui.children[i].name, x', y');
        visited := visited + more;
        if !goOn {
          return false, x', y', visited;
        }
      }
      i := i + 1;
    }
    WalkFromEnds(ui, at, x', y');
    assert visited + [] == visited;
    AllShown(visitor, visited);
    return true, x' - 10, y', visited;
  }

  lemma WalkFromEnds(ui: UIDef, at: Address, x: int, y: int)
    ensures WalkFrom(ui, |ui.children|, at, x, y) == []
  {
  }

  lemma ChildPath(at: Address, i: nat)
    ensures PathOf(at + [i]) == PathOf(at) + "." + ToString(i)
  {
    PathOfAppend(at, [i]);
    hide ToString;
    assert [i][1..] == [];
    assert PathOf([i]) == "." + ToString(i);
  }

  // What is listed

  /** The name of the slot a node is in; the node to start from has the one given. */
  function NameOf(ui: UIDef, name: string, address: Address): string
    decreases |address|
  {
    if address == [] then name
    else if HasChild(ui, address[0]) then NameOf(ui.children[address[0]].ui, ui.children[address[0]].name, address[1..])
    else ""
  }

  /** A row is of a node, shows its path and its name, and is as far in and as far down as it
      should be. */
  ghost predicate RowOf(v: Visit, ui: UIDef, at: Address, name: string, x: int, y: int) {
    && at <= v.address && NodeAt(ui, v.address[|at|..]).Some? && v.path == PathOf(v.address)
    && v.name == NameOf(ui, name, v.address[|at|..])
    && v.x == x + 10 * (|v.address| - |at|) && v.y == y
  }

  lemma {:induction false} WalkRows(ui: UIDef, at: Address, name: string, x: int, y: int, k: nat)
    requires k < |Walk(ui, at, name, x, y)|
    ensures RowOf(Walk(ui, at, name, x, y)[k], ui, at, name, x, y + 13 * k)
    decreases ui, |ui.children| + 1
  {
    if k == 0 {
      assert at[|at|..] == [];
    } else {
      WalkFromRows(ui, 0, at, name, x + 10, y + 13, k - 1);
    }
  }

  lemma {:induction false} WalkFromRows(ui: UIDef, i: nat, at: Address, name: string, x: int, y: int, k: nat)
    requires i <= |ui.children| && k < |WalkFrom(ui, i, at, x, y)|
    ensures var v := WalkFrom(ui, i, at, x, y)[k];
      RowOf(v, ui, at, name, x - 10, y + 13 * k) && |v.address| > |at| && v.address[|at|] >= i
    decreases ui, |ui.children| - i
  {
    WalkFromStep(ui, i, at, x, y);
    WalkFromEnds(ui, at, x, y);
    hide Walk, WalkFrom, RowOf, PathOf, NodeAt;
    if ui.children[i].Hole? {
      WalkFromRows(ui, i + 1, at, name, x, y, k);
    } else {
      var child := ui.children[i].ui;
      var w := Walk(child, at + [i], ui.children[i].name, x, y);
      if k < |w| {
        WalkRows(child, at + [i], ui.children[i].name, x, y, k);
        RowOfChild(w[k], ui, i, at, name, x, y + 13 * k);
      } else {
        WalkFromRows(ui, i + 1, at, name, x, y + 13 * |w|, k - |w|);
      }
    }
  }

  lemma RowOfChild(v: Visit, ui: UIDef, i: nat, at: Address, name: string, x: int, y: int)
    requires HasChild(ui, i) && RowOf(v, ui.children[i].ui, at + [i], ui.children[i].name, x, y)
    ensures RowOf(v, ui, at, name, x - 10, y) && |v.address| > |at| && v.address[|at|] == i
  {
    assert v.address[..|at| + 1] == at + [i];
    assert v.address[|at|..][1..] == v.address[|at + [i]|..];
    assert v.address[|at|] == i;
  }

  /** A node comes before those under it, and what is under a child before later children. */
  ghost predicate Comes(a: Address, b: Address) {
    a < b || exists n: nat :: n < |a| && n < |b| && a[..n] == b[..n] && a[n] < b[n]
  }

  ghost predicate Listed(rows: seq<Visit>, address: Address) {
    exists k :: 0 <= k < |rows| && rows[k].address == address
  }

  lemma ListedConcat(a: seq<Visit>, b: seq<Visit>, address: Address)
    ensures Listed(a + b, address) <==> Listed(a, address) || Listed(b, address)
  {
    if k :| 0 <= k < |a| && a[k].address == address {
      assert (a + b)[k] == a[k];
    }
    if k :| 0 <= k < |b| && b[k].address == address {
      assert (a + b)[|a| + k] == b[k];
    }
  }

  lemma {:induction false} EveryNodeWalked(ui: UIDef, at: Address, name: string, x: int, y: int, address: Address)
    requires NodeAt(ui, address).Some?
    ensures Listed(Walk(ui, at, name, x, y), at + address)
    decreases ui, |ui.children| + 1
  {
    var row, below := Visit(at, PathOf(at), name, x, y), WalkFrom(ui, 0, at, x + 10, y + 13);
    ListedConcat([row], below, at + address);
    if address == [] {
      assert at + address == at && [row][0].address == at;
    } else {
      EveryNodeWalkedFrom(ui, 0, at, x + 10, y + 13, address);
    }
  }

  lemma AddressBelow(at: Address, address: Address)
    requires address != []
    ensures at + [address[0]] + address[1..] == at + address
  {
  }

  /** What is listed from child i on is listed for that child or from the next on. */
  lemma ListedFrom(ui: UIDef, i: nat, at: Address, x: int, y: int, address: Address)
    requires i < |ui.children|
    ensures ui.children[i].Hole? ==> WalkFrom(ui, i, at, x, y) == WalkFrom(ui, i + 1, at, x, y)
    ensures ui.children[i].Child? ==>
      var w := Walk(ui.children[i].ui, at + [i], ui.children[i].name, x, y);
      Listed(WalkFrom(ui, i, at, x, y), address) <==> Listed(w, address) || Listed(WalkFrom(ui, i + 1, at, x, y + 13 * |w|), address)
  {
    WalkFromStep(ui, i, at, x, y);
    hide Walk, WalkFrom, PathOf, Listed;
    if ui.children[i].Child? {
      var w := Walk(ui.children[i].ui, at + [i], ui.children[i].name, x, y);
      ListedConcat(w, WalkFrom(ui, i + 1, at, x, y + 13 * |w|), address);
    }
  }

  lemma {:induction false} EveryNodeWalkedFrom(ui: UIDef, i: nat, at: Address, x: int, y: int, address: Address)
    requires i <= |ui.children| && address != [] && address[0] >= i && NodeAt(ui, address).Some?
    ensures Listed(WalkFrom(ui, i, at, x, y), at + address)
    decreases ui, |ui.children| - i
  {
    assert HasChild(ui, address[0]) && NodeAt(ui.children[address[0]].ui, address[1..]).Some?;
    ListedFrom(ui, i, at, x, y, at + address);
    hide Walk, WalkFrom, PathOf, NodeAt, Listed;
    if ui.children[i].Hole? {
      EveryNodeWalkedFrom(ui, i + 1, at, x, y, address);
    } else if address[0] == i {
      EveryNodeWalked(ui.children[i].ui, at + [i], ui.children[i].name, x, y, address[1..]);
      AddressBelow(at, address);
    } else {
      var w := Walk(ui.children[i].ui, at + [i], ui.children[i].name, x, y);
      EveryNodeWalkedFrom(ui, i + 1, at, x, y + 13 * |w|, address);
    }
  }

  lemma {:induction false} WalkedInOrder(ui: UIDef, at: Address, name: string, x: int, y: int, j: nat, k: nat)
    requires j < k < |Walk(ui, at, name, x, y)|
    ensures Comes(Walk(ui, at, name, x, y)[j].address, Walk(ui, at, name, x, y)[k].address)
    decreases ui, |ui.children| + 1
  {
    WalkFromRows(ui, 0, at, name, x + 10, y + 13, k - 1);
    if j > 0 {
      WalkedFromInOrder(ui, 0, at, x + 10, y + 13, j - 1, k - 1);
    }
  }

  lemma DifferentChildren(ui: UIDef, i: nat, at: Address, x: int, y: int, j: nat, k: nat)
    requires HasChild(ui, i) && j < |Walk(ui.children[i].ui, at + [i], ui.children[i].name, x, y)|
    requires var w := Walk(ui.children[i].ui, at + [i], ui.children[i].name, x, y); k < |WalkFrom(ui, i + 1, at, x, y + 13 * |w|)|
    ensures var w := Walk(ui.children[i].ui, at + [i], ui.children[i].name, x, y);
      Comes(w[j].address, WalkFrom(ui, i + 1, at, x, y + 13 * |w|)[k].address)
  {
    var w := Walk(ui.children[i].ui, at + [i], ui.children[i].name, x, y);
    hide PathOf, NodeAt, NameOf, Walk, WalkFrom;
    WalkRows(ui.children[i].ui, at + [i], ui.children[i].name, x, y, j);
    RowOfChild(w[j], ui, i, at, "", x, y + 13 * j);
    WalkFromRows(ui, i + 1, at, "", x, y + 13 * |w|, k);
    var a, b := w[j].address, WalkFrom(ui, i + 1, at, x, y + 13 * |w|)[k].address;
    assert a[..|at|] == at == b[..|at|] && a[|at|] < b[|at|];
  }

  lemma {:induction false} WalkedFromInOrder(ui: UIDef, i: nat, at: Address, x: int, y: int, j: nat, k: nat)
    requires i <= |ui.children| && j < k < |WalkFrom(ui, i, at, x, y)|
    ensures Comes(WalkFrom(ui, i, at, x, y)[j].address, WalkFrom(ui, i, at, x, y)[k].address)
    decreases ui, |ui.children| - i
  {
    WalkFromStep(ui, i, at, x, y);
    WalkFromEnds(ui, at, x, y);
    hide Walk, WalkFrom, PathOf, NodeAt, RowOf, Comes;
    if ui.children[i].Hole? {
      WalkedFromInOrder(ui, i + 1, at, x, y, j, k);
    } else {
      var child := ui.children[i].ui;
      var w := Walk(child, at + [i], ui.children[i].name, x, y);
      if k < |w| {
        WalkedInOrder(child, at + [i], ui.children[i].name, x, y, j, k);
      } else if j < |w| {
        DifferentChildren(ui, i, at, x, y, j, k - |w|);
      } else {
        WalkedFromInOrder(ui, i + 1, at, x, y + 13 * |w|, j - |w|, k - |w|);
      }
    }
  }

  lemma {:induction false} NameOfSlot(ui: UIDef, name: string, address: Address)
    requires address != [] && NodeAt(ui, address).Some?
    ensures var n := |address| - 1;
      && NodeAt(ui, address[..n]).Some? && HasChild(NodeAt(ui, address[..n]).value, address[n])
      && NodeAt(ui, address[..n]).value.children[address[n]] == Child(NameOf(ui, name, address), NodeAt(ui, address).value)
    decreases |address|
  {
    if |address| > 1 {
      var child := ui.children[address[0]];
      assert address[..|address| - 1][1..] == address[1..][..|address| - 2];
      NameOfSlot(child.ui, child.name, address[1..]);
    }
  }

  /** The node list: the path of a row leads back to its node, its name is that of the slot the
      node is in, and it is as far in as the node is deep. */
  lemma ListedPathsLeadBack(root: UIDef, k: nat)
    requires k < |Walk(root, [], "Root", 3, 0)|
    ensures var v := Walk(root, [], "Root", 3, 0)[k];
      && Locate(root, v.path) == Some(v.address) && NodeAt(root, v.address).Some?
      && v.y == 13 * k && v.x == 3 + 10 * |v.address|
      && if v.address == [] then v.name == "Root"
         else
           var n := |v.address| - 1;
           && NodeAt(root, v.address[..n]).Some? && HasChild(NodeAt(root, v.address[..n]).value, v.address[n])
           && NodeAt(root, v.address[..n]).value.children[v.address[n]].name == v.name
  {
    WalkRows(root, [], "Root", 3, 0, k);
    var v := Walk(root, [], "Root", 3, 0)[k];
    assert v.address[0..] == v.address;
    LocatePrinted(root, v.address);
    hide PathOf, Walk, Locate;
    if v.address != [] {
      NameOfSlot(root, "Root", v.address);
    }
  }

  /** Exactly the nodes are listed, each before what is under it and what comes after it, and no
      path twice. */
  lemma NodesListedOnce(root: UIDef, address: Address)
    ensures NodeAt(root, address).Some? <==> Listed(Walk(root, [], "Root", 3, 0), address)
    ensures forall j, k :: 0 <= j < k < |Walk(root, [], "Root", 3, 0)| ==>
      Comes(Walk(root, [], "Root", 3, 0)[j].address, Walk(root, [], "Root", 3, 0)[k].address)
    ensures forall j, k :: 0 <= j < k < |Walk(root, [], "Root", 3, 0)| ==>
      Walk(root, [], "Root", 3, 0)[j].path != Walk(root, [], "Root", 3, 0)[k].path
  {
    var rows := Walk(root, [], "Root", 3, 0);
    if NodeAt(root, address).Some? {
      EveryNodeWalked(root, [], "Root", 3, 0, address);
      assert [] + address == address;
    }
    if k :| 0 <= k < |rows| && rows[k].address == address {
      ListedPathsLeadBack(root, k);
    }
    forall j, k | 0 <= j < k < |rows| ensures Comes(rows[j].address, rows[k].address) && rows[j].path != rows[k].path {
      WalkedInOrder(root, [], "Root", 3, 0, j, k);
      ListedPathsLeadBack(root, j);
      ListedPathsLeadBack(root, k);
    }
  }

  // Deleting

  function Removed(ui: UIDef, address: Address): UIDef
    requires address != []
    decreases |address|
  {
    var i := address[0];
    if !HasChild(ui, i) then ui
    else if |address| == 1 then ui.(children := ui.children[i := Hole])
    else ui.(children := ui.children[i := Child(ui.children[i].name, Removed(ui.children[i].ui, address[1..]))])
  }

  /** There is no such node, so nothing goes. */
  lemma {:induction false} NothingToRemove(ui: UIDef, address: Address)
    requires address != [] && NodeAt(ui, address).None?
    ensures Removed(ui, address) == ui
    decreases |address|
  {
    var i := address[0];
    if HasChild(ui, i) && |address| > 1 {
      NothingToRemove(ui.children[i].ui, address[1..]);
      assert ui.children[i := ui.children[i]] == ui.children;
    }
  }

  lemma {:induction false} NothingBelow(ui: UIDef, address: Address)
    requires address != [] && NodeAt(ui, address[..|address| - 1]).None?
    ensures NodeAt(ui, address).None?
    decreases |address|
  {
    if HasChild(ui, address[0]) {
      assert address[..|address| - 1][1..] == address[1..][..|address| - 2];
      NothingBelow(ui.children[address[0]].ui, address[1..]);
    }
  }

  /** A node has its element, its slots and their names as before; only slot i may hold something
      else, and it is empty if it is the one that was emptied. */
  ghost predicate OnlySlot(before: UIDef, after: UIDef, i: nat, emptied: bool) {
    && after.element == before.element && |after.children| == |before.children|
    && (forall k :: 0 <= k < |before.children| && k != i ==> after.children[k] == before.children[k])
    && HasChild(before, i)
    && if emptied then after.children[i] == Hole else HasChild(after, i) && after.children[i].name == before.children[i].name
  }

  /** Exactly the subtree goes: no node is left at or under it, the slot of its parent is empty,
      and everything else is as before, names and elements of the nodes above included. */
  lemma {:induction false} RemovedNodes(ui: UIDef, address: Address, other: Address)
    requires address != [] && NodeAt(ui, address).Some?
    ensures address <= other ==> NodeAt(Removed(ui, address), other) == None
    ensures other < address ==> NodeAt(ui, other).Some? && NodeAt(Removed(ui, address), other).Some?
    ensures other < address ==>
      OnlySlot(NodeAt(ui, other).value, NodeAt(Removed(ui, address), other).value, address[|other|], |other| + 1 == |address|)
    ensures !(address <= other) && !(other < address) ==> NodeAt(Removed(ui, address), other) == NodeAt(ui, other)
    decreases |address|
  {
    if other != [] && other[0] == address[0] {
      assert address <= other <==> address[1..] <= other[1..] by {
        assert address == [address[0]] + address[1..] && other == [other[0]] + other[1..];
      }
      assert other < address <==> other[1..] < address[1..] by {
        assert address == [address[0]] + address[1..] && other == [other[0]] + other[1..];
      }
      if |address| > 1 {
        RemovedNodes(ui.children[address[0]].ui, address[1..], other[1..]);
      }
    }
  }

  /** The last point of the path of a node comes before the digits of its index. */
  lemma LastPoint(path: string, above: string, digits: string, point: int)
    requires path == above + "." + digits && forall i :: 0 <= i < |digits| ==> digits[i] != '.'
    requires -1 <= point < |path| && (point >= 0 ==> path[point] == '.') && forall i :: point < i < |path| ==> path[i] != '.'
    ensures point == |above| && path[..point] == above && path[point + 1..] == digits
  {
    assert path[|above|] == '.';
    forall i | |above| < i < |path| ensures path[i] != '.' {
      assert path[i] == digits[i - |above| - 1];
    }
  }

  method LastIndexOf(s: string, c: char) returns (k: int)
    ensures -1 <= k < |s| && (k >= 0 ==> s[k] == c) && forall i :: k < i < |s| ==> s[i] != c
  {
    k := |s| - 1;
    while k >= 0 && s[k] != c
      invariant -1 <= k < |s| && forall i :: k < i < |s| ==> s[i] != c
    {
      k := k - 1;
    }
  }

  /** The two kinds of selection there are: the path of a node, present or not, and what adding
      a child leaves, the path of the parent and the name of the child. */
  datatype Selection = OfNode(address: Address) | OfNewChild(parent: Address, number: nat)

  function SelectionText(s: Selection): string {
    match s
    case OfNode(address) => PathOf(address)
    case OfNewChild(parent, number) => PathOf(parent) + "." + ("New" + ToString(number))
  }

  lemma EmptySelection(s: Selection)
    ensures SelectionText(s) == "" <==> s == OfNode([])
  {
  }

  /** What comes before the last point of a selection and what after. */
  lemma SelectionParts(s: Selection) returns (above: Address, last: string)
    requires SelectionText(s) != ""
    ensures SelectionText(s) == PathOf(above) + "." + last && last != "" && forall i :: 0 <= i < |last| ==> last[i] != '.'
    ensures s.OfNode? <==> IsDigit(last[0])
    ensures s.OfNode? ==>
      s.address != [] && above == s.address[..|s.address| - 1] && last == ToString(s.address[|s.address| - 1])
  {
    match s
    case OfNode(address) =>
      var n := |address| - 1;
      above, last := address[..n], ToString(address[n]);
      assert address == above + [address[n]];
      ChildPath(above, address[n]);
    case OfNewChild(parent, number) =>
      above, last := parent, "New" + ToString(number);
  }

  /** The root cannot be deleted, and after a child was added the name cannot be read as an
      index: the result is then missing, as the exception leaves it. */
  method DeleteSelection(root: UIDef, text: Option<string>, ghost selection: Selection) returns (root': Option<UIDef>)
    requires text.Some? ==> text.value == SelectionText(selection)
    ensures text.None? ==> root' == Some(root)
    ensures text.Some? && selection.OfNode? ==>
      root' == Some(if selection.address == [] then root else Removed(root, selection.address))
    ensures text.Some? && selection.OfNewChild? ==> root' == None
  {
    hide ToString, PathOf, Removed, Value;
    if text.None? {
      return Some(root);
    }
    EmptySelection(selection);
    if |text.value| == 0 {
      return Some(root);
    }
    var path := text.value;
    var point := LastIndexOf(path, '.');
    ghost var above, last := SelectionParts(selection);
    LastPoint(path, PathOf(above), last, point);
    if !IsDigit(path[point + 1]) {
      return None;
    }
    ghost var address := selection.address;
    ValueOfToString(address[|address| - 1]);
    var index := Value(path[point + 1..]);
    LocatePrinted(root, above);
    assert above + [address[|address| - 1]] == address;
    var parent := GetUIForPath(root, path[..point]);
    if parent.Some? {
      root' := Some(Removed(root, parent.value + [index]));
    } else {
      NothingBelow(root, address);
      NothingToRemove(root, address);
      root' := Some(root);
    }
  }
}
