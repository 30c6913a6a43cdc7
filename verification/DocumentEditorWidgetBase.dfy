/** The change callbacks of a document's widget (Editor/DocumentEditorWidgetBase.cpp): for a path,
    for what lies above it, and for what lies below it. */
module DocumentEditorWidgetBase {
  import opened CallbackHistory
  import opened DeferredOperations
  import opened Vectors

  /** What a callback may ask for when it is called. */
  datatype Request =
    | AddExact(path: string)
    | RemoveExact(id: CallbackId)
    | AddParent(path: string)
    | RemoveParent(id: CallbackId)
    | AddChild(path: string)
    | RemoveChild(id: CallbackId)

  /** Callbacks for paths; false stands for an emptied callback, whose call does nothing. */
  datatype Exact = Exact(
    callbacks: map<CallbackId, bool>,
    lookup: map<string, seq<CallbackId>>,
    dead: seq<(string, CallbackId)>)

  ghost predicate NoDuplicates(list: seq<CallbackId>) {
    forall i, j :: 0 <= i < j < |list| ==> list[i] != list[j]
  }

  function IndexOf(list: seq<CallbackId>, id: CallbackId): (k: nat)
    ensures k <= |list|
    ensures k < |list| ==> list[k] == id
    ensures forall j :: 0 <= j < k ==> list[j] != id
  {
    if list == [] || list[0] == id then 0 else 1 + IndexOf(list[1..], id)
  }

  function RemoveQuick(list: seq<CallbackId>, id: CallbackId): seq<CallbackId> {
    var k := IndexOf(list, id);
    if k < |list| then RemoveIndexQuick(list, k) else list
  }

  lemma RemoveQuickIs(list: seq<CallbackId>, id: CallbackId)
    requires NoDuplicates(list)
    ensures NoDuplicates(RemoveQuick(list, id))
    ensures forall x :: x in RemoveQuick(list, id) <==> x in list && x != id
  {
    var k := IndexOf(list, id);
    if k < |list| {
      var last, rest := |list| - 1, RemoveQuick(list, id);
      forall x | x in list && x != id ensures x in rest {
        var i :| 0 <= i < |list| && list[i] == x;
        assert i == last ==> rest[k] == x;
        assert i != last ==> rest[i] == x;
      }
    }
  }

  /** Every id found for a path has its callback, and every callback is found under the path it
      was registered for. An emptied one is put down to be erased. */
  ghost predicate Safe(x: Exact, homes: map<CallbackId, string>) {
    && x.callbacks.Keys <= homes.Keys
    && (forall p :: p in x.lookup ==> NoDuplicates(x.lookup[p]))
    && (forall p, id :: p in x.lookup && id in x.lookup[p] ==> id in x.callbacks && homes[id] == p)
    && (forall id :: id in x.callbacks ==> homes[id] in x.lookup && id in x.lookup[homes[id]])
    && (forall id :: id in x.callbacks && !x.callbacks[id] ==> (homes[id], id) in x.dead)
    && (forall d :: d in x.dead ==> d.1 in homes && homes[d.1] == d.0)
  }

  /** The ids registered for a path. */
  function ListOf(x: Exact, path: string): seq<CallbackId> {
    if path in x.lookup then x.lookup[path] else []
  }

  /** The callback is there and not emptied. */
  predicate Callable(x: Exact, id: CallbackId) {
    id in x.callbacks && x.callbacks[id]
  }

  function AddedExact(x: Exact, path: string, id: CallbackId): Exact {
    x.(callbacks := x.callbacks[id := true],
       lookup := x.lookup[path := ListOf(x, path) + [id]])
  }

  function RemovedExact(x: Exact, path: string, id: CallbackId, triggering: bool): Exact {
    if triggering then
      x.(callbacks := if id in x.callbacks then x.callbacks[id := false] else x.callbacks, dead := x.dead + [(path, id)])
    else
      x.(callbacks := x.callbacks - {id},
         lookup := if path in x.lookup then x.lookup[path := RemoveQuick(x.lookup[path], id)] else x.lookup)
  }

  /** The callback is found for its path, after those that were there, and can be called. */
  ghost predicate ExactAdded(x: Exact, y: Exact, path: string, id: CallbackId) {
    && Callable(y, id) && ListOf(y, path) == ListOf(x, path) + [id]
    && (forall i :: i != id ==> SameCallback(x, y, i))
    && (forall p :: p != path ==> ListOf(y, p) == ListOf(x, p)) && y.dead == x.dead
  }

  /** The callback cannot be called any more. Its path loses it at once, or it is put down to be
      erased; nothing else changes. */
  ghost predicate ExactTaken(x: Exact, y: Exact, path: string, id: CallbackId, triggering: bool) {
    && !Callable(y, id) && (forall i :: i != id ==> SameCallback(x, y, i))
    && (forall p :: p != path ==> ListOf(y, p) == ListOf(x, p))
    && if triggering then
         (id in y.callbacks <==> id in x.callbacks) && ListOf(y, path) == ListOf(x, path) && y.dead == x.dead + [(path, id)]
       else
         id !in y.callbacks && (forall i :: i in ListOf(y, path) <==> i in ListOf(x, path) && i != id) && y.dead == x.dead
  }

  ghost predicate SameCallback(x: Exact, y: Exact, id: CallbackId) {
    (id in y.callbacks <==> id in x.callbacks) && (id in x.callbacks ==> y.callbacks[id] == x.callbacks[id])
  }

  lemma AddedIsSafe(x: Exact, homes: map<CallbackId, string>, path: string, id: CallbackId)
    requires Safe(x, homes) && id !in homes
    ensures Safe(AddedExact(x, path, id), homes[id := path]) && ExactAdded(x, AddedExact(x, path, id), path, id)
  {
    var list := ListOf(x, path);
    assert id !in list && NoDuplicates(list);
    AppendedOnce(list, id);
    AddedStaysSafe(x, homes, path, id);
    hide Safe;
    ExactIsAdded(x, path, id);
  }

  lemma AddedStaysSafe(x: Exact, homes: map<CallbackId, string>, path: string, id: CallbackId)
    requires Safe(x, homes) && id !in homes && NoDuplicates(ListOf(x, path) + [id])
    ensures Safe(AddedExact(x, path, id), homes[id := path])
  {
    hide NoDuplicates;
    var y, homes' := AddedExact(x, path, id), homes[id := path];
    assert y.lookup == x.lookup[path := y.lookup[path]] && forall i :: i in y.lookup[path] <==> i in ListOf(x, path) || i == id;
    hide AddedExact;
  }

  lemma ExactIsAdded(x: Exact, path: string, id: CallbackId)
    ensures ExactAdded(x, AddedExact(x, path, id), path, id)
  {
  }

  lemma AppendedOnce(list: seq<CallbackId>, id: CallbackId)
    requires NoDuplicates(list) && id !in list
    ensures NoDuplicates(list + [id])
  {
  }

  lemma RemovedIsSafe(x: Exact, homes: map<CallbackId, string>, path: string, id: CallbackId, triggering: bool)
    requires Safe(x, homes) && id in homes && homes[id] == path
    ensures Safe(RemovedExact(x, path, id, triggering), homes)
    ensures ExactTaken(x, RemovedExact(x, path, id, triggering), path, id, triggering)
  {
    if triggering {
      EmptiedIsSafe(x, homes, path, id);
    } else {
      ErasedIsSafe(x, homes, path, id);
    }
  }

  lemma EmptiedIsSafe(x: Exact, homes: map<CallbackId, string>, path: string, id: CallbackId)
    requires Safe(x, homes) && id in homes && homes[id] == path
    ensures Safe(RemovedExact(x, path, id, true), homes) && ExactTaken(x, RemovedExact(x, path, id, true), path, id, true)
  {
    hide NoDuplicates;
    var y := RemovedExact(x, path, id, true);
    assert (path, id) in y.dead && forall d :: d in y.dead <==> d in x.dead || d == (path, id);
    assert y.lookup == x.lookup && y.callbacks.Keys == x.callbacks.Keys;
  }

  lemma ErasedIsSafe(x: Exact, homes: map<CallbackId, string>, path: string, id: CallbackId)
    requires Safe(x, homes) && id in homes && homes[id] == path
    ensures Safe(RemovedExact(x, path, id, false), homes) && ExactTaken(x, RemovedExact(x, path, id, false), path, id, false)
  {
    ErasedIs(x, homes, path, id);
    var y := RemovedExact(x, path, id, false);
    hide RemoveQuick, NoDuplicates, RemovedExact, ListOf;
    assert Safe(y, homes) by {
      ErasedStaysSafe(x, y, homes, path, id);
    }
    hide Safe;
    ErasedIsTaken(x, y, path, id);
  }

  /** Only the list of the path loses the id. */
  ghost predicate Erased(x: Exact, y: Exact, path: string, id: CallbackId) {
    && y.callbacks == x.callbacks - {id} && y.dead == x.dead && y.lookup.Keys == x.lookup.Keys
    && forall p :: p in x.lookup ==>
         && (NoDuplicates(x.lookup[p]) ==> NoDuplicates(y.lookup[p]))
         && (p != path ==> y.lookup[p] == x.lookup[p])
         && (p == path && NoDuplicates(x.lookup[p]) ==> forall i :: i in y.lookup[p] <==> i in x.lookup[p] && i != id)
  }

  lemma ErasedIs(x: Exact, homes: map<CallbackId, string>, path: string, id: CallbackId)
    requires Safe(x, homes)
    ensures Erased(x, RemovedExact(x, path, id, false), path, id)
  {
    if path in x.lookup {
      RemoveQuickIs(x.lookup[path], id);
    }
    hide RemoveQuick, NoDuplicates;
  }

  lemma ErasedStaysSafe(x: Exact, y: Exact, homes: map<CallbackId, string>, path: string, id: CallbackId)
    requires Safe(x, homes) && id in homes && homes[id] == path && Erased(x, y, path, id)
    ensures Safe(y, homes)
  {
    hide NoDuplicates;
  }

  lemma ErasedIsTaken(x: Exact, y: Exact, path: string, id: CallbackId)
    requires Erased(x, y, path, id) && (path in x.lookup ==> NoDuplicates(x.lookup[path]))
    ensures ExactTaken(x, y, path, id, false)
  {
    hide NoDuplicates;
  }

  /** While callbacks are called a table only loses callbacks to being defunct. */
  ghost predicate Kept(t: Table, u: Table) {
    && u.live.Keys == t.live.Keys
    && forall id :: id in t.live ==> u.live[id].path == t.live[id].path && (t.live[id].defunct ==> u.live[id].defunct)
  }

  /** Lists only get longer and callbacks only emptied. */
  ghost predicate ExactKept(x: Exact, y: Exact) {
    && (forall p :: p in x.lookup ==> p in y.lookup && x.lookup[p] <= y.lookup[p])
    && (forall id :: id in x.callbacks ==> id in y.callbacks && (y.callbacks[id] ==> x.callbacks[id]))
  }

  /** A callback that can be called is lost only by being taken away. */
  ghost predicate LostWhenTaken(x: Exact, y: Exact, history: seq<ExactEvent>) {
    forall id :: id in x.callbacks && x.callbacks[id] && TakenAway(id) !in history ==> id in y.callbacks && y.callbacks[id]
  }

  /** The event happened between the two. */
  ghost predicate NewIn<T>(before: seq<T>, after: seq<T>, e: T) {
    before <= after && e in after[|before|..]
  }

  lemma NewInOn<T>(first: seq<T>, before: seq<T>, after: seq<T>, last: seq<T>, e: T)
    requires first <= before && NewIn(before, after, e) && after <= last
    ensures NewIn(first, last, e)
  {
    var k :| 0 <= k < |after| - |before| && after[|before|..][k] == e;
    assert last[|first|..][|before| - |first| + k] == e;
  }

  lemma CalledOn(first: seq<Event>, before: seq<Event>, after: seq<Event>, called: seq<CallbackId>, id: CallbackId)
    requires first <= before <= after && NewIn(before, after, Called(id))
    requires forall x :: x in called ==> NewIn(first, before, Called(x))
    ensures forall x :: x in called + [id] ==> NewIn(first, after, Called(x))
  {
    forall x | x in called + [id] ensures NewIn(first, after, Called(x)) {
      if x in called {
        NewInOn(first, first, before, after, Called(x));
      } else {
        NewInOn(first, before, after, after, Called(x));
      }
    }
  }

  lemma InvokedOn(first: seq<ExactEvent>, before: seq<ExactEvent>, after: seq<ExactEvent>, called: seq<CallbackId>, id: CallbackId)
    requires first <= before <= after && NewIn(before, after, Invoked(id))
    requires forall x :: x in called ==> NewIn(first, before, Invoked(x))
    ensures forall x :: x in called + [id] ==> NewIn(first, after, Invoked(x))
  {
    forall x | x in called + [id] ensures NewIn(first, after, Invoked(x)) {
      if x in called {
        NewInOn(first, first, before, after, Invoked(x));
      } else {
        NewInOn(first, before, after, after, Invoked(x));
      }
    }
  }

  lemma NewAtEnd<T>(before: seq<T>, e: T, after: seq<T>)
    requires before + [e] <= after
    ensures NewIn(before, after, e)
  {
    assert after[|before|..][0] == e;
  }

  lemma HistorySnoc(history: seq<Event>, e: Event)
    ensures After(history + [e]) == Effect(After(history), e)
    ensures Proper(history) && MayHappen(After(history), e) ==> Proper(history + [e])
  {
    var longer := history + [e];
    assert longer[..|history|] == history;
    forall i | 0 <= i < |history| ensures longer[..i] == history[..i] {
    }
  }

  /** The path of the change is a proper beginning of the path of the callback. */
  predicate Above(change: string, path: string) { |change| < |path| && change <= path }

  /** The path of the callback is a proper beginning of the path of the change. */
  predicate Below(change: string, path: string) { |change| > |path| && path <= change }

  /** What becomes of exact callbacks. */
  datatype ExactEvent = TakenAway(id: CallbackId) | Invoked(id: CallbackId)

  ghost predicate NeverInvokedAgain(history: seq<ExactEvent>) {
    forall i, j :: 0 <= i < j < |history| && history[i].TakenAway? ==> history[j] != Invoked(history[i].id)
  }

  /** All there is to a widget; homes are the ids given out and the path of each. */
  datatype Widget = Widget(
    triggering: bool,
    ignoring: bool,
    exact: Exact,
    parents: Table,
    children: Table,
    homes: map<CallbackId, string>,
    exactHistory: seq<ExactEvent>,
    parentHistory: seq<Event>,
    childHistory: seq<Event>)

  /** Only live callbacks were called, and ids were given out and registered once. */
  ghost predicate SoundHistory(history: seq<Event>, homes: map<CallbackId, string>) {
    && Proper(history) && AddsOnce(history)
    && forall id :: RegisteredIn(history, id) ==> id in homes
  }

  lemma SoundHistorySnoc(history: seq<Event>, homes: map<CallbackId, string>, e: Event)
    requires SoundHistory(history, homes) && MayHappen(After(history), e)
    requires e.Issued? && e.op.Add? ==> e.op.id in homes && !RegisteredIn(history, e.op.id)
    ensures SoundHistory(history + [e], homes) && After(history + [e]) == Effect(After(history), e)
  {
    HistorySnoc(history, e);
    AddsOnceSnoc(history, e);
    forall id {
      RegisteredSnoc(history, e, id);
    }
    hide Proper, AddsOnce, RegisteredIn, After;
  }

  lemma SoundHistoryMore(history: seq<Event>, homes: map<CallbackId, string>, id: CallbackId, path: string)
    requires SoundHistory(history, homes)
    ensures SoundHistory(history, homes[id := path])
    ensures id !in homes ==> !RegisteredIn(history, id)
  {
    hide Proper, AddsOnce, RegisteredIn;
  }

  /** Exact callbacks taken away are gone or emptied, and were not invoked since. */
  ghost predicate SoundExact(x: Exact, homes: map<CallbackId, string>, history: seq<ExactEvent>) {
    && Safe(x, homes) && NeverInvokedAgain(history)
    && forall id :: TakenAway(id) in history ==> id in homes && (id in x.callbacks ==> !x.callbacks[id])
  }

  /** Both tables are what their histories make them, and all histories are sound. */
  ghost predicate Sound(w: Widget) {
    && SoundExact(w.exact, w.homes, w.exactHistory)
    && w.parents == After(w.parentHistory) && SoundHistory(w.parentHistory, w.homes)
    && w.children == After(w.childHistory) && SoundHistory(w.childHistory, w.homes)
  }

  /** What others may do to a widget. */
  ghost predicate Going(a: Widget, b: Widget) {
    && b.triggering == a.triggering && b.ignoring == a.ignoring
    && a.exactHistory <= b.exactHistory && LostWhenTaken(a.exact, b.exact, b.exactHistory)
    && a.homes.Keys <= b.homes.Keys && (forall id :: id in a.homes ==> b.homes[id] == a.homes[id])
    && a.parentHistory <= b.parentHistory && a.childHistory <= b.childHistory
    && (a.triggering ==> Kept(a.parents, b.parents) && Kept(a.children, b.children) && ExactKept(a.exact, b.exact))
  }

  lemma GoingOn(a: Widget, b: Widget, c: Widget)
    requires Going(a, b) && Going(b, c)
    ensures Going(a, c)
  {
    if a.triggering {
      KeptOn(a.parents, b.parents, c.parents);
      KeptOn(a.children, b.children, c.children);
      ExactKeptOn(a.exact, b.exact, c.exact);
    }
    assert LostWhenTaken(a.exact, c.exact, c.exactHistory) by {
      assert forall e :: e in b.exactHistory ==> e in c.exactHistory;
    }
    hide Kept, ExactKept, LostWhenTaken;
  }

  lemma KeptOn(t: Table, u: Table, v: Table)
    requires Kept(t, u) && Kept(u, v)
    ensures Kept(t, v)
  {
  }

  lemma ExactKeptOn(x: Exact, y: Exact, z: Exact)
    requires ExactKept(x, y) && ExactKept(y, z)
    ensures ExactKept(x, z)
  {
  }

  lemma IssueKeeps(t: Table, op: Op)
    ensures Kept(t, Issue(t, op, true))
  {
  }

  lemma SameKept(t: Table, x: Exact)
    ensures Kept(t, t) && ExactKept(x, x)
  {
  }

  /** In no history is a callback called after it was taken away. */
  lemma SoundNeverCallsRemoved(w: Widget)
    requires Sound(w)
    ensures NeverCalledAgain(w.parentHistory) && NeverCalledAgain(w.childHistory) && NeverInvokedAgain(w.exactHistory)
  {
    RemovedIsNeverCalled(w.parentHistory);
    RemovedIsNeverCalled(w.childHistory);
  }

  /** A step of one table, under a longer history that is sound. */
  lemma ParentsStep(w: Widget, parents: Table, history: seq<Event>)
    requires Sound(w) && SoundHistory(history, w.homes) && parents == After(history)
    requires w.parentHistory <= history && (w.triggering ==> Kept(w.parents, parents))
    ensures var w' := w.(parents := parents, parentHistory := history); Sound(w') && Going(w, w')
  {
    SameKept(w.children, w.exact);
    hide SoundExact, SoundHistory, After, Kept, ExactKept;
  }

  lemma ChildrenStep(w: Widget, children: Table, history: seq<Event>)
    requires Sound(w) && SoundHistory(history, w.homes) && children == After(history)
    requires w.childHistory <= history && (w.triggering ==> Kept(w.children, children))
    ensures var w' := w.(children := children, childHistory := history); Sound(w') && Going(w, w')
  {
    SameKept(w.parents, w.exact);
    hide SoundExact, SoundHistory, After, Kept, ExactKept;
  }

  lemma IssuedIs(history: seq<Event>, homes: map<CallbackId, string>, op: Op, triggering: bool)
    requires SoundHistory(history, homes)
    requires op.Add? ==> op.id in homes && !RegisteredIn(history, op.id)
    ensures SoundHistory(history + [Issued(op, triggering)], homes) && history <= history + [Issued(op, triggering)]
    ensures After(history + [Issued(op, triggering)]) == Issue(After(history), op, triggering)
    ensures triggering ==> Kept(After(history), Issue(After(history), op, triggering))
  {
    SoundHistorySnoc(history, homes, Issued(op, triggering));
    IssueKeeps(After(history), op);
    hide SoundHistory, After, Issue, InStep, RegisteredIn, Kept;
  }

  lemma ParentsIssued(w: Widget, op: Op)
    requires Sound(w) && (op.Add? ==> op.id in w.homes && !RegisteredIn(w.parentHistory, op.id))
    ensures var w' := w.(parents := Issue(w.parents, op, w.triggering), parentHistory := w.parentHistory + [Issued(op, w.triggering)]);
      Sound(w') && Going(w, w')
  {
    IssuedIs(w.parentHistory, w.homes, op, w.triggering);
    ParentsStep(w, Issue(w.parents, op, w.triggering), w.parentHistory + [Issued(op, w.triggering)]);
  }

  lemma ChildrenIssued(w: Widget, op: Op)
    requires Sound(w) && (op.Add? ==> op.id in w.homes && !RegisteredIn(w.childHistory, op.id))
    ensures var w' := w.(children := Issue(w.children, op, w.triggering), childHistory := w.childHistory + [Issued(op, w.triggering)]);
      Sound(w') && Going(w, w')
  {
    IssuedIs(w.childHistory, w.homes, op, w.triggering);
    ChildrenStep(w, Issue(w.children, op, w.triggering), w.childHistory + [Issued(op, w.triggering)]);
  }

  lemma HomeGiven(w: Widget, id: CallbackId, path: string)
    requires Sound(w) && id !in w.homes
    ensures Sound(w.(homes := w.homes[id := path])) && Going(w, w.(homes := w.homes[id := path]))
    ensures !RegisteredIn(w.parentHistory, id) && !RegisteredIn(w.childHistory, id)
  {
    SoundHistoryMore(w.parentHistory, w.homes, id, path);
    SoundHistoryMore(w.childHistory, w.homes, id, path);
    SameKept(w.parents, w.exact);
    SameKept(w.children, w.exact);
    hide SoundHistory;
  }

  // What callbacks do

  datatype Side = Parents | Children | Exactly

  /** A request was carried out, under a new id if it adds. */
  ghost predicate Performed(r: Request, a: Widget, b: Widget) {
    match r
    case AddExact(path) => exists id :: id !in a.homes && b == WithExact(a, id, path)
    case RemoveExact(id) => b == if id in a.homes then WithoutExact(a, id, a.homes[id]) else a
    case AddParent(path) => exists id :: id !in a.homes && b == ParentIssued(a.(homes := a.homes[id := path]), Add(id, path))
    case RemoveParent(id) => b == ParentIssued(a, Remove(id))
    case AddChild(path) => exists id :: id !in a.homes && b == ChildIssued(a.(homes := a.homes[id := path]), Add(id, path))
    case RemoveChild(id) => b == ChildIssued(a, Remove(id))
  }

  ghost function WithExact(w: Widget, id: CallbackId, path: string): Widget {
    w.(exact := AddedExact(w.exact, path, id), homes := w.homes[id := path])
  }

  ghost function WithoutExact(w: Widget, id: CallbackId, path: string): Widget {
    w.(exact := RemovedExact(w.exact, path, id, w.triggering), exactHistory := w.exactHistory + [TakenAway(id)])
  }

  ghost function ParentIssued(w: Widget, op: Op): Widget {
    w.(parents := Issue(w.parents, op, w.triggering), parentHistory := w.parentHistory + [Issued(op, w.triggering)])
  }

  ghost function ChildIssued(w: Widget, op: Op): Widget {
    w.(children := Issue(w.children, op, w.triggering), childHistory := w.childHistory + [Issued(op, w.triggering)])
  }

  /** Requests were carried out one after the other. */
  ghost predicate PerformedAll(requests: seq<Request>, a: Widget, b: Widget) {
    if requests == [] then b == a
    else
      var init, last := requests[..|requests| - 1], requests[|requests| - 1];
      exists mid :: PerformedAll(init, a, mid) && Performed(last, mid, b)
  }

  function ActsOf(acts: map<CallbackId, seq<Request>>, id: CallbackId): seq<Request> {
    if id in acts then acts[id] else []
  }

  /** Callbacks were called one after the other, each doing what it does before the next. */
  ghost predicate Ran(side: Side, acts: map<CallbackId, seq<Request>>, called: seq<CallbackId>, a: Widget, b: Widget) {
    if called == [] then b == a
    else
      var init, last := called[..|called| - 1], called[|called| - 1];
      exists mid :: Ran(side, acts, init, a, mid) && PerformedAll(ActsOf(acts, last), WithCall(side, mid, last), b)
  }

  ghost function WithCall(side: Side, w: Widget, id: CallbackId): Widget {
    match side
    case Parents => w.(parentHistory := w.parentHistory + [Called(id)])
    case Children => w.(childHistory := w.childHistory + [Called(id)])
    case Exactly => w.(exactHistory := w.exactHistory + [Invoked(id)])
  }

  lemma NothingPerformed(w: Widget)
    ensures PerformedAll([], w, w)
  {
  }

  lemma NothingRan(side: Side, acts: map<CallbackId, seq<Request>>, w: Widget)
    ensures Ran(side, acts, [], w, w)
  {
  }

  lemma PerformedSnoc(requests: seq<Request>, r: Request, a: Widget, mid: Widget, b: Widget)
    requires PerformedAll(requests, a, mid) && Performed(r, mid, b)
    ensures PerformedAll(requests + [r], a, b)
  {
    assert (requests + [r])[..|requests|] == requests;
    hide Performed;
  }

  lemma RanSnoc(side: Side, acts: map<CallbackId, seq<Request>>, called: seq<CallbackId>, id: CallbackId, a: Widget, mid: Widget, b: Widget)
    requires Ran(side, acts, called, a, mid) && PerformedAll(ActsOf(acts, id), WithCall(side, mid, id), b)
    ensures Ran(side, acts, called + [id], a, b)
  {
    assert (called + [id])[..|called|] == called;
    hide PerformedAll;
  }

  // Passes

  predicate Concerns(side: Side, change: string, path: string) {
    if side.Parents? then Above(change, path) else Below(change, path)
  }

  /** Who was called once a pass has been over all but the rest: nobody twice, only callbacks that
      were live when it began and that the change concerns, and all of those still live. */
  ghost predicate Reached(side: Side, change: string, t: Table, u: Table, called: seq<CallbackId>, rest: set<CallbackId>) {
    && NoDuplicates(called) && Kept(t, u) && rest <= u.live.Keys
    && (forall id :: id in called ==> id !in rest && id in t.live && !t.live[id].defunct && Concerns(side, change, t.live[id].path))
    && (forall id :: id in u.live && !u.live[id].defunct && Concerns(side, change, u.live[id].path) ==> id in called || id in rest)
  }

  lemma NobodyReached(side: Side, change: string, t: Table)
    ensures Reached(side, change, t, t, [], t.live.Keys)
  {
    hide Concerns;
  }

  lemma RestIsLive(side: Side, change: string, t: Table, u: Table, called: seq<CallbackId>, rest: set<CallbackId>)
    requires Reached(side, change, t, u, called, rest)
    ensures rest <= u.live.Keys
  {
  }

  lemma ReachedOneMore(side: Side, change: string, t: Table, u: Table, v: Table, called: seq<CallbackId>, rest: set<CallbackId>, id: CallbackId)
    requires Reached(side, change, t, u, called, rest) && id in rest && Kept(u, v)
    requires !u.live[id].defunct && Concerns(side, change, u.live[id].path)
    ensures Reached(side, change, t, v, called + [id], rest - {id})
  {
    KeptOn(t, u, v);
    hide Concerns;
  }

  lemma ReachedSkips(side: Side, change: string, t: Table, u: Table, called: seq<CallbackId>, rest: set<CallbackId>, id: CallbackId)
    requires Reached(side, change, t, u, called, rest) && id in rest
    requires u.live[id].defunct || !Concerns(side, change, u.live[id].path)
    ensures Reached(side, change, t, u, called, rest - {id})
  {
    hide Concerns;
  }

  lemma CalledIs(history: seq<Event>, homes: map<CallbackId, string>, id: CallbackId)
    requires SoundHistory(history, homes) && id in After(history).live && !After(history).live[id].defunct
    ensures SoundHistory(history + [Called(id)], homes) && After(history + [Called(id)]) == After(history)
    ensures Kept(After(history), After(history)) && history <= history + [Called(id)]
  {
    SoundHistorySnoc(history, homes, Called(id));
    hide SoundHistory, After, InStep;
  }

  lemma ParentCalled(w: Widget, id: CallbackId)
    requires Sound(w) && id in w.parents.live && !w.parents.live[id].defunct
    ensures var w' := w.(parentHistory := w.parentHistory + [Called(id)]); Sound(w') && Going(w, w')
  {
    CalledIs(w.parentHistory, w.homes, id);
    hide SoundExact, SoundHistory, After, Kept, ExactKept;
    ParentsStep(w, w.parents, w.parentHistory + [Called(id)]);
  }

  lemma ChildCalled(w: Widget, id: CallbackId)
    requires Sound(w) && id in w.children.live && !w.children.live[id].defunct
    ensures var w' := w.(childHistory := w.childHistory + [Called(id)]); Sound(w') && Going(w, w')
  {
    CalledIs(w.childHistory, w.homes, id);
    hide SoundExact, SoundHistory, After, Kept, ExactKept;
    ChildrenStep(w, w.children, w.childHistory + [Called(id)]);
  }

  /** Who was invoked once the first n ids of a path have had their turn. */
  ghost predicate ExactReached(x: Exact, y: Exact, path: string, called: seq<CallbackId>, n: nat) {
    && path in x.lookup && n <= |x.lookup[path]| && ExactKept(x, y) && x.lookup[path] <= y.lookup[path]
    && NoDuplicates(x.lookup[path]) && NoDuplicates(called)
    && (forall id :: id in x.lookup[path] ==> id in x.callbacks)
    && (forall id :: id in called ==> id in x.lookup[path][..n] && x.callbacks[id])
    && (forall id :: id in x.lookup[path][..n] && y.callbacks[id] ==> id in called)
    && (forall i, j :: 0 <= i < j < |called| ==> IndexOf(x.lookup[path], called[i]) < IndexOf(x.lookup[path], called[j]))
  }

  lemma ExactBegins(w: Widget, path: string)
    requires Sound(w) && path in w.exact.lookup
    ensures ExactReached(w.exact, w.exact, path, [], 0)
  {
  }

  lemma TurnIsSafe(w: Widget, x: Exact, path: string, called: seq<CallbackId>, n: nat)
    requires Sound(w) && ExactReached(x, w.exact, path, called, n) && n < |x.lookup[path]|
    ensures path in w.exact.lookup && n < |w.exact.lookup[path]|
    ensures w.exact.lookup[path][n] == x.lookup[path][n] && w.exact.lookup[path][n] in w.exact.callbacks
  {
  }

  lemma GoingKeeps(a: Widget, b: Widget)
    requires Going(a, b) && a.triggering
    ensures Kept(a.parents, b.parents) && Kept(a.children, b.children) && ExactKept(a.exact, b.exact) && b.triggering
  {
  }

  lemma ExactOneMore(x: Exact, y: Exact, z: Exact, path: string, called: seq<CallbackId>, n: nat, id: CallbackId)
    requires ExactReached(x, y, path, called, n) && n < |x.lookup[path]| && id == x.lookup[path][n]
    requires id in y.callbacks && y.callbacks[id] && ExactKept(y, z)
    ensures ExactReached(x, z, path, called + [id], n + 1)
  {
    ExactKeptOn(x, y, z);
    var list := x.lookup[path];
    assert list[..n + 1] == list[..n] + [id];
    assert id !in list[..n];
    assert IndexOf(list, id) == n;
    forall i | 0 <= i < |called| ensures IndexOf(list, called[i]) < n {
      assert called[i] in list[..n];
    }
  }

  lemma ExactSkips(x: Exact, y: Exact, path: string, called: seq<CallbackId>, n: nat, id: CallbackId)
    requires ExactReached(x, y, path, called, n) && n < |x.lookup[path]| && id == x.lookup[path][n]
    requires id in y.callbacks && !y.callbacks[id]
    ensures ExactReached(x, y, path, called, n + 1)
  {
    var list := x.lookup[path];
    assert list[..n + 1] == list[..n] + [id];
  }

  lemma ExactAdds(w: Widget, path: string, id: CallbackId)
    requires Sound(w) && id !in w.homes
    ensures var w' := w.(exact := AddedExact(w.exact, path, id), homes := w.homes[id := path]);
      Sound(w') && Going(w, w') && ExactAdded(w.exact, w'.exact, path, id)
  {
    AddedIsSafe(w.exact, w.homes, path, id);
    HomeGiven(w, id, path);
    AddedIsSound(w.exact, w.homes, w.exactHistory, path, id);
    AddedIsKept(w.exact, path, id, w.exactHistory);
    hide Safe, SoundExact, AddedExact, SoundHistory, Kept, ExactKept, LostWhenTaken, ExactAdded, After;
  }

  lemma AddedIsKept(x: Exact, path: string, id: CallbackId, history: seq<ExactEvent>)
    requires id !in x.callbacks
    ensures ExactKept(x, AddedExact(x, path, id)) && LostWhenTaken(x, AddedExact(x, path, id), history)
  {
  }

  lemma AddedIsSound(x: Exact, homes: map<CallbackId, string>, history: seq<ExactEvent>, path: string, id: CallbackId)
    requires SoundExact(x, homes, history) && id !in homes && Safe(AddedExact(x, path, id), homes[id := path])
    ensures id !in x.callbacks && SoundExact(AddedExact(x, path, id), homes[id := path], history)
  {
    assert id !in x.callbacks;
    hide Safe, NeverInvokedAgain;
  }

  lemma ExactTakes(w: Widget, path: string, id: CallbackId)
    requires Sound(w) && id in w.homes && w.homes[id] == path
    ensures var w' := w.(exact := RemovedExact(w.exact, path, id, w.triggering), exactHistory := w.exactHistory + [TakenAway(id)]);
      Sound(w') && Going(w, w') && ExactTaken(w.exact, w'.exact, path, id, w.triggering)
  {
    RemovedIsSafe(w.exact, w.homes, path, id, w.triggering);
    SameKept(w.parents, w.exact);
    SameKept(w.children, w.exact);
    var x, y, history := w.exact, RemovedExact(w.exact, path, id, w.triggering), w.exactHistory + [TakenAway(id)];
    TakenIsSound(x, y, w.homes, w.exactHistory, path, id, w.triggering);
    assert w.triggering ==> ExactKept(x, y) by {
      hide Safe, ExactTaken;
    }
    hide SoundExact, RemovedExact, SoundHistory, Kept, ExactKept, LostWhenTaken, ExactTaken, After;
  }

  lemma TakenIsSound(x: Exact, y: Exact, homes: map<CallbackId, string>, history: seq<ExactEvent>, path: string, id: CallbackId, triggering: bool)
    requires SoundExact(x, homes, history) && Safe(y, homes) && ExactTaken(x, y, path, id, triggering) && id in homes
    ensures SoundExact(y, homes, history + [TakenAway(id)]) && LostWhenTaken(x, y, history + [TakenAway(id)])
  {
    forall i | i != id ensures SameCallback(x, y, i) && (Callable(x, i) <==> Callable(y, i)) {
    }
    hide Safe, ExactTaken;
    forall i | TakenAway(i) in history + [TakenAway(id)] ensures i in homes && !Callable(y, i) {
      assert i != id ==> TakenAway(i) in history && !Callable(x, i);
    }
    forall i | i in x.callbacks && x.callbacks[i] && TakenAway(i) !in history + [TakenAway(id)] ensures Callable(y, i) {
      assert TakenAway(id) in history + [TakenAway(id)] && Callable(x, i);
    }
  }

  lemma IdInvoked(w: Widget, id: CallbackId)
    requires Sound(w) && id in w.exact.callbacks && w.exact.callbacks[id]
    ensures var w' := w.(exactHistory := w.exactHistory + [Invoked(id)]); Sound(w') && Going(w, w')
  {
    SameKept(w.parents, w.exact);
    SameKept(w.children, w.exact);
    hide Safe, SoundHistory, After, Kept, ExactKept;
    forall i | 0 <= i < |w.exactHistory| && w.exactHistory[i].TakenAway? ensures w.exactHistory[i].id != id {
      assert TakenAway(w.exactHistory[i].id) in w.exactHistory;
    }
  }

  lemma WorkedOffIs(history: seq<Event>, homes: map<CallbackId, string>)
    requires SoundHistory(history, homes)
    ensures SoundHistory(history + [WorkedOff], homes) && InStep(After(history))
    ensures After(history + [WorkedOff]) == Flushed(After(history)) && history <= history + [WorkedOff]
  {
    SoundHistorySnoc(history, homes, WorkedOff);
    hide SoundHistory, After, Flushed, InStep;
  }

  lemma TablesFlushed(w: Widget)
    requires Sound(w) && !w.triggering
    ensures InStep(w.parents) && InStep(w.children)
    ensures var w' := w.(parents := Flushed(w.parents), parentHistory := w.parentHistory + [WorkedOff]); Sound(w') && Going(w, w')
    ensures var w' := w.(children := Flushed(w.children), childHistory := w.childHistory + [WorkedOff]); Sound(w') && Going(w, w')
  {
    WorkedOffIs(w.parentHistory, w.homes);
    WorkedOffIs(w.childHistory, w.homes);
    ParentsStep(w, Flushed(w.parents), w.parentHistory + [WorkedOff]);
    ChildrenStep(w, Flushed(w.children), w.childHistory + [WorkedOff]);
    hide SoundExact, SoundHistory, After, Flushed, InStep;
  }

  lemma AtOnce(t: Table, id: CallbackId, path: string)
    ensures id in Issue(t, Add(id, path), false).live
  {
  }

  lemma GoingLoses(a: Widget, b: Widget)
    requires Going(a, b)
    ensures LostWhenTaken(a.exact, b.exact, b.exactHistory) && a.exactHistory <= b.exactHistory
    ensures a.parentHistory <= b.parentHistory && a.childHistory <= b.childHistory
  {
  }

  lemma GoingSame(w: Widget)
    ensures Going(w, w)
  {
    SameKept(w.parents, w.exact);
    SameKept(w.children, w.exact);
  }

  lemma DeadHasHome(w: Widget, i: nat)
    requires Sound(w) && i < |w.exact.dead|
    ensures w.exact.dead[i].1 in w.homes && w.homes[w.exact.dead[i].1] == w.exact.dead[i].0
  {
    assert w.exact.dead[i] in w.exact.dead;
  }

  lemma DeadErased(w: Widget)
    requires Sound(w) && !w.triggering && forall d :: d in w.exact.dead ==> d.1 !in w.exact.callbacks
    ensures forall id :: id in w.exact.callbacks ==> w.exact.callbacks[id]
    ensures Sound(w.(exact := w.exact.(dead := []))) && Going(w, w.(exact := w.exact.(dead := [])))
  {
    NoneEmptied(w.exact, w.homes);
    hide Safe, SoundHistory, After, NeverInvokedAgain;
  }

  lemma NoneEmptied(x: Exact, homes: map<CallbackId, string>)
    requires Safe(x, homes) && forall d :: d in x.dead ==> d.1 !in x.callbacks
    ensures forall id :: id in x.callbacks ==> x.callbacks[id]
    ensures Safe(x.(dead := []), homes)
  {
    forall id | id in x.callbacks ensures x.callbacks[id] {
      var home := homes[id];
      assert x.callbacks[id] || (home, id) in x.dead;
    }
    hide NoDuplicates;
  }

  method AddTo(t: Table, id: CallbackId, path: string, triggering: bool) returns (u: Table)
    ensures u == Issue(t, Add(id, path), triggering)
  {
    u := t;
    if triggering {
      u := u.(added := u.added + [(id, path)]);
      u := u.(operations := u.operations + [1]);
    } else {
      u := u.(live := Emplace(u.live, id, path));
    }
  }

  method RemoveFrom(t: Table, id: CallbackId, triggering: bool) returns (u: Table)
    ensures u == Issue(t, Remove(id), triggering)
  {
    u := t;
    if triggering {
      u := u.(dead := u.dead + [id]);
      u := u.(operations := u.operations + [0]);
    }
    if id in u.live {
      if triggering {
        u := u.(live := u.live[id := u.live[id].(defunct := true)]);
      } else {
        u := u.(live := u.live - {id});
      }
    } else {
      assert u.live - {id} == u.live;
    }
  }

  /** The widget at the end of each pass. */
  datatype Marks = Marks(parentsCalled: Widget, childrenCalled: Widget, exactCalled: Widget)

  /** One pass over a table, and the log worked off. */
  ghost predicate TablePass(side: Side, change: string, acts: map<CallbackId, seq<Request>>, w: Widget, called: seq<CallbackId>, after: Widget)
    requires !side.Exactly?
  {
    && Ran(side, acts, called, w.(triggering := true), after)
    && if side.Parents? then
         && Reached(side, change, w.parents, after.parents, called, {})
         && forall id :: id in called ==> NewIn(w.parentHistory, after.parentHistory, Called(id))
       else
         && Reached(side, change, w.children, after.children, called, {})
         && forall id :: id in called ==> NewIn(w.childHistory, after.childHistory, Called(id))
  }

  ghost function ParentsFlushed(w: Widget): Widget
    requires InStep(w.parents)
  {
    w.(triggering := false, parents := Flushed(w.parents), parentHistory := w.parentHistory + [WorkedOff])
  }

  ghost function ChildrenFlushed(w: Widget): Widget
    requires InStep(w.children)
  {
    w.(triggering := false, children := Flushed(w.children), childHistory := w.childHistory + [WorkedOff])
  }

  ghost predicate ExactPass(change: string, acts: map<CallbackId, seq<Request>>, w: Widget, called: seq<CallbackId>, after: Widget) {
    && Ran(Exactly, acts, called, w.(triggering := true), after)
    && change in w.exact.lookup && ExactReached(w.exact, after.exact, change, called, |w.exact.lookup[change]|)
    && forall id :: id in called ==> NewIn(w.exactHistory, after.exactHistory, Invoked(id))
  }

  /** A change is told to the callbacks above it, then to those below it, then to its own. */
  ghost predicate Told(change: string, acts: map<CallbackId, seq<Request>>, w: Widget,
    above: seq<CallbackId>, below: seq<CallbackId>, at: seq<CallbackId>, m: Marks)
  {
    && TablePass(Parents, change, acts, w, above, m.parentsCalled) && InStep(m.parentsCalled.parents)
    && TablePass(Children, change, acts, ParentsFlushed(m.parentsCalled), below, m.childrenCalled) && InStep(m.childrenCalled.children)
    && var last := ChildrenFlushed(m.childrenCalled);
      if change in last.exact.lookup then ExactPass(change, acts, last, at, m.exactCalled) else at == []
  }

  /** Whether callbacks are being called is between the widget and its passes. */
  lemma PassGoes(w: Widget, v: Widget)
    requires !w.triggering && Going(w.(triggering := true), v)
    ensures Going(w, v.(triggering := false))
    ensures Sound(v) ==> Sound(v.(triggering := false))
    ensures Kept(w.parents, v.parents) && Kept(w.children, v.children) && ExactKept(w.exact, v.exact)
  {
  }

  lemma PassBegins(w: Widget)
    requires Sound(w)
    ensures Sound(w.(triggering := true))
  {
  }

  // Who hears of a change

  /** Above a change: only callbacks for paths that go on where it ends, and every one of those
      that was there and is never taken away. */
  ghost predicate CalledAbove(change: string, w: Widget, above: seq<CallbackId>, history: seq<Event>) {
    && (forall id :: id in above ==>
          && id in w.parents.live && (exists rest :: rest != "" && w.parents.live[id].path == change + rest)
          && NewIn(w.parentHistory, history, Called(id)))
    && forall id, path, rest ::
         AddedAs(w.parentHistory, id, path) && id in w.parents.live && !RemovedIn(history, id) && rest != "" && path == change + rest ==> id in above
  }

  /** Below it: those for paths that end where the change goes on. */
  ghost predicate CalledBelow(change: string, w: Widget, below: seq<CallbackId>, history: seq<Event>) {
    && (forall id :: id in below ==>
          && id in w.children.live && (exists rest :: rest != "" && change == w.children.live[id].path + rest)
          && NewIn(w.childHistory, history, Called(id)))
    && forall id, path, rest ::
         AddedAs(w.childHistory, id, path) && id in w.children.live && !RemovedIn(history, id) && rest != "" && change == path + rest ==> id in below
  }

  /** At its path: those registered for it, and every one of those that could be called and is not
      taken away. */
  ghost predicate CalledAt(change: string, w: Widget, at: seq<CallbackId>, end: Widget) {
    && (forall id :: id in at ==> id in end.homes && end.homes[id] == change && NewIn(w.exactHistory, end.exactHistory, Invoked(id)))
    && forall id :: Callable(w.exact, id) && id in w.homes && w.homes[id] == change && TakenAway(id) !in end.exactHistory ==> id in at
  }

  /** What was ever added and not removed is live under its path. */
  ghost predicate AllRegistered(before: seq<Event>, history: seq<Event>, t: Table) {
    forall id, path :: AddedAs(before, id, path) && !RemovedIn(history, id) ==> id in t.live && t.live[id] == Entry(path, false)
  }

  lemma AboveIs(change: string, path: string)
    ensures Concerns(Parents, change, path) <==> exists rest :: rest != "" && path == change + rest
  {
    if Concerns(Parents, change, path) {
      assert path == change + path[|change|..];
    }
  }

  lemma BelowIs(change: string, path: string)
    ensures Concerns(Children, change, path) <==> exists rest :: rest != "" && change == path + rest
  {
    if Concerns(Children, change, path) {
      assert change == path + change[|path|..];
    }
  }

  /** A pass over a table calls every callback it concerns that is never removed. */
  lemma TableCalls(side: Side, change: string, history: seq<Event>, later: seq<Event>, called: seq<CallbackId>,
                   end: seq<Event>, id: CallbackId, path: string)
    requires Reached(side, change, After(history), After(later), called, {})
    requires AddsOnce(later) && history <= later <= end && !RemovedIn(end, id)
    requires AddedAs(history, id, path) && id in After(history).live && Concerns(side, change, path)
    ensures id in called
  {
    AddedLonger(later, end, id, path);
    RegisteredStays(history, later, id, path);
    hide After, AddsOnce, RemovedIn, AddedAs, Concerns;
  }

  lemma ParentsCalled(change: string, w: Widget, after: Widget, above: seq<CallbackId>, history: seq<Event>)
    requires Sound(w) && Sound(after) && w.parentHistory <= after.parentHistory <= history
    requires Reached(Parents, change, w.parents, after.parents, above, {})
    requires forall id :: id in above ==> NewIn(w.parentHistory, after.parentHistory, Called(id))
    ensures CalledAbove(change, w, above, history)
  {
    forall path {
      AboveIs(change, path);
    }
    hide Concerns, After, SoundExact, Proper, AddedAs, RemovedIn, AddsOnce, NewIn;
    forall id | id in above ensures NewIn(w.parentHistory, history, Called(id)) {
      NewInOn(w.parentHistory, w.parentHistory, after.parentHistory, history, Called(id));
    }
    forall id, path, rest | AddedAs(w.parentHistory, id, path) && id in w.parents.live && !RemovedIn(history, id)
      && rest != "" && path == change + rest
      ensures id in above
    {
      TableCalls(Parents, change, w.parentHistory, after.parentHistory, above, history, id, path);
    }
  }

  lemma ChildrenCalled(change: string, w: Widget, v: Widget, after: Widget, below: seq<CallbackId>, history: seq<Event>)
    requires Sound(v) && Sound(after) && w.childHistory <= v.childHistory <= after.childHistory <= history && Kept(w.children, v.children)
    requires Reached(Children, change, v.children, after.children, below, {})
    requires forall id :: id in below ==> NewIn(v.childHistory, after.childHistory, Called(id))
    ensures CalledBelow(change, w, below, history)
  {
    forall path {
      BelowIs(change, path);
    }
    hide Concerns, After, SoundExact, Proper, AddedAs, RemovedIn, AddsOnce, NewIn;
    forall id | id in below ensures NewIn(w.childHistory, history, Called(id)) {
      NewInOn(w.childHistory, v.childHistory, after.childHistory, history, Called(id));
    }
    forall id, path, rest | AddedAs(w.childHistory, id, path) && id in w.children.live && !RemovedIn(history, id)
      && rest != "" && change == path + rest
      ensures id in below
    {
      AddedLonger(w.childHistory, v.childHistory, id, path);
      TableCalls(Children, change, v.childHistory, after.childHistory, below, history, id, path);
    }
  }

  lemma ExactCalled(change: string, w: Widget, v: Widget, after: Widget, at: seq<CallbackId>, end: Widget)
    requires Sound(v) && Going(w, v) && Going(v, end)
    requires if change in v.exact.lookup then ExactReached(v.exact, after.exact, change, at, |v.exact.lookup[change]|) else at == []
    requires change in v.exact.lookup ==>
      && LostWhenTaken(v.exact, after.exact, after.exactHistory) && after.exactHistory <= end.exactHistory
      && forall id :: id in at ==> NewIn(v.exactHistory, after.exactHistory, Invoked(id))
    ensures CalledAt(change, w, at, end)
  {
    hide SoundHistory, After, Kept, ExactKept, NeverInvokedAgain, NoDuplicates, NewIn;
    forall id | id in at ensures NewIn(w.exactHistory, end.exactHistory, Invoked(id)) {
      NewInOn(w.exactHistory, v.exactHistory, after.exactHistory, end.exactHistory, Invoked(id));
    }
    forall id | Callable(w.exact, id) && id in w.homes && w.homes[id] == change && TakenAway(id) !in end.exactHistory
      ensures id in at
    {
      assert TakenAway(id) !in v.exactHistory && Callable(v.exact, id) && v.homes[id] == change;
      var list := v.exact.lookup[change];
      assert id in list && list[..|list|] == list;
      assert TakenAway(id) !in after.exactHistory && Callable(after.exact, id);
    }
    forall id | id in at ensures id in end.homes && end.homes[id] == change {
      assert id in v.exact.lookup[change];
    }
  }

  lemma AllLive(before: seq<Event>, called: seq<Event>, history: seq<Event>)
    requires AddsOnce(history) && before <= called && called + [WorkedOff] <= history
    ensures AllRegistered(before, history, After(history))
  {
    forall id, path | AddedAs(before, id, path) && !RemovedIn(history, id)
      ensures id in After(history).live && After(history).live[id] == Entry(path, false)
    {
      var off := called + [WorkedOff];
      AddedLonger(before, called, id, path);
      AddedLonger(called, off, id, path);
      AddedLonger(off, history, id, path);
      AddsOncePrefix(history, |off|);
      AddsOncePrefix(off, |called|);
      assert history[..|off|] == off && off[..|called|] == called;
      hide After, AddsOnce, AddedAs, RemovedIn;
      RegisteredIsLive(called, id, path);
      RegisteredStays(off, history, id, path);
    }
  }

  lemma EveryoneCalled(change: string, acts: map<CallbackId, seq<Request>>, s0: Widget, s1: Widget, s2: Widget,
                       p: Widget, c: Widget, x: Widget, end: Widget,
                       above: seq<CallbackId>, below: seq<CallbackId>, at: seq<CallbackId>)
    requires Sound(s0) && Sound(s1) && Sound(s2) && Sound(p) && Sound(c) && Sound(end)
    requires Going(s0, p.(triggering := false)) && Going(s0, s1) && Going(s0, s2) && Going(s1, c.(triggering := false)) && Going(s2, end)
    requires TablePass(Parents, change, acts, s0, above, p) && InStep(p.parents) && s1 == ParentsFlushed(p) && Kept(s0.children, p.children)
    requires TablePass(Children, change, acts, s1, below, c) && InStep(c.children) && s2 == ChildrenFlushed(c)
    requires if change in s2.exact.lookup then
        && ExactReached(s2.exact, x.exact, change, at, |s2.exact.lookup[change]|)
        && LostWhenTaken(s2.exact, x.exact, x.exactHistory) && x.exactHistory <= end.exactHistory
        && forall id :: id in at ==> NewIn(s2.exactHistory, x.exactHistory, Invoked(id))
      else at == []
    ensures CalledAbove(change, s0, above, end.parentHistory) && CalledBelow(change, s0, below, end.childHistory)
    ensures CalledAt(change, s0, at, end)
    ensures AllRegistered(s0.parentHistory, end.parentHistory, end.parents)
    ensures AllRegistered(s0.childHistory, end.childHistory, end.children)
  {
    hide SoundExact, After, Proper, Ran, Flushed, ExactReached, AddsOnce, RegisteredIn, LostWhenTaken, NewIn, CalledAbove, CalledBelow,
      CalledAt, AllRegistered;
    ParentsCalled(change, s0, p, above, end.parentHistory);
    ChildrenCalled(change, s0, s1, c, below, end.childHistory);
    ExactCalled(change, s0, s2, x, at, end);
    AllLive(s0.parentHistory, p.parentHistory, end.parentHistory);
    AllLive(s0.childHistory, c.childHistory, end.childHistory);
  }

  class DocumentEditorWidgetBase {
    var ignoreCallbacks: bool
    var triggeringCallbacks: bool
    var exact: Exact
    var parents: Table
    var children: Table
    var homes: map<CallbackId, string>
    ghost var exactHistory: seq<ExactEvent>
    ghost var parentHistory: seq<Event>
    ghost var childHistory: seq<Event>

    constructor ()
      ensures Sound(State()) && !triggeringCallbacks && !ignoreCallbacks && fresh(this)
    {
      ignoreCallbacks, triggeringCallbacks := false, false;
      exact, parents, children, homes := Exact(map[], map[], []), EMPTY_TABLE, EMPTY_TABLE, map[];
      exactHistory, parentHistory, childHistory := [], [], [];
    }

    ghost function State(): Widget
      reads this
    {
      Widget(triggeringCallbacks, ignoreCallbacks, exact, parents, children, homes, exactHistory, parentHistory, childHistory)
    }

    /** A number never drawn before. */
    method NewId() returns (id: CallbackId)
      ensures id !in homes
    {
      Unused(homes.Keys);
      id :| id !in homes;
    }

    method AddChangeCallback(path: string) returns (id: CallbackId)
      requires Sound(State())
      modifies this
      ensures Sound(State()) && Going(old(State()), State())
      ensures id !in old(homes) && State() == WithExact(old(State()), id, path)
      ensures ExactAdded(old(exact), exact, path, id)
    {
      id := NewId();
      ExactAdds(State(), path, id);
      hide Sound, Going, AddedExact, ExactAdded;
      exact := AddedExact(exact, path, id);
      homes := homes[id := path];
    }

    method RemoveChangeCallback(path: string, id: CallbackId)
      requires Sound(State()) && id in homes && homes[id] == path
      modifies this
      ensures Sound(State()) && Going(old(State()), State())
      ensures State() == WithoutExact(old(State()), id, path)
      ensures ExactTaken(old(exact), exact, path, id, triggeringCallbacks)
    {
      ExactTakes(State(), path, id);
      hide Sound, Going, RemovedExact, ExactTaken;
      exact := RemovedExact(exact, path, id, triggeringCallbacks);
      exactHistory := exactHistory + [TakenAway(id)];
    }

    method AddParentChangeCallback(path: string) returns (id: CallbackId)
      requires Sound(State())
      modifies this
      ensures Sound(State()) && Going(old(State()), State())
      ensures id !in old(homes) && State() == ParentIssued(old(State()).(homes := old(homes)[id := path]), Add(id, path))
      ensures AddedAs(parentHistory, id, path) && (!triggeringCallbacks ==> id in parents.live)
    {
      id := NewId();
      ghost var before := State();
      HomeGiven(before, id, path);
      homes := homes[id := path];
      ghost var during := State();
      ParentsIssued(during, Add(id, path));
      hide Sound, Going, Issue;
      parents := AddTo(parents, id, path, triggeringCallbacks);
      AddedSnoc(parentHistory, Issued(Add(id, path), triggeringCallbacks), id, path);
      parentHistory := parentHistory + [Issued(Add(id, path), triggeringCallbacks)];
      AtOnce(old(parents), id, path);
      GoingOn(before, during, State());
    }

    method RemovParentChangeCallback(id: CallbackId)
      requires Sound(State())
      modifies this
      ensures Sound(State()) && Going(old(State()), State())
      ensures State() == ParentIssued(old(State()), Remove(id)) && RemovedIn(parentHistory, id)
    {
      ParentsIssued(State(), Remove(id));
      hide Sound, Going, Issue;
      parents := RemoveFrom(parents, id, triggeringCallbacks);
      AddedSnoc(parentHistory, Issued(Remove(id), triggeringCallbacks), id, "");
      parentHistory := parentHistory + [Issued(Remove(id), triggeringCallbacks)];
    }

    method AddChildChangeCallback(path: string) returns (id: CallbackId)
      requires Sound(State())
      modifies this
      ensures Sound(State()) && Going(old(State()), State())
      ensures id !in old(homes) && State() == ChildIssued(old(State()).(homes := old(homes)[id := path]), Add(id, path))
      ensures AddedAs(childHistory, id, path) && (!triggeringCallbacks ==> id in children.live)
    {
      id := NewId();
      ghost var before := State();
      HomeGiven(before, id, path);
      homes := homes[id := path];
      ghost var during := State();
      ChildrenIssued(during, Add(id, path));
      hide Sound, Going, Issue;
      children := AddTo(children, id, path, triggeringCallbacks);
      AddedSnoc(childHistory, Issued(Add(id, path), triggeringCallbacks), id, path);
      childHistory := childHistory + [Issued(Add(id, path), triggeringCallbacks)];
      AtOnce(old(children), id, path);
      GoingOn(before, during, State());
    }

    method RemoveChildChangeCallback(id: CallbackId)
      requires Sound(State())
      modifies this
      ensures Sound(State()) && Going(old(State()), State())
      ensures State() == ChildIssued(old(State()), Remove(id)) && RemovedIn(childHistory, id)
    {
      ChildrenIssued(State(), Remove(id));
      hide Sound, Going, Issue;
      children := RemoveFrom(children, id, triggeringCallbacks);
      AddedSnoc(childHistory, Issued(Remove(id), triggeringCallbacks), id, "");
      childHistory := childHistory + [Issued(Remove(id), triggeringCallbacks)];
    }

    // Dispatch

    /** What a callback asks for while it runs. Ids nobody was given cannot be removed. */
    method Perform(r: Request)
      requires Sound(State())
      modifies this
      ensures Sound(State()) && Going(old(State()), State()) && Performed(r, old(State()), State())
    {
      SameKept(parents, exact);
      SameKept(children, exact);
      hide Sound, Kept, ExactKept, Issue, AddedExact, RemovedExact;
      match r {
        case AddExact(path) => var _ := AddChangeCallback(path);
        case RemoveExact(id) =>
          if id in homes {
            RemoveChangeCallback(homes[id], id);
          }
        case AddParent(path) => var _ := AddParentChangeCallback(path);
        case RemoveParent(id) => RemovParentChangeCallback(id);
        case AddChild(path) => var _ := AddChildChangeCallback(path);
        case RemoveChild(id) => RemoveChildChangeCallback(id);
      }
    }

    method PerformAll(requests: seq<Request>)
      requires Sound(State())
      modifies this
      ensures Sound(State()) && Going(old(State()), State()) && PerformedAll(requests, old(State()), State())
    {
      hide Sound, Going, Performed, PerformedAll;
      ghost var s0 := State();
      GoingSame(s0);
      NothingPerformed(s0);
      var i := 0;
      while i < |requests|
        invariant i <= |requests|
        invariant Sound(State()) && Going(s0, State()) && PerformedAll(requests[..i], s0, State())
      {
        assert requests[..i] + [requests[i]] == requests[..i + 1];
        PerformNext(s0, requests[..i], requests[i]);
        i := i + 1;
      }
      assert requests[..i] == requests;
    }

    method PerformNext(ghost start: Widget, ghost done: seq<Request>, r: Request)
      requires Sound(State()) && Going(start, State()) && PerformedAll(done, start, State())
      modifies this
      ensures Sound(State()) && Going(start, State()) && PerformedAll(done + [r], start, State())
    {
      hide Sound, Going, Performed, PerformedAll;
      ghost var before := State();
      Perform(r);
      GoingOn(start, before, State());
      PerformedSnoc(done, r, start, before, State());
    }

    method CallParent(id: CallbackId, acts: map<CallbackId, seq<Request>>)
      requires Sound(State()) && id in parents.live && !parents.live[id].defunct
      modifies this
      ensures Sound(State()) && Going(old(State()), State())
      ensures PerformedAll(ActsOf(acts, id), WithCall(Parents, old(State()), id), State())
      ensures NewIn(old(parentHistory), parentHistory, Called(id))
    {
      ghost var before := State();
      ParentCalled(before, id);
      hide Sound, Going, Performed, PerformedAll;
      parentHistory := parentHistory + [Called(id)];
      ghost var during := State();
      PerformAll(ActsOf(acts, id));
      GoingLoses(during, State());
      NewAtEnd(before.parentHistory, Called(id), parentHistory);
      GoingOn(before, during, State());
    }

    /** One pass over the parent callbacks, in whatever order the table has them. */
    method CallParents(change: string, acts: map<CallbackId, seq<Request>>) returns (called: seq<CallbackId>)
      requires Sound(State()) && triggeringCallbacks
      modifies this
      ensures Sound(State()) && Going(old(State()), State()) && Ran(Parents, acts, called, old(State()), State())
      ensures Reached(Parents, change, old(parents), parents, called, {})
      ensures forall id :: id in called ==> NewIn(old(parentHistory), parentHistory, Called(id))
    {
      called := [];
      var rest := parents.live.Keys;
      hide Sound, Going, Concerns, Ran, Performed, PerformedAll, Reached, Kept, NewIn;
      GoingSame(State());
      NothingRan(Parents, acts, State());
      NobodyReached(Parents, change, parents);
      while rest != {}
        invariant Sound(State()) && Going(old(State()), State()) && triggeringCallbacks
        invariant Ran(Parents, acts, called, old(State()), State())
        invariant Reached(Parents, change, old(parents), parents, called, rest)
        invariant forall id :: id in called ==> NewIn(old(parentHistory), parentHistory, Called(id))
        decreases |rest|
      {
        ghost var before := State();
        var id :| id in rest;
        RestIsLive(Parents, change, old(parents), parents, called, rest);
        if !parents.live[id].defunct && Concerns(Parents, change, parents.live[id].path) {
          CallParent(id, acts);
          GoingLoses(old(State()), before);
          GoingLoses(before, State());
          CalledOn(old(parentHistory), before.parentHistory, parentHistory, called, id);
          GoingOn(old(State()), before, State());
          GoingKeeps(before, State());
          RanSnoc(Parents, acts, called, id, old(State()), before, State());
          ReachedOneMore(Parents, change, old(parents), before.parents, parents, called, rest, id);
          called := called + [id];
        } else {
          ReachedSkips(Parents, change, old(parents), parents, called, rest, id);
        }
        rest := rest - {id};
      }
    }

    method CallChild(id: CallbackId, acts: map<CallbackId, seq<Request>>)
      requires Sound(State()) && id in children.live && !children.live[id].defunct
      modifies this
      ensures Sound(State()) && Going(old(State()), State())
      ensures PerformedAll(ActsOf(acts, id), WithCall(Children, old(State()), id), State())
      ensures NewIn(old(childHistory), childHistory, Called(id))
    {
      ghost var before := State();
      ChildCalled(before, id);
      hide Sound, Going, Performed, PerformedAll;
      childHistory := childHistory + [Called(id)];
      ghost var during := State();
      PerformAll(ActsOf(acts, id));
      GoingLoses(during, State());
      NewAtEnd(before.childHistory, Called(id), childHistory);
      GoingOn(before, during, State());
    }

    /** One pass over the child callbacks, in whatever order the table has them. */
    method CallChildren(change: string, acts: map<CallbackId, seq<Request>>) returns (called: seq<CallbackId>)
      requires Sound(State()) && triggeringCallbacks
      modifies this
      ensures Sound(State()) && Going(old(State()), State()) && Ran(Children, acts, called, old(State()), State())
      ensures Reached(Children, change, old(children), children, called, {})
      ensures forall id :: id in called ==> NewIn(old(childHistory), childHistory, Called(id))
    {
      called := [];
      var rest := children.live.Keys;
      hide Sound, Going, Concerns, Ran, Performed, PerformedAll, Reached, Kept, NewIn;
      GoingSame(State());
      NothingRan(Children, acts, State());
      NobodyReached(Children, change, children);
      while rest != {}
        invariant Sound(State()) && Going(old(State()), State()) && triggeringCallbacks
        invariant Ran(Children, acts, called, old(State()), State())
        invariant Reached(Children, change, old(children), children, called, rest)
        invariant forall id :: id in called ==> NewIn(old(childHistory), childHistory, Called(id))
        decreases |rest|
      {
        ghost var before := State();
        var id :| id in rest;
        RestIsLive(Children, change, old(children), children, called, rest);
        if !children.live[id].defunct && Concerns(Children, change, children.live[id].path) {
          CallChild(id, acts);
          GoingLoses(old(State()), before);
          GoingLoses(before, State());
          CalledOn(old(childHistory), before.childHistory, childHistory, called, id);
          GoingOn(old(State()), before, State());
          GoingKeeps(before, State());
          RanSnoc(Children, acts, called, id, old(State()), before, State());
          ReachedOneMore(Children, change, old(children), before.children, children, called, rest, id);
          called := called + [id];
        } else {
          ReachedSkips(Children, change, old(children), children, called, rest, id);
        }
        rest := rest - {id};
      }
    }

    method InvokeExact(id: CallbackId, acts: map<CallbackId, seq<Request>>)
      requires Sound(State()) && id in exact.callbacks && exact.callbacks[id]
      modifies this
      ensures Sound(State()) && Going(old(State()), State())
      ensures PerformedAll(ActsOf(acts, id), WithCall(Exactly, old(State()), id), State())
      ensures NewIn(old(exactHistory), exactHistory, Invoked(id))
    {
      ghost var before := State();
      IdInvoked(before, id);
      hide Sound, Going, Performed, PerformedAll;
      exactHistory := exactHistory + [Invoked(id)];
      ghost var during := State();
      PerformAll(ActsOf(acts, id));
      GoingLoses(during, State());
      NewAtEnd(before.exactHistory, Invoked(id), exactHistory);
      GoingOn(before, during, State());
    }

    /** The callbacks for a path: those the list held when the pass began, in order, that are not
        emptied by the time it is their turn. */
    method CallExact(path: string, acts: map<CallbackId, seq<Request>>) returns (called: seq<CallbackId>)
      requires Sound(State()) && triggeringCallbacks && path in exact.lookup
      modifies this
      ensures Sound(State()) && Going(old(State()), State()) && Ran(Exactly, acts, called, old(State()), State())
      ensures ExactReached(old(exact), exact, path, called, |old(exact).lookup[path]|)
      ensures forall id :: id in called ==> NewIn(old(exactHistory), exactHistory, Invoked(id))
    {
      hide Sound, Going, ExactReached, ExactKept, NewIn, Ran, Performed, PerformedAll;
      called := [];
      ghost var s0 := State();
      var index, end := 0, |exact.lookup[path]|;
      GoingSame(s0);
      ExactBegins(s0, path);
      NothingRan(Exactly, acts, s0);
      while index < end
        invariant index <= end == |s0.exact.lookup[path]| && triggeringCallbacks
        invariant Sound(State()) && Going(s0, State()) && Ran(Exactly, acts, called, s0, State())
        invariant ExactReached(s0.exact, exact, path, called, index)
        invariant forall id :: id in called ==> NewIn(s0.exactHistory, exactHistory, Invoked(id))
      {
        called := TakeTurn(s0, path, called, index, acts);
        index := index + 1;
      }
    }

    method TakeTurn(ghost start: Widget, path: string, called: seq<CallbackId>, index: nat, acts: map<CallbackId, seq<Request>>)
      returns (longer: seq<CallbackId>)
      requires Sound(State()) && Going(start, State()) && Ran(Exactly, acts, called, start, State()) && triggeringCallbacks
      requires ExactReached(start.exact, exact, path, called, index) && index < |start.exact.lookup[path]|
      requires forall id :: id in called ==> NewIn(start.exactHistory, exactHistory, Invoked(id))
      modifies this
      ensures Sound(State()) && Going(start, State()) && Ran(Exactly, acts, longer, start, State()) && triggeringCallbacks
      ensures ExactReached(start.exact, exact, path, longer, index + 1)
      ensures forall id :: id in longer ==> NewIn(start.exactHistory, exactHistory, Invoked(id))
    {
      ghost var before := State();
      TurnIsSafe(before, start.exact, path, called, index);
      hide Sound, Going, ExactReached, ExactKept, NewIn, Performed, PerformedAll, Ran;
      longer := called;
      var id := exact.lookup[path][index];
      if exact.callbacks[id] {
        InvokeExact(id, acts);
        GoingLoses(start, before);
        GoingLoses(before, State());
        InvokedOn(start.exactHistory, before.exactHistory, exactHistory, called, id);
        GoingKeeps(before, State());
        GoingOn(start, before, State());
        RanSnoc(Exactly, acts, called, id, start, before, State());
        ExactOneMore(start.exact, before.exact, exact, path, called, index, id);
        longer := called + [id];
      } else {
        ExactSkips(start.exact, exact, path, called, index, id);
      }
    }

    method FlushParents()
      requires Sound(State()) && !triggeringCallbacks
      modifies this`parents, this`parentHistory
      ensures Sound(State()) && Going(old(State()), State()) && InStep(old(parents))
      ensures State() == ParentsFlushed(old(State()))
    {
      TablesFlushed(State());
      hide Sound, Going, Flushed;
      parents := Flush(parents);
      parentHistory := parentHistory + [WorkedOff];
    }

    method FlushChildren()
      requires Sound(State()) && !triggeringCallbacks
      modifies this`children, this`childHistory
      ensures Sound(State()) && Going(old(State()), State()) && InStep(old(children))
      ensures State() == ChildrenFlushed(old(State()))
    {
      TablesFlushed(State());
      hide Sound, Going, Flushed;
      children := Flush(children);
      childHistory := childHistory + [WorkedOff];
    }

    /** Exact callbacks taken away during a pass are erased. */
    method EraseDead()
      requires Sound(State()) && !triggeringCallbacks
      modifies this
      ensures Sound(State()) && Going(old(State()), State()) && !triggeringCallbacks
      ensures exact.dead == [] && parents == old(parents) && children == old(children)
      ensures forall d :: d in old(exact).dead ==> d.1 !in exact.callbacks
      ensures forall id :: id in exact.callbacks ==> exact.callbacks[id]
    {
      var i := 0;
      GoingSame(State());
      hide Sound, Going, RemoveQuick;
      while i < |exact.dead|
        invariant exact.dead == old(exact).dead && i <= |exact.dead| && !triggeringCallbacks
        invariant Sound(State()) && Going(old(State()), State())
        invariant parents == old(parents) && children == old(children)
        invariant forall j :: 0 <= j < i ==> exact.dead[j].1 !in exact.callbacks
      {
        ghost var before := State();
        DeadHasHome(before, i);
        RemoveChangeCallback(exact.dead[i].0, exact.dead[i].1);
        assert forall j :: j in exact.callbacks ==> j in before.exact.callbacks && j != before.exact.dead[i].1 by {
          assert forall j :: j != before.exact.dead[i].1 ==> SameCallback(before.exact, exact, j);
        }
        GoingOn(old(State()), before, State());
        i := i + 1;
      }
      DeadErased(State());
      ghost var before := State();
      exact := exact.(dead := []);
      GoingOn(old(State()), before, State());
    }

    method PassParents(change: string, acts: map<CallbackId, seq<Request>>) returns (called: seq<CallbackId>, ghost after: Widget)
      requires Sound(State()) && !triggeringCallbacks
      modifies this
      ensures Sound(State()) && Going(old(State()), State()) && !triggeringCallbacks
      ensures TablePass(Parents, change, acts, old(State()), called, after)
      ensures InStep(after.parents) && State() == ParentsFlushed(after) && Kept(old(children), after.children)
      ensures Sound(after) && Going(old(State()), after.(triggering := false))
    {
      ghost var before := State();
      PassBegins(before);
      hide Sound, Going, Reached, Kept, ExactKept, Flushed, Ran, NewIn;
      triggeringCallbacks := true;
      assert State() == before.(triggering := true);
      called := CallParents(change, acts);
      after := State();
      PassGoes(before, after);
      triggeringCallbacks := false;
      ghost var during := State();
      assert during == after.(triggering := false);
      FlushParents();
      GoingOn(before, during, State());
    }

    method PassChildren(change: string, acts: map<CallbackId, seq<Request>>) returns (called: seq<CallbackId>, ghost after: Widget)
      requires Sound(State()) && !triggeringCallbacks
      modifies this
      ensures Sound(State()) && Going(old(State()), State()) && !triggeringCallbacks
      ensures TablePass(Children, change, acts, old(State()), called, after)
      ensures InStep(after.children) && State() == ChildrenFlushed(after)
      ensures Sound(after) && Going(old(State()), after.(triggering := false))
    {
      ghost var before := State();
      PassBegins(before);
      hide Sound, Going, Reached, Kept, ExactKept, Flushed, Ran, NewIn;
      triggeringCallbacks := true;
      assert State() == before.(triggering := true);
      called := CallChildren(change, acts);
      after := State();
      PassGoes(before, after);
      triggeringCallbacks := false;
      ghost var during := State();
      assert during == after.(triggering := false);
      FlushChildren();
      GoingOn(before, during, State());
    }

    method PassExact(change: string, acts: map<CallbackId, seq<Request>>) returns (called: seq<CallbackId>, ghost after: Widget)
      requires Sound(State()) && !triggeringCallbacks && change in exact.lookup
      modifies this
      ensures Sound(State()) && Going(old(State()), State()) && !triggeringCallbacks
      ensures ExactPass(change, acts, old(State()), called, after)
      ensures parents == after.parents && children == after.children
      ensures LostWhenTaken(old(exact), after.exact, after.exactHistory) && after.exactHistory <= exactHistory
      ensures exact.dead == [] && forall d :: d in after.exact.dead ==> d.1 !in exact.callbacks
      ensures forall id :: id in exact.callbacks ==> exact.callbacks[id]
    {
      ghost var before := State();
      PassBegins(before);
      hide Sound, Going, ExactReached, Kept, ExactKept, Ran, NewIn;
      triggeringCallbacks := true;
      called := CallExact(change, acts);
      after := State();
      PassGoes(before, after);
      triggeringCallbacks := false;
      ghost var during := State();
      EraseDead();
      GoingLoses(before, during);
      GoingLoses(during, State());
      GoingOn(before, during, State());
    }

    /** After each of the first two passes the table works off its log. A change to a path nobody
        has asked for leaves emptied callbacks to be erased another time. */
    method TriggerChangeCallbacks(change: string, acts: map<CallbackId, seq<Request>>)
      returns (above: seq<CallbackId>, below: seq<CallbackId>, at: seq<CallbackId>, ghost marks: Marks)
      requires Sound(State()) && !triggeringCallbacks
      modifies this
      ensures Sound(State()) && Going(old(State()), State()) && !triggeringCallbacks
      ensures old(ignoreCallbacks) ==> State() == old(State()) && above == below == at == []
      ensures !old(ignoreCallbacks) ==> Told(change, acts, old(State()), above, below, at, marks)
      ensures NeverCalledAgain(parentHistory) && NeverCalledAgain(childHistory) && NeverInvokedAgain(exactHistory)
      ensures !old(ignoreCallbacks) ==>
        && CalledAbove(change, old(State()), above, parentHistory) && CalledBelow(change, old(State()), below, childHistory)
        && CalledAt(change, old(State()), at, State())
        && AllRegistered(old(parentHistory), parentHistory, parents) && AllRegistered(old(childHistory), childHistory, children)
    {
      above, below, at := [], [], [];
      ghost var s0 := State();
      marks := Marks(s0, s0, s0);
      GoingSame(s0);
      if ignoreCallbacks {
        SoundNeverCallsRemoved(s0);
        return;
      }
      hide Sound, Going, TablePass, ExactPass, Flushed, Reached, ExactReached, Kept, NeverCalledAgain, NeverInvokedAgain, CalledAbove, CalledBelow,
        CalledAt, AllRegistered, LostWhenTaken;
      ghost var p, c;
      above, p := PassParents(change, acts);
      ghost var s1 := State();
      below, c := PassChildren(change, acts);
      ghost var s2 := State();
      GoingOn(s0, s1, s2);
      marks := Marks(p, c, s2);
      GoingSame(s2);
      ghost var x := s2;
      if change in exact.lookup {
        at, x := PassExact(change, acts);
        GoingOn(s0, s2, State());
        marks := Marks(p, c, x);
      }
      SoundNeverCallsRemoved(State());
      EveryoneCalled(change, acts, s0, s1, s2, p, c, x, State(), above, below, at);
    }

    method EnableChangeCallbacks()
      modifies this`ignoreCallbacks
      ensures !ignoreCallbacks
    {
      ignoreCallbacks := false;
    }

    method DisableChangeCallbacks()
      modifies this`ignoreCallbacks
      ensures ignoreCallbacks
    {
      ignoreCallbacks := true;
    }
  }

  lemma {:induction false} Unused(used: set<CallbackId>)
    ensures exists id :: id !in used
  {
    var bound := Highest(used);
    assert CallbackId(bound + 1) !in used;
  }

  ghost function Highest(used: set<CallbackId>): (bound: int)
    ensures forall id :: id in used ==> id.number <= bound
  {
    if used == {} then 0
    else
      var id :| id in used;
      var rest := Highest(used - {id});
      if id.number > rest then id.number else rest
  }
}
