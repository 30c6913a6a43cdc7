/** A table of callbacks whose additions and removals wait in a log while callbacks are being
    called (Editor/DocumentEditorWidgetBase.cpp). Parent and child callbacks have one each. */
module DeferredOperations {
  import opened Options

  datatype CallbackId = CallbackId(number: int)

  datatype Entry = Entry(path: string, defunct: bool)

  /** The log has 1 for an addition and 0 for a removal; what they are about is in two more lists. */
  datatype Table = Table(
    live: map<CallbackId, Entry>,
    operations: seq<int>,
    added: seq<(CallbackId, string)>,
    dead: seq<CallbackId>)

  const EMPTY_TABLE := Table(map[], [], [], [])

  datatype Op = Add(id: CallbackId, path: string) | Remove(id: CallbackId)

  function Emplace(live: map<CallbackId, Entry>, id: CallbackId, path: string): map<CallbackId, Entry> {
    if id in live then live else live[id := Entry(path, false)]
  }

  /** What issuing an operation does: at once, or while callbacks are being called. */
  function Issue(t: Table, op: Op, triggering: bool): Table {
    match op
    case Add(id, path) =>
      if triggering then t.(operations := t.operations + [1], added := t.added + [(id, path)])
      else t.(live := Emplace(t.live, id, path))
    case Remove(id) =>
      if triggering then
        t.(operations := t.operations + [0], dead := t.dead + [id],
           live := if id in t.live then t.live[id := t.live[id].(defunct := true)] else t.live)
      else t.(live := t.live - {id})
  }

  // The log

  function Zeros(operations: seq<int>): nat {
    if operations == [] then 0
    else Zeros(operations[..|operations| - 1]) + if operations[|operations| - 1] == 0 then 1 else 0
  }

  /** Lists of operations, additions and removals are in step. */
  ghost predicate ListsInStep(operations: seq<int>, added: seq<(CallbackId, string)>, dead: seq<CallbackId>) {
    |dead| == Zeros(operations) && |added| == |operations| - Zeros(operations)
  }

  ghost predicate InStep(t: Table) {
    ListsInStep(t.operations, t.added, t.dead)
  }

  /** The operations, in the order they were issued. */
  ghost function Log(operations: seq<int>, added: seq<(CallbackId, string)>, dead: seq<CallbackId>): (log: seq<Op>)
    requires ListsInStep(operations, added, dead)
    ensures |log| == |operations|
  {
    if operations == [] then []
    else
      var n, a, d := |operations| - 1, |added| - 1, |dead| - 1;
      ZerosPrefix(operations, n);
      if operations[n] == 0 then Log(operations[..n], added, dead[..d]) + [Remove(dead[d])]
      else Log(operations[..n], added[..a], dead) + [Add(added[a].0, added[a].1)]
  }

  lemma {:induction false} ZerosPrefix(operations: seq<int>, n: nat)
    requires n <= |operations|
    ensures Zeros(operations[..n]) <= n
    ensures Zeros(operations[..n]) <= Zeros(operations)
    ensures n - Zeros(operations[..n]) <= |operations| - Zeros(operations)
    ensures n < |operations| && operations[n] == 0 ==> Zeros(operations[..n]) < Zeros(operations)
    ensures n < |operations| && operations[n] != 0 ==> n - Zeros(operations[..n]) < |operations| - Zeros(operations)
    decreases |operations|
  {
    if n == |operations| {
      assert operations[..n] == operations;
      if n > 0 {
        ZerosPrefix(operations[..n - 1], n - 1);
        assert operations[..n - 1][..n - 1] == operations[..n - 1];
      }
    } else {
      var m := |operations| - 1;
      ZerosPrefix(operations[..m], n);
      assert operations[..m][..n] == operations[..n];
    }
  }

  /** What waits. */
  ghost function Waiting(t: Table): seq<Op>
    requires InStep(t)
  {
    Log(t.operations, t.added, t.dead)
  }

  lemma RemovalLogged(operations: seq<int>, added: seq<(CallbackId, string)>, dead: seq<CallbackId>, id: CallbackId)
    requires ListsInStep(operations, added, dead)
    ensures ListsInStep(operations + [0], added, dead + [id])
    ensures Log(operations + [0], added, dead + [id]) == Log(operations, added, dead) + [Remove(id)]
  {
    assert (operations + [0])[..|operations|] == operations;
    assert (dead + [id])[..|dead|] == dead;
  }

  lemma AdditionLogged(operations: seq<int>, added: seq<(CallbackId, string)>, dead: seq<CallbackId>, id: CallbackId, path: string)
    requires ListsInStep(operations, added, dead)
    ensures ListsInStep(operations + [1], added + [(id, path)], dead)
    ensures Log(operations + [1], added + [(id, path)], dead) == Log(operations, added, dead) + [Add(id, path)]
  {
    assert (operations + [1])[..|operations|] == operations;
    assert (added + [(id, path)])[..|added|] == added;
  }

  lemma IssueKeepsStep(t: Table, op: Op, triggering: bool)
    requires InStep(t)
    ensures var u := Issue(t, op, triggering);
      InStep(u) && Waiting(u) == if triggering then Waiting(t) + [op] else Waiting(t)
  {
    match op
    case Add(id, path) => AdditionLogged(t.operations, t.added, t.dead, id, path);
    case Remove(id) => RemovalLogged(t.operations, t.added, t.dead, id);
    hide Log, ListsInStep;
  }

  // Issue order

  /** What an operation makes of what an id is registered for. */
  function Direct(path: Option<string>, op: Op, id: CallbackId): Option<string> {
    if op.id != id then path
    else match op
      case Add(_, new') => if path.Some? then path else Some(new')
      case Remove(_) => None
  }

  function DirectAll(path: Option<string>, log: seq<Op>, id: CallbackId): Option<string> {
    if log == [] then path else Direct(DirectAll(path, log[..|log| - 1], id), log[|log| - 1], id)
  }

  function PathOf(live: map<CallbackId, Entry>, id: CallbackId): Option<string> {
    if id in live then Some(live[id].path) else None
  }

  /** What an id will be registered for once the log has been worked off. */
  ghost function Registered(t: Table, id: CallbackId): Option<string>
    requires InStep(t)
  {
    DirectAll(PathOf(t.live, id), Waiting(t), id)
  }

  /** The last operation on an id that waits is an addition. */
  predicate WaitsToBeAdded(log: seq<Op>, id: CallbackId) {
    log != [] &&
    var last := log[|log| - 1];
    if last.id == id then last.Add? else WaitsToBeAdded(log[..|log| - 1], id)
  }

  predicate Mentions(log: seq<Op>, id: CallbackId) {
    exists i :: 0 <= i < |log| && log[i].id == id
  }

  lemma {:induction false} UnmentionedStays(path: Option<string>, log: seq<Op>, id: CallbackId)
    requires !Mentions(log, id)
    ensures DirectAll(path, log, id) == path
  {
    if log != [] {
      var init := log[..|log| - 1];
      assert log[|log| - 1].id != id;
      assert forall i :: 0 <= i < |init| ==> init[i] == log[i];
      UnmentionedStays(path, init, id);
    }
  }

  lemma {:induction false} AbsentAtFirst(path: Option<string>, log: seq<Op>, id: CallbackId)
    ensures DirectAll(None, log, id).Some? <==> WaitsToBeAdded(log, id)
    ensures DirectAll(path, log, id) == None ==> DirectAll(None, log, id) == None
  {
    if log != [] {
      AbsentAtFirst(path, log[..|log| - 1], id);
    }
  }

  lemma DirectSnoc(path: Option<string>, log: seq<Op>, op: Op, id: CallbackId)
    ensures DirectAll(path, log + [op], id) == Direct(DirectAll(path, log, id), op, id)
  {
    assert (log + [op])[..|log|] == log;
    hide Direct;
  }

  /** An operation that waits comes out, for every id, as if carried out when it was issued. */
  lemma DeferredInOrder(t: Table, op: Op, id: CallbackId)
    requires InStep(t)
    ensures InStep(Issue(t, op, true))
    ensures Registered(Issue(t, op, true), id) == Direct(Registered(t, id), op, id)
  {
    IssueKeepsStep(t, op, true);
    assert PathOf(Issue(t, op, true).live, id) == PathOf(t.live, id);
    hide PathOf, Direct, DirectAll, Issue, Waiting;
    DirectSnoc(PathOf(t.live, id), Waiting(t), op, id);
  }

  /** So does an addition carried out at once, under a new id. */
  lemma AdditionInOrder(t: Table, added: CallbackId, path: string, id: CallbackId)
    requires InStep(t) && added !in t.live && !Mentions(Waiting(t), added)
    ensures InStep(Issue(t, Add(added, path), false))
    ensures Registered(Issue(t, Add(added, path), false), id) == Direct(Registered(t, id), Add(added, path), id)
  {
    IssueKeepsStep(t, Add(added, path), false);
    UnmentionedStays(PathOf(t.live, added), Waiting(t), added);
    UnmentionedStays(Some(path), Waiting(t), added);
  }

  /** A removal carried out at once does for all other ids, and for its own exactly when that is
      not still waiting to be added. */
  lemma RemovalInOrder(t: Table, removed: CallbackId, id: CallbackId)
    requires InStep(t)
    ensures InStep(Issue(t, Remove(removed), false))
    ensures Registered(Issue(t, Remove(removed), false), id) == Direct(Registered(t, id), Remove(removed), id)
      <==> id != removed || !WaitsToBeAdded(Waiting(t), removed)
  {
    IssueKeepsStep(t, Remove(removed), false);
    AbsentAtFirst(None, Waiting(t), removed);
    assert id != removed ==> PathOf(Issue(t, Remove(removed), false).live, id) == PathOf(t.live, id);
  }

  /** An addition made while child callbacks are called waits for the next pass; a removal
      before that pass does not find it, and the pass brings the callback in after all. */
  lemma RemovalOvertaken(id: CallbackId, path: string)
    ensures var t := Issue(Issue(EMPTY_TABLE, Add(id, path), true), Remove(id), false);
      InStep(t) && Registered(t, id) == Some(path)
  {
    var t := Issue(EMPTY_TABLE, Add(id, path), true);
    assert InStep(EMPTY_TABLE);
    IssueKeepsStep(EMPTY_TABLE, Add(id, path), true);
    IssueKeepsStep(t, Remove(id), false);
    var u := Issue(t, Remove(id), false);
    assert Waiting(u) == Waiting(t) == [] + [Add(id, path)];
    DirectSnoc(None, [], Add(id, path), id);
  }

  // Working off the log

  function Settle(live: map<CallbackId, Entry>, op: Op): map<CallbackId, Entry> {
    match op
    case Add(id, path) => Emplace(live, id, path)
    case Remove(id) => live - {id}
  }

  function SettleAll(live: map<CallbackId, Entry>, log: seq<Op>): map<CallbackId, Entry> {
    if log == [] then live else Settle(SettleAll(live, log[..|log| - 1]), log[|log| - 1])
  }

  ghost function Flushed(t: Table): Table
    requires InStep(t)
  {
    Table(SettleAll(t.live, Waiting(t)), [], [], [])
  }

  lemma {:induction false} SettledPath(live: map<CallbackId, Entry>, log: seq<Op>, id: CallbackId)
    ensures PathOf(SettleAll(live, log), id) == DirectAll(PathOf(live, id), log, id)
  {
    if log != [] {
      SettledPath(live, log[..|log| - 1], id);
    }
  }

  /** Working off the log leaves what issue order says. */
  lemma FlushInOrder(t: Table, id: CallbackId)
    requires InStep(t)
    ensures InStep(Flushed(t))
    ensures Registered(Flushed(t), id) == Registered(t, id) == PathOf(Flushed(t).live, id)
  {
    SettledPath(t.live, Waiting(t), id);
    NothingSettles(t.live);
  }

  lemma SettleSnoc(live: map<CallbackId, Entry>, log: seq<Op>, op: Op)
    ensures SettleAll(live, log + [op]) == Settle(SettleAll(live, log), op)
  {
    assert (log + [op])[..|log|] == log;
    hide Settle;
  }

  lemma SettleOne(live: map<CallbackId, Entry>, op: Op)
    ensures Settle(live, op) == if op.Remove? then live - {op.id} else Emplace(live, op.id, op.path)
  {
  }

  /** Where the next operation finds what it is about, when z removals came before it. */
  lemma NextOperation(t: Table, i: nat, z: nat)
    requires InStep(t) && i < |t.operations| && z == Zeros(t.operations[..i])
    requires z <= i && z <= |t.dead| && i - z <= |t.added|
    ensures if t.operations[i] == 0 then z < |t.dead| else i - z < |t.added|
    ensures Zeros(t.operations[..i + 1]) == if t.operations[i] == 0 then z + 1 else z
    ensures Log(t.operations[..i + 1], if t.operations[i] == 0 then t.added[..i - z] else t.added[..i - z + 1],
                if t.operations[i] == 0 then t.dead[..z + 1] else t.dead[..z])
      == Log(t.operations[..i], t.added[..i - z], t.dead[..z])
        + [if t.operations[i] == 0 then Remove(t.dead[z]) else Add(t.added[i - z].0, t.added[i - z].1)]
  {
    ZerosPrefix(t.operations, i);
    assert t.operations[..i + 1][..i] == t.operations[..i];
    if t.operations[i] == 0 {
      assert t.dead[..z + 1][..z] == t.dead[..z];
    } else {
      assert t.added[..i - z + 1][..i - z] == t.added[..i - z];
    }
  }

  lemma NothingSettles(live: map<CallbackId, Entry>)
    ensures Zeros([]) == 0 && Log([], [], []) == [] && SettleAll(live, []) == live
  {
  }

  method Flush(t: Table) returns (u: Table)
    requires InStep(t)
    ensures u == Flushed(t)
  {
    var live := t.live;
    var newIndex, deadIndex, i := 0, 0, 0;
    hide Zeros, Log, SettleAll, Settle;
    NothingSettles(t.live);
    assert t.operations[..0] == [] && t.added[..0] == [] && t.dead[..0] == [];
    while i < |t.operations|
      invariant i <= |t.operations| && deadIndex <= |t.dead| && newIndex <= |t.added|
      invariant deadIndex == Zeros(t.operations[..i]) && newIndex == i - deadIndex
      invariant live == SettleAll(t.live, Log(t.operations[..i], t.added[..newIndex], t.dead[..deadIndex]))
    {
      ghost var log := Log(t.operations[..i], t.added[..newIndex], t.dead[..deadIndex]);
      NextOperation(t, i, deadIndex);
      if t.operations[i] == 0 {
        SettleSnoc(t.live, log, Remove(t.dead[deadIndex]));
        SettleOne(SettleAll(t.live, log), Remove(t.dead[deadIndex]));
        live := live - {t.dead[deadIndex]};
        deadIndex := deadIndex + 1;
      } else {
        SettleSnoc(t.live, log, Add(t.added[newIndex].0, t.added[newIndex].1));
        SettleOne(SettleAll(t.live, log), Add(t.added[newIndex].0, t.added[newIndex].1));
        live := Emplace(live, t.added[newIndex].0, t.added[newIndex].1);
        newIndex := newIndex + 1;
      }
      i := i + 1;
    }
    assert t.operations[..i] == t.operations && t.added[..newIndex] == t.added && t.dead[..deadIndex] == t.dead;
    u := Table(live, [], [], []);
  }
}
