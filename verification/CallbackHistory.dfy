/** What a table of callbacks goes through: a callback removed while live is never called again. */
module CallbackHistory {
  import opened DeferredOperations
  import opened Options

  /** What a table goes through. */
  datatype Event =
    | Issued(op: Op, triggering: bool)
    | Called(id: CallbackId)
    | WorkedOff

  ghost function Effect(t: Table, e: Event): (u: Table)
    requires InStep(t)
    ensures InStep(u)
  {
    match e
    case Issued(op, triggering) => IssueKeepsStep(t, op, triggering); Issue(t, op, triggering)
    case Called(_) => t
    case WorkedOff => Flushed(t)
  }

  ghost function After(history: seq<Event>): (t: Table)
    ensures InStep(t)
  {
    if history == [] then EMPTY_TABLE else Effect(After(history[..|history| - 1]), history[|history| - 1])
  }

  /** Only what is live and not defunct is called. */
  ghost predicate MayHappen(t: Table, e: Event) {
    e.Called? ==> e.id in t.live && !t.live[e.id].defunct
  }

  ghost predicate Proper(history: seq<Event>) {
    forall i {:trigger After(history[..i])} :: 0 <= i < |history| ==> MayHappen(After(history[..i]), history[i])
  }

  /** Cannot be called as things are, nor after working off the log. */
  ghost predicate Silent(t: Table, id: CallbackId) {
    InStep(t) && (id in t.live ==> t.live[id].defunct) && Registered(t, id) == None
  }

  predicate Registers(e: Event, id: CallbackId) {
    e.Issued? && e.op.Add? && e.op.id == id
  }

  lemma SilentWhenIssued(t: Table, op: Op, triggering: bool, id: CallbackId)
    requires Silent(t, id) && !(op.Add? && op.id == id)
    ensures Silent(Issue(t, op, triggering), id)
  {
    IssueKeepsStep(t, op, triggering);
    if triggering {
      DeferredInOrder(t, op, id);
    } else if op.id == id {
      AbsentAtFirst(PathOf(t.live, id), Waiting(t), id);
    }
    hide Waiting, DirectAll, InStep;
  }

  lemma SilentStays(t: Table, e: Event, id: CallbackId)
    requires Silent(t, id) && !Registers(e, id)
    ensures Silent(Effect(t, e), id)
  {
    match e
    case Issued(op, triggering) => SilentWhenIssued(t, op, triggering, id);
    case Called(_) =>
    case WorkedOff => FlushInOrder(t, id);
  }

  /** An addition of the id waits. */
  predicate HasAdd(log: seq<Op>, id: CallbackId) {
    exists i :: 0 <= i < |log| && log[i].Add? && log[i].id == id
  }

  lemma {:induction false} NothingAdded(log: seq<Op>, id: CallbackId)
    requires !HasAdd(log, id)
    ensures !WaitsToBeAdded(log, id)
  {
    if log != [] {
      var init := log[..|log| - 1];
      assert forall i :: 0 <= i < |init| ==> init[i] == log[i];
      NothingAdded(init, id);
    }
  }

  /** Removing a callback no addition of which waits silences it, whether or not the removal
      waits. */
  lemma RemovalSilences(t: Table, id: CallbackId, triggering: bool)
    requires InStep(t) && !HasAdd(Waiting(t), id)
    ensures Silent(Issue(t, Remove(id), triggering), id)
  {
    IssueKeepsStep(t, Remove(id), triggering);
    if triggering {
      DeferredInOrder(t, Remove(id), id);
    } else {
      NothingAdded(Waiting(t), id);
      AbsentAtFirst(None, Waiting(t), id);
    }
  }

  // Ids are given out once

  ghost predicate RegisteredIn(history: seq<Event>, id: CallbackId) {
    exists i :: 0 <= i < |history| && Registers(history[i], id)
  }

  ghost predicate AddsOnce(history: seq<Event>) {
    forall i, j :: 0 <= i < j < |history| && history[i].Issued? && history[i].op.Add? ==> !Registers(history[j], history[i].op.id)
  }

  /** A live callback does not also wait to be added, and either takes having been registered. */
  ghost predicate Apart(t: Table, id: CallbackId, registered: bool) {
    InStep(t) && !(id in t.live && HasAdd(Waiting(t), id)) && (id in t.live || HasAdd(Waiting(t), id) ==> registered)
  }

  lemma HasAddSnoc(log: seq<Op>, op: Op, id: CallbackId)
    ensures HasAdd(log + [op], id) <==> HasAdd(log, id) || (op.Add? && op.id == id)
  {
    if i :| 0 <= i < |log| && log[i].Add? && log[i].id == id {
      assert (log + [op])[i] == log[i];
    }
    assert (log + [op])[|log|] == op;
  }

  lemma {:induction false} SettledLive(live: map<CallbackId, Entry>, log: seq<Op>, id: CallbackId)
    ensures id in SettleAll(live, log) ==> id in live || HasAdd(log, id)
  {
    if log != [] {
      var init, last := log[..|log| - 1], log[|log| - 1];
      SettledLive(live, init, id);
      HasAddSnoc(init, last, id);
      assert init + [last] == log;
      hide HasAdd;
    }
  }

  lemma ApartStep(t: Table, e: Event, id: CallbackId, registered: bool)
    requires Apart(t, id, registered) && !(Registers(e, id) && registered)
    ensures Apart(Effect(t, e), id, registered || Registers(e, id))
  {
    match e
    case Issued(op, triggering) =>
      IssueKeepsStep(t, op, triggering);
      HasAddSnoc(Waiting(t), op, id);
      hide HasAdd, Waiting, InStep;
    case Called(_) =>
    case WorkedOff =>
      SettledLive(t.live, Waiting(t), id);
      assert Waiting(Flushed(t)) == [];
  }

  lemma RegisteredSnoc(history: seq<Event>, e: Event, id: CallbackId)
    ensures RegisteredIn(history + [e], id) <==> RegisteredIn(history, id) || Registers(e, id)
  {
    if i :| 0 <= i < |history| && Registers(history[i], id) {
      assert (history + [e])[i] == history[i];
    }
    assert (history + [e])[|history|] == e;
  }

  lemma AddsOnceSnoc(history: seq<Event>, e: Event)
    ensures AddsOnce(history + [e])
      <==> AddsOnce(history) && !(e.Issued? && e.op.Add? && RegisteredIn(history, e.op.id))
  {
    var longer := history + [e];
    assert forall i :: 0 <= i < |history| ==> longer[i] == history[i];
    assert longer[|history|] == e;
  }

  lemma {:induction false} LiveOrWaiting(history: seq<Event>, id: CallbackId)
    requires AddsOnce(history)
    ensures Apart(After(history), id, RegisteredIn(history, id))
  {
    if history != [] {
      var init, last := history[..|history| - 1], history[|history| - 1];
      assert init + [last] == history;
      AddsOnceSnoc(init, last);
      RegisteredSnoc(init, last, id);
      LiveOrWaiting(init, id);
      hide Apart, AddsOnce, RegisteredIn;
      ApartStep(After(init), last, id, RegisteredIn(init, id));
    }
  }

  lemma AfterStep(history: seq<Event>, j: nat)
    requires 0 < j <= |history|
    ensures After(history[..j]) == Effect(After(history[..j - 1]), history[j - 1])
  {
    assert history[..j][..j - 1] == history[..j - 1];
  }

  lemma {:induction false} SilentFrom(history: seq<Event>, i: nat, j: nat, id: CallbackId)
    requires i <= j <= |history| && Silent(After(history[..i]), id)
    requires forall k :: i <= k < j ==> !Registers(history[k], id)
    ensures Silent(After(history[..j]), id)
    decreases j
  {
    if i < j {
      SilentFrom(history, i, j - 1, id);
      AfterStep(history, j);
      hide After, Effect, Silent;
      SilentStays(After(history[..j - 1]), history[j - 1], id);
    }
  }

  /** Nobody removed while live is called after that. */
  ghost predicate NeverCalledAgain(history: seq<Event>) {
    forall i, j :: 0 <= i < j < |history| && history[i].Issued? && history[i].op.Remove? && history[i].op.id in After(history[..i]).live ==>
      history[j] != Called(history[i].op.id)
  }

  lemma NotRegisteredAgain(history: seq<Event>, i: nat, k: nat, id: CallbackId)
    requires AddsOnce(history) && i <= k < |history| && RegisteredIn(history[..i], id)
    ensures !Registers(history[k], id)
  {
    var n :| 0 <= n < i && Registers(history[..i][n], id);
    assert Registers(history[n], id);
  }

  lemma AddsOncePrefix(history: seq<Event>, i: nat)
    requires AddsOnce(history) && i <= |history|
    ensures AddsOnce(history[..i])
  {
    assert forall k :: 0 <= k < i ==> history[..i][k] == history[k];
  }

  /** A callback removed while live is not called again, not even later in the same pass or
      while its removal waits, as long as ids are given out once. */
  lemma RemovedIsNeverCalled(history: seq<Event>)
    requires Proper(history) && AddsOnce(history)
    ensures NeverCalledAgain(history)
  {
    forall i, j | 0 <= i < j < |history| && history[i].Issued? && history[i].op.Remove? && history[i].op.id in After(history[..i]).live
      ensures history[j] != Called(history[i].op.id)
    {
      var id, t := history[i].op.id, After(history[..i]);
      AddsOncePrefix(history, i);
      LiveOrWaiting(history[..i], id);
      RemovalSilences(t, id, history[i].triggering);
      AfterStep(history, i + 1);
      forall k | i < k < j ensures !Registers(history[k], id) {
        NotRegisteredAgain(history, i, k, id);
      }
      SilentFrom(history, i + 1, j, id);
      assert MayHappen(After(history[..j]), history[j]);
      hide After, AddsOnce, Proper;
    }
  }

  // What was registered and never removed can be called

  ghost predicate RemovedIn(history: seq<Event>, id: CallbackId) {
    exists i :: 0 <= i < |history| && history[i].Issued? && history[i].op == Remove(id)
  }

  ghost predicate AddedAs(history: seq<Event>, id: CallbackId, path: string) {
    exists i :: 0 <= i < |history| && history[i].Issued? && history[i].op == Add(id, path)
  }

  /** The table has an id under the path it was registered for, and not defunct, or it waits to
      have it; of one that was not registered it knows nothing. */
  ghost predicate StandsFor(t: Table, id: CallbackId, registered: Option<string>) {
    InStep(t) && Stands(t.live, Waiting(t), id, registered)
  }

  ghost predicate Stands(live: map<CallbackId, Entry>, log: seq<Op>, id: CallbackId, registered: Option<string>) {
    && (forall op :: op in log && op.id == id ==> op.Add? && registered == Some(op.path))
    && (id in live ==> registered.Some? && live[id] == Entry(registered.value, false))
    && (registered.Some? && id !in live ==> exists op :: op in log && op.id == id)
  }

  lemma {:induction false} AddsSettle(live: map<CallbackId, Entry>, log: seq<Op>, id: CallbackId, path: string)
    requires forall op :: op in log && op.id == id ==> op == Add(id, path)
    requires id in live ==> live[id] == Entry(path, false)
    ensures id in SettleAll(live, log) <==> id in live || exists op :: op in log && op.id == id
    ensures id in SettleAll(live, log) ==> SettleAll(live, log)[id] == Entry(path, false)
  {
    if log != [] {
      var init, last := log[..|log| - 1], log[|log| - 1];
      assert log == init + [last];
      AddsSettle(live, init, id, path);
    }
  }

  lemma StandsDeferred(live: map<CallbackId, Entry>, log: seq<Op>, op: Op, id: CallbackId, registered: Option<string>)
    requires Stands(live, log, id, registered) && op != Remove(id) && (op.Add? && op.id == id ==> registered.None?)
    ensures Stands(live, log + [op], id, if op.Add? && op.id == id then Some(op.path) else registered)
  {
    if op.id == id {
      assert op in log + [op];
    } else if x :| x in log && x.id == id {
      assert x in log + [op];
    }
  }

  lemma StandsNow(live: map<CallbackId, Entry>, log: seq<Op>, id: CallbackId, path: string)
    requires Stands(live, log, id, None)
    ensures Stands(Emplace(live, id, path), log, id, Some(path))
    ensures id in live ==> id in Emplace(live, id, path)
  {
  }

  lemma StandsElsewhere(live: map<CallbackId, Entry>, live': map<CallbackId, Entry>, log: seq<Op>, id: CallbackId, registered: Option<string>)
    requires Stands(live, log, id, registered) && (id in live' <==> id in live) && (id in live ==> live'[id] == live[id])
    ensures Stands(live', log, id, registered)
  {
  }

  lemma LiveIssued(t: Table, op: Op, triggering: bool, id: CallbackId)
    requires op != Remove(id)
    ensures var u := Issue(t, op, triggering);
      if op.id == id && !triggering then u.live == Emplace(t.live, id, op.path)
      else (id in u.live <==> id in t.live) && (id in t.live ==> u.live[id] == t.live[id])
  {
  }

  lemma StandsForIssued(t: Table, op: Op, triggering: bool, id: CallbackId, registered: Option<string>)
    requires StandsFor(t, id, registered) && op != Remove(id) && (op.Add? && op.id == id ==> registered.None?)
    ensures StandsFor(Issue(t, op, triggering), id, if op.Add? && op.id == id then Some(op.path) else registered)
    ensures id in t.live ==> id in Issue(t, op, triggering).live
  {
    IssueKeepsStep(t, op, triggering);
    var u := Issue(t, op, triggering);
    LiveIssued(t, op, triggering, id);
    var now := if op.Add? && op.id == id then Some(op.path) else registered;
    hide Issue, Waiting, InStep, Stands;
    if triggering {
      StandsDeferred(t.live, Waiting(t), op, id, registered);
      StandsElsewhere(t.live, u.live, Waiting(u), id, now);
    } else if op.id != id {
      StandsElsewhere(t.live, u.live, Waiting(t), id, registered);
    } else {
      StandsNow(t.live, Waiting(t), id, op.path);
    }
  }

  lemma StandsForWorkedOff(t: Table, id: CallbackId, registered: Option<string>)
    requires StandsFor(t, id, registered)
    ensures StandsFor(Flushed(t), id, registered)
    ensures id in t.live || registered.Some? ==> id in Flushed(t).live
  {
    AddsSettle(t.live, Waiting(t), id, if registered.Some? then registered.value else "");
    assert InStep(Flushed(t)) && Waiting(Flushed(t)) == [];
    hide Waiting, SettleAll, InStep;
  }

  lemma StandsForOn(t: Table, e: Event, id: CallbackId, registered: Option<string>)
    requires StandsFor(t, id, registered) && !(e.Issued? && e.op == Remove(id)) && (Registers(e, id) ==> registered.None?)
    ensures StandsFor(Effect(t, e), id, if Registers(e, id) then Some(e.op.path) else registered)
    ensures id in t.live ==> id in Effect(t, e).live
    ensures e.WorkedOff? && registered.Some? ==> id in Effect(t, e).live
  {
    match e
    case Issued(op, triggering) => StandsForIssued(t, op, triggering, id, registered);
    case Called(_) =>
    case WorkedOff => StandsForWorkedOff(t, id, registered);
  }

  lemma AddedSnoc(history: seq<Event>, e: Event, id: CallbackId, path: string)
    ensures AddedAs(history + [e], id, path) <==> AddedAs(history, id, path) || (e.Issued? && e.op == Add(id, path))
    ensures RemovedIn(history + [e], id) <==> RemovedIn(history, id) || (e.Issued? && e.op == Remove(id))
    ensures AddedAs(history, id, path) ==> RegisteredIn(history, id)
  {
    var longer := history + [e];
    assert forall i :: 0 <= i < |history| ==> longer[i] == history[i];
    assert longer[|history|] == e;
    if i :| 0 <= i < |history| && history[i].Issued? && history[i].op == Add(id, path) {
      assert Registers(history[i], id);
    }
  }

  lemma {:induction false} RegisteredStandsFor(history: seq<Event>, id: CallbackId, registered: Option<string>)
    requires AddsOnce(history) && !RemovedIn(history, id)
    requires if registered.Some? then AddedAs(history, id, registered.value) else !RegisteredIn(history, id)
    ensures StandsFor(After(history), id, registered)
  {
    if history != [] {
      var init, last := history[..|history| - 1], history[|history| - 1];
      assert init + [last] == history;
      AddsOnceSnoc(init, last);
      RegisteredSnoc(init, last, id);
      var path := if registered.Some? then registered.value else "";
      AddedSnoc(init, last, id, path);
      hide AddsOnce, RegisteredIn, AddedAs, RemovedIn, StandsFor, After;
      var before := if Registers(last, id) then None else registered;
      RegisteredStandsFor(init, id, before);
      StandsForOn(After(init), last, id, before);
      AfterSnoc(init, last);
    }
  }

  lemma AfterSnoc(history: seq<Event>, e: Event)
    ensures After(history + [e]) == Effect(After(history), e)
  {
    assert (history + [e])[..|history|] == history;
  }

  /** A callback that is live and is never removed stays live under its path, whatever else
      happens to the table. */
  lemma {:induction false} RegisteredStays(history: seq<Event>, later: seq<Event>, id: CallbackId, path: string)
    requires AddsOnce(later) && history <= later && !RemovedIn(later, id)
    requires AddedAs(history, id, path) && id in After(history).live
    ensures id in After(later).live && After(later).live[id] == Entry(path, false)
    decreases |later|
  {
    if later == history {
      RegisteredStandsFor(history, id, Some(path));
    } else {
      var init, last := later[..|later| - 1], later[|later| - 1];
      assert init + [last] == later && history <= init;
      AddsOnceSnoc(init, last);
      AddedSnoc(init, last, id, path);
      AddedLonger(history, init, id, path);
      RegisteredStays(history, init, id, path);
      RegisteredStandsFor(init, id, Some(path));
      hide AddsOnce, RegisteredIn, AddedAs, RemovedIn, After;
      AfterSnoc(init, last);
      assert !Registers(last, id);
      StandsForOn(After(init), last, id, Some(path));
    }
  }

  lemma AddedLonger(history: seq<Event>, later: seq<Event>, id: CallbackId, path: string)
    requires history <= later
    ensures AddedAs(history, id, path) ==> AddedAs(later, id, path)
    ensures RemovedIn(history, id) ==> RemovedIn(later, id)
  {
    if i :| 0 <= i < |history| && history[i].Issued? && history[i].op == Add(id, path) {
      assert later[i] == history[i];
    }
    if i :| 0 <= i < |history| && history[i].Issued? && history[i].op == Remove(id) {
      assert later[i] == history[i];
    }
  }

  /** One that waits is live once the log has been worked off. */
  lemma RegisteredIsLive(history: seq<Event>, id: CallbackId, path: string)
    requires AddsOnce(history) && !RemovedIn(history, id) && AddedAs(history, id, path)
    ensures id in After(history + [WorkedOff]).live && After(history + [WorkedOff]).live[id] == Entry(path, false)
  {
    RegisteredStandsFor(history, id, Some(path));
    hide After, AddsOnce, AddedAs, RemovedIn;
    AfterSnoc(history, WorkedOff);
    StandsForOn(After(history), WorkedOff, id, Some(path));
  }
}
