/** The client's entities for the server's objects (GameClient/GameClientEntitySync.cpp). */
module GameClientEntitySync {
  import opened Options

  datatype EntityHandle = EntityHandle(number: int)

  /** A server object by its index, with the asset of the entity it is bound to, if any. */
  datatype ServerObject = ServerObject(index: nat, binding: Option<string>)

  /** Live entities and the assets they were made from. */
  type Engine = map<EntityHandle, string>

  /** Handles by index; an index may have none, or one whose entity is gone. */
  type Slots = seq<Option<EntityHandle>>

  predicate HasAt(slots: Slots, i: nat) { i < |slots| && slots[i].Some? }

  /** The live entity at an index. */
  function LiveAt(slots: Slots, engine: Engine, i: nat): Option<EntityHandle> {
    if HasAt(slots, i) && slots[i].value in engine then slots[i] else None
  }

  /** Server objects come in ascending order of index. */
  ghost predicate Ascending(objects: seq<ServerObject>) {
    forall i, j :: 0 <= i < j < |objects| ==> objects[i].index < objects[j].index
  }

  /** No two indices share a handle. */
  ghost predicate Unshared(slots: Slots) {
    forall i, j :: 0 <= i < j < |slots| && slots[i].Some? && slots[j].Some? ==> slots[i] != slots[j]
  }

  /** Handles are given out in order, so what is in use has a lower number. */
  ghost predicate Issued(slots: Slots, engine: Engine, next: int) {
    && (forall h :: h in engine ==> h.number < next)
    && forall i :: 0 <= i < |slots| && slots[i].Some? ==> slots[i].value.number < next
  }

  /** The binding of the first n objects at an index. */
  function BindingAt(objects: seq<ServerObject>, n: nat, i: nat): Option<string>
    requires n <= |objects|
  {
    if n == 0 then None
    else if objects[n - 1].index == i then objects[n - 1].binding
    else BindingAt(objects, n - 1, i)
  }

  lemma {:induction false} BindingBelow(objects: seq<ServerObject>, n: nat, i: nat)
    requires Ascending(objects) && n <= |objects| && (n > 0 ==> objects[n - 1].index < i)
    ensures BindingAt(objects, n, i) == None
  {
    if n > 0 {
      BindingBelow(objects, n - 1, i);
    }
  }

  /** What should be at an index: an entity that has the asset already stays; another is
      replaced; without a binding, or when the asset is not loaded, there is none. */
  ghost predicate SyncedAt(slots: Slots, engine: Engine, slots': Slots, engine': Engine, next: int,
    loaded: set<string>, binding: Option<string>, i: nat)
  {
    var was, now := LiveAt(slots, engine, i), LiveAt(slots', engine', i);
    if binding.None? then now == None
    else if was.Some? && engine[was.value] == binding.value then now == was && engine'[was.value] == binding.value
    else if binding.value in loaded then now.Some? && engine'[now.value] == binding.value && now.value.number >= next
    else now == None
  }

  /** An index a sweep has not come to. */
  ghost predicate SameAt(slots: Slots, engine: Engine, slots': Slots, engine': Engine, i: nat) {
    && (HasAt(slots', i) <==> HasAt(slots, i)) && (HasAt(slots, i) ==> slots'[i] == slots[i])
    && LiveAt(slots', engine', i) == LiveAt(slots, engine, i)
    && (LiveAt(slots, engine, i).Some? ==> engine'[LiveAt(slots, engine, i).value] == engine[LiveAt(slots, engine, i).value])
  }

  predicate Tracked(slots: Slots, h: EntityHandle) { Some(h) in slots }

  /** Entities that are not the client's own stay as they are. */
  ghost predicate OthersKept(slots: Slots, engine: Engine, engine': Engine) {
    forall h :: h in engine && !Tracked(slots, h) ==> h in engine' && engine'[h] == engine[h]
  }

  ghost predicate OnlyNew(slots: Slots, slots': Slots, next: int) {
    forall h :: Tracked(slots', h) ==> Tracked(slots, h) || h.number >= next
  }

  /** Every entity there is either was there and is not the client's own, or lives at an index;
      so one that was replaced or lost its binding is gone. */
  ghost predicate NoneForgotten(slots: Slots, engine: Engine, slots': Slots, engine': Engine) {
    forall h :: h in engine' ==> (h in engine && !Tracked(slots, h)) || LivesSomewhere(slots', engine', h)
  }

  ghost predicate LivesSomewhere(slots: Slots, engine: Engine, h: EntityHandle) {
    exists i: nat :: LiveAt(slots, engine, i) == Some(h)
  }

  lemma NoneForgottenOn(s0: Slots, e0: Engine, s: Slots, e: Engine, s': Slots, e': Engine)
    requires NoneForgotten(s0, e0, s, e) && NoneForgotten(s, e, s', e')
    ensures NoneForgotten(s0, e0, s', e')
  {
    forall h | h in e' && !LivesSomewhere(s', e', h) ensures h in e0 && !Tracked(s0, h) {
      assert h in e && !Tracked(s, h);
      assert !LivesSomewhere(s, e, h);
    }
  }

  /** Of the entities at an index the one that does not stay goes, and no other comes. */
  ghost predicate ReplacedAt(slots: Slots, engine: Engine, slots': Slots, engine': Engine, i: nat) {
    var was, now := LiveAt(slots, engine, i), LiveAt(slots', engine', i);
    && (was.Some? && now != was ==> was.value !in engine')
    && forall h :: h in engine' && h !in engine ==> now == Some(h)
  }

  lemma OnlyAtReplaces(slots: Slots, engine: Engine, slots': Slots, engine': Engine, next: int, i: nat)
    requires Unshared(slots) && OnlyAt(slots, engine, slots', engine', next, i)
    ensures ReplacedAt(slots, engine, slots', engine', i)
  {
    forall h | h in engine' && LivesSomewhere(slots', engine', h) && LiveAt(slots', engine', i) != Some(h)
      ensures h in engine && LiveAt(slots, engine, i) != Some(h)
    {
      var j: nat :| LiveAt(slots', engine', j) == Some(h);
      assert SameAt(slots, engine, slots', engine', j);
    }
    var was := LiveAt(slots, engine, i);
    assert was.Some? ==> Tracked(slots, was.value);
  }

  /** A step that concerns one index. */
  ghost predicate OnlyAt(slots: Slots, engine: Engine, slots': Slots, engine': Engine, next: int, i: nat) {
    && (forall j: nat :: j != i ==> SameAt(slots, engine, slots', engine', j))
    && OthersKept(slots, engine, engine') && OnlyNew(slots, slots', next)
    && NoneForgotten(slots, engine, slots', engine')
  }

  lemma DestroyedAt(slots: Slots, engine: Engine, next: int, i: nat)
    requires Unshared(slots) && Issued(slots, engine, next) && HasAt(slots, i)
    ensures var engine' := engine - {slots[i].value};
      && OnlyAt(slots, engine, slots, engine', next, i) && LiveAt(slots, engine', i) == None
      && Issued(slots, engine', next)
  {
    var engine' := engine - {slots[i].value};
    assert Tracked(slots, slots[i].value);
    forall h | h in engine' && Tracked(slots, h) ensures LivesSomewhere(slots, engine', h) {
      var j: nat :| j < |slots| && slots[j] == Some(h);
      assert LiveAt(slots, engine', j) == Some(h);
    }
  }

  function InsertAt(slots: Slots, i: nat, h: EntityHandle): (slots': Slots)
    ensures |slots'| == if i < |slots| then |slots| else i + 1
    ensures forall j :: 0 <= j < |slots'| ==>
      slots'[j] == if j == i then Some(h) else if j < |slots| then slots[j] else None
  {
    var wide := if i < |slots| then slots else slots + seq(i + 1 - |slots|, _ => None);
    wide[i := Some(h)]
  }

  lemma InsertedAt(slots: Slots, engine: Engine, next: int, i: nat, asset: string)
    requires Unshared(slots) && Issued(slots, engine, next) && LiveAt(slots, engine, i) == None
    ensures var h := EntityHandle(next); var slots', engine' := InsertAt(slots, i, h), engine[h := asset];
      && OnlyAt(slots, engine, slots', engine', next, i) && LiveAt(slots', engine', i) == Some(h)
      && Unshared(slots') && Issued(slots', engine', next + 1)
  {
    var h := EntityHandle(next);
    var slots' := InsertAt(slots, i, h);
    forall x | Tracked(slots', x) ensures Tracked(slots, x) || x.number >= next {
      var j :| 0 <= j < |slots'| && slots'[j] == Some(x);
      assert j != i ==> slots[j] == Some(x);
    }
    var engine' := engine[h := asset];
    forall x | x in engine' && (x == h || Tracked(slots, x)) ensures LivesSomewhere(slots', engine', x) {
      if x == h {
        assert LiveAt(slots', engine', i) == Some(x);
      } else {
        var j: nat :| j < |slots| && slots[j] == Some(x);
        assert LiveAt(slots, engine, j) == Some(x);
        assert LiveAt(slots', engine', j) == Some(x);
      }
    }
  }

  lemma SameAtOn(s0: Slots, e0: Engine, s: Slots, e: Engine, s': Slots, e': Engine, i: nat)
    requires SameAt(s0, e0, s, e, i) && SameAt(s, e, s', e', i)
    ensures SameAt(s0, e0, s', e', i)
  {
  }

  lemma SyncedAtOn(s0: Slots, e0: Engine, s: Slots, e: Engine, s': Slots, e': Engine, next: int,
    loaded: set<string>, binding: Option<string>, i: nat)
    requires SyncedAt(s0, e0, s, e, next, loaded, binding, i) && SameAt(s, e, s', e', i)
    ensures SyncedAt(s0, e0, s', e', next, loaded, binding, i)
  {
  }

  /** A sweep that has seen the first n objects and come to an index. */
  ghost predicate Swept(s0: Slots, e0: Engine, next0: int, s: Slots, e: Engine, loaded: set<string>,
    objects: seq<ServerObject>, n: nat, last: nat)
    requires n <= |objects|
  {
    && (forall i: nat :: i < last ==> SyncedAt(s0, e0, s, e, next0, loaded, BindingAt(objects, n, i), i))
    && (forall i: nat :: i >= last ==> SameAt(s0, e0, s, e, i))
    && OthersKept(s0, e0, e) && OnlyNew(s0, s, next0) && NoneForgotten(s0, e0, s, e)
  }

  lemma NothingForgotten(slots: Slots, engine: Engine)
    ensures NoneForgotten(slots, engine, slots, engine)
  {
    forall h | h in engine && Tracked(slots, h) ensures LivesSomewhere(slots, engine, h) {
      var j: nat :| j < |slots| && slots[j] == Some(h);
      assert LiveAt(slots, engine, j) == Some(h);
    }
  }

  lemma SweepStep(s0: Slots, e0: Engine, next0: int, s: Slots, e: Engine, next: int, s': Slots, e': Engine,
    loaded: set<string>, objects: seq<ServerObject>, n: nat, last: nat)
    requires n <= |objects| && Swept(s0, e0, next0, s, e, loaded, objects, n, last) && Issued(s0, e0, next0) && next0 <= next
    requires OnlyAt(s, e, s', e', next, last)
    requires SyncedAt(s0, e0, s', e', next0, loaded, BindingAt(objects, n, last), last)
    ensures Swept(s0, e0, next0, s', e', loaded, objects, n, last + 1)
  {
    NoneForgottenOn(s0, e0, s, e, s', e');
    hide SyncedAt, SameAt, Tracked, BindingAt, NoneForgotten;
    forall i: nat | i < last
      ensures SyncedAt(s0, e0, s', e', next0, loaded, BindingAt(objects, n, i), i)
    {
      SyncedAtOn(s0, e0, s, e, s', e', next0, loaded, BindingAt(objects, n, i), i);
    }
    forall i: nat | i > last
      ensures SameAt(s0, e0, s', e', i)
    {
      SameAtOn(s0, e0, s, e, s', e', i);
    }
  }

  lemma SweepNext(s0: Slots, e0: Engine, next0: int, s: Slots, e: Engine, loaded: set<string>, objects: seq<ServerObject>, n: nat)
    requires n < |objects| && Swept(s0, e0, next0, s, e, loaded, objects, n, objects[n].index)
    ensures Swept(s0, e0, next0, s, e, loaded, objects, n + 1, objects[n].index)
  {
    hide SyncedAt, SameAt, OthersKept, OnlyNew, NoneForgotten;
    var m := n + 1;
    forall i: nat | i < objects[n].index
      ensures SyncedAt(s0, e0, s, e, next0, loaded, BindingAt(objects, m, i), i)
    {
      assert BindingAt(objects, m, i) == BindingAt(objects, n, i);
    }
  }

  class GameClientEntitySync {
    var entities: Slots
    var engine: Engine
    var nextHandle: int

    constructor (engine: Engine, nextHandle: int)
      requires Issued([], engine, nextHandle)
      ensures Valid() && this.engine == engine && this.nextHandle == nextHandle && entities == []
    {
      entities, this.engine, this.nextHandle := [], engine, nextHandle;
    }

    ghost predicate Valid()
      reads this
    {
      Unshared(entities) && Issued(entities, engine, nextHandle)
    }

    /** The entity at an index goes, if there is one. */
    method DestroyAt(i: nat)
      requires Valid()
      modifies this`engine
      ensures Valid() && OnlyAt(entities, old(engine), entities, engine, nextHandle, i) && LiveAt(entities, engine, i) == None
    {
      NothingForgotten(entities, engine);
      if HasAt(entities, i) {
        DestroyedAt(entities, engine, nextHandle, i);
        engine := engine - {entities[i].value};
      }
    }

    method CreateAt(i: nat, asset: string)
      requires Valid() && LiveAt(entities, engine, i) == None
      modifies this
      ensures Valid() && OnlyAt(old(entities), old(engine), entities, engine, old(nextHandle), i)
      ensures LiveAt(entities, engine, i) == Some(EntityHandle(old(nextHandle))) && nextHandle == old(nextHandle) + 1
      ensures engine[EntityHandle(old(nextHandle))] == asset
    {
      InsertedAt(entities, engine, nextHandle, i, asset);
      var h := EntityHandle(nextHandle);
      nextHandle := nextHandle + 1;
      engine := engine[h := asset];
      entities := InsertAt(entities, i, h);
    }

    /** One server object. The entity at its index that does not stay leaves the engine. */
    method Visit(i: nat, binding: Option<string>, loaded: set<string>)
      requires Valid()
      modifies this
      ensures Valid() && nextHandle >= old(nextHandle)
      ensures OnlyAt(old(entities), old(engine), entities, engine, old(nextHandle), i)
      ensures SyncedAt(old(entities), old(engine), entities, engine, old(nextHandle), loaded, binding, i)
      ensures ReplacedAt(old(entities), old(engine), entities, engine, i)
    {
      ghost var e0 := engine;
      if binding.None? {
        DestroyAt(i);
        OnlyAtReplaces(old(entities), e0, entities, engine, old(nextHandle), i);
        return;
      }
      var live := LiveAt(entities, engine, i);
      if live.Some? && engine[live.value] == binding.value {
        NothingForgotten(entities, engine);
        return;
      }
      DestroyAt(i);
      if binding.value !in loaded {
        OnlyAtReplaces(old(entities), e0, entities, engine, old(nextHandle), i);
        return;
      }
      ghost var e1 := engine;
      CreateAt(i, binding.value);
      OnlyAtOn(old(entities), e0, old(entities), e1, entities, engine, old(nextHandle), i);
      OnlyAtReplaces(old(entities), e0, entities, engine, old(nextHandle), i);
    }

    /** Afterwards every index has the entity its server object asks for, and nothing else of
        the client's is left in the engine. */
    method Sync(objects: seq<ServerObject>, loaded: set<string>)
      requires Valid() && Ascending(objects)
      modifies this
      ensures Valid() && nextHandle >= old(nextHandle)
      ensures forall i: nat :: SyncedAt(old(entities), old(engine), entities, engine, old(nextHandle), loaded, BindingAt(objects, |objects|, i), i)
      ensures OthersKept(old(entities), old(engine), engine)
      ensures NoneForgotten(old(entities), old(engine), entities, engine)
    {
      ghost var s0, e0, next0 := entities, engine, nextHandle;
      NothingForgotten(s0, e0);
      var last, n := 0, 0;
      while n < |objects|
        invariant n <= |objects| && last == (if n == 0 then 0 else objects[n - 1].index + 1)
        invariant Valid() && nextHandle >= next0
        invariant Swept(s0, e0, next0, entities, engine, loaded, objects, n, last)
      {
        var index := objects[n].index;
        last := SweepTo(s0, e0, next0, loaded, objects, n, last, index);
        SweepNext(s0, e0, next0, entities, engine, loaded, objects, n);
        ghost var s, e, next := entities, engine, nextHandle;
        Visit(index, objects[n].binding, loaded);
        SyncedFromSame(s0, e0, next0, s, e, next, entities, engine, loaded, objects[n].binding, index);
        SweepStep(s0, e0, next0, s, e, next, entities, engine, loaded, objects, n + 1, index);
        last, n := last + 1, n + 1;
      }
      if last < |entities| {
        last := SweepTo(s0, e0, next0, loaded, objects, n, last, |entities|);
      }
      forall i: nat
        ensures SyncedAt(s0, e0, entities, engine, next0, loaded, BindingAt(objects, |objects|, i), i)
      {
        if i >= last {
          BindingBelow(objects, |objects|, i);
          assert SameAt(s0, e0, entities, engine, i);
        }
      }
    }

    /** Indices the server has no object for. */
    method SweepTo(ghost s0: Slots, ghost e0: Engine, ghost next0: int, ghost loaded: set<string>,
        ghost objects: seq<ServerObject>, ghost n: nat, from: nat, end: nat)
      returns (last: nat)
      requires Valid() && Ascending(objects) && n <= |objects| && from <= end && Issued(s0, e0, next0) && next0 <= nextHandle
      requires n > 0 ==> objects[n - 1].index < from
      requires Swept(s0, e0, next0, entities, engine, loaded, objects, n, from)
      modifies this`engine
      ensures Valid() && last == end && Swept(s0, e0, next0, entities, engine, loaded, objects, n, end)
    {
      last := from;
      while last != end
        invariant from <= last <= end && Valid()
        invariant Swept(s0, e0, next0, entities, engine, loaded, objects, n, last)
        decreases end - last
      {
        ghost var e := engine;
        DestroyAt(last);
        BindingBelow(objects, n, last);
        SweepStep(s0, e0, next0, entities, e, nextHandle, entities, engine, loaded, objects, n, last);
        last := last + 1;
      }
    }

    /** Every entity of the client's goes. */
    method DestroyAll()
      requires Valid()
      modifies this
      ensures Valid() && entities == [] && OthersKept(old(entities), old(engine), engine)
      ensures forall h :: h in engine ==> h in old(engine) && !Tracked(old(entities), h)
    {
      var i := 0;
      while i < |entities|
        invariant i <= |entities| && Valid() && entities == old(entities)
        invariant OthersKept(entities, old(engine), engine)
        invariant forall h :: h in engine ==> h in old(engine) && forall j :: 0 <= j < i ==> entities[j] != Some(h)
      {
        if entities[i].Some? {
          assert Tracked(entities, entities[i].value);
          engine := engine - {entities[i].value};
        }
        i := i + 1;
      }
      entities := [];
    }
  }

  lemma OnlyAtOn(s: Slots, e: Engine, s1: Slots, e1: Engine, s2: Slots, e2: Engine, next: int, i: nat)
    requires OnlyAt(s, e, s1, e1, next, i) && OnlyAt(s1, e1, s2, e2, next, i) && Issued(s, e, next)
    ensures OnlyAt(s, e, s2, e2, next, i)
  {
    NoneForgottenOn(s, e, s1, e1, s2, e2);
    hide SameAt, Tracked, NoneForgotten;
    forall j: nat | j != i ensures SameAt(s, e, s2, e2, j) {
      SameAtOn(s, e, s1, e1, s2, e2, j);
    }
  }

  lemma SyncedFromSame(s0: Slots, e0: Engine, next0: int, s: Slots, e: Engine, next: int, s': Slots, e': Engine,
    loaded: set<string>, binding: Option<string>, i: nat)
    requires SameAt(s0, e0, s, e, i) && next0 <= next && SyncedAt(s, e, s', e', next, loaded, binding, i)
    ensures SyncedAt(s0, e0, s', e', next0, loaded, binding, i)
  {
  }

  /** What the objects ask for at an index: an asset that is loaded, or that the entity there
      has already. */
  ghost predicate Wanted(slots: Slots, engine: Engine, loaded: set<string>, objects: seq<ServerObject>, i: nat, asset: string) {
    && (exists k :: 0 <= k < |objects| && objects[k] == ServerObject(i, Some(asset)))
    && (asset in loaded || (LiveAt(slots, engine, i).Some? && engine[LiveAt(slots, engine, i).value] == asset))
  }

  /** Put the other way round: after a sync an entity of an asset lives at an index exactly when
      an object there is bound to that asset, and it is loaded or was there. */
  lemma LiveExactlyWhenBound(slots: Slots, engine: Engine, slots': Slots, engine': Engine, next: int, loaded: set<string>,
    objects: seq<ServerObject>, i: nat, asset: string)
    requires Ascending(objects)
    requires SyncedAt(slots, engine, slots', engine', next, loaded, BindingAt(objects, |objects|, i), i)
    ensures var now := LiveAt(slots', engine', i);
      (now.Some? && engine'[now.value] == asset) <==> Wanted(slots, engine, loaded, objects, i, asset)
  {
    BindingIs(objects, |objects|, i);
    if k :| 0 <= k < |objects| && objects[k] == ServerObject(i, Some(asset)) {
      BindingFound(objects, |objects|, k);
    }
  }

  lemma {:induction false} BindingFound(objects: seq<ServerObject>, n: nat, k: nat)
    requires Ascending(objects) && k < n <= |objects|
    ensures BindingAt(objects, n, objects[k].index) == objects[k].binding
  {
    if k < n - 1 {
      BindingFound(objects, n - 1, k);
    }
  }

  lemma {:induction false} BindingIs(objects: seq<ServerObject>, n: nat, i: nat)
    requires n <= |objects|
    ensures BindingAt(objects, n, i).Some? ==> exists k :: 0 <= k < n && objects[k] == ServerObject(i, BindingAt(objects, n, i))
  {
    if n > 0 && objects[n - 1].index != i {
      BindingIs(objects, n - 1, i);
    }
  }
}
