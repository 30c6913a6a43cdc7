/** The allocator of list indices (Foundation/Allocator/IdAllocator): a free list threaded
    through an array, which doubles when the list runs out. */
module IdAllocator {
  import opened Geometry

  const INVALID_ID := -1

  function Next(free: seq<nat>, k: nat): int {
    if k + 1 < |free| then free[k + 1] else INVALID_ID
  }

  /** free is the list that starts at head and goes on through ids. */
  ghost predicate Chain(ids: seq<int>, head: int, free: seq<nat>) {
    && head == (if free == [] then INVALID_ID else free[0])
    && (forall k :: 0 <= k < |free| ==> free[k] < |ids|)
    && (forall k {:trigger Next(free, k)} :: 0 <= k < |free| ==> ids[free[k]] == Next(free, k))
    && forall i, j :: 0 <= i < j < |free| ==> free[i] != free[j]
  }

  lemma ChainTail(ids: seq<int>, head: int, free: seq<nat>)
    requires Chain(ids, head, free) && free != []
    ensures Chain(ids[free[0] := INVALID_ID], ids[free[0]], free[1..])
  {
    var rest := free[1..];
    assert ids[free[0]] == Next(free, 0);
    forall k | 0 <= k < |rest| ensures ids[free[0] := INVALID_ID][rest[k]] == Next(rest, k) {
      assert rest[k] == free[k + 1] && free[0] != free[k + 1];
      assert ids[free[k + 1]] == Next(free, k + 1);
    }
  }

  lemma ChainPush(ids: seq<int>, head: int, free: seq<nat>, id: nat)
    requires Chain(ids, head, free) && id < |ids| && id !in free
    ensures Chain(ids[id := head], id, [id] + free)
  {
    var longer := [id] + free;
    forall k | 0 <= k < |longer| ensures ids[id := head][longer[k]] == Next(longer, k) {
      if k > 0 {
        assert longer[k] == free[k - 1];
        assert ids[free[k - 1]] == Next(free, k - 1);
      }
    }
  }

  lemma ChainSnoc(ids: seq<int>, head: int, free: seq<nat>, id: nat)
    requires Chain(ids, head, free) && id < |ids| && id !in free && ids[id] == INVALID_ID
    ensures free == [] ==> Chain(ids, id, [id])
    ensures free != [] ==> Chain(ids[free[|free| - 1] := id], head, free + [id])
  {
    if free != [] {
      var last, longer := |free| - 1, free + [id];
      forall k | 0 <= k < |longer| ensures ids[free[last] := id][longer[k]] == Next(longer, k) {
        if k < last {
          assert ids[free[k]] == Next(free, k) && free[k] != free[last];
        }
      }
    }
  }

  predicate Ascending(s: seq<nat>) {
    forall i, j :: 0 <= i < j < |s| ==> s[i] < s[j]
  }

  /** The used ids below index are those before usedIndex. */
  ghost predicate UsedBefore(used: seq<nat>, usedIndex: int, index: int) {
    && 0 <= usedIndex <= |used|
    && (forall k :: 0 <= k < usedIndex ==> used[k] < index)
    && forall k :: usedIndex <= k < |used| ==> used[k] >= index
  }

  lemma UsedNext(used: seq<nat>, usedIndex: int, index: nat)
    requires Ascending(used) && UsedBefore(used, usedIndex, index)
    ensures if usedIndex < |used| && used[usedIndex] == index then index in used && UsedBefore(used, usedIndex + 1, index + 1)
            else index !in used && UsedBefore(used, usedIndex, index + 1)
  {
  }

  /** The unused ids below index, in ascending order. */
  ghost predicate FreeBefore(free: seq<nat>, used: seq<nat>, index: int) {
    Ascending(free) && forall i: nat :: i in free <==> i < index && i !in used
  }

  lemma FreeNext(free: seq<nat>, used: seq<nat>, index: nat)
    requires FreeBefore(free, used, index)
    ensures index !in free && (free != [] ==> free[|free| - 1] < index)
    ensures FreeBefore(if index in used then free else free + [index], used, index + 1)
  {
    assert free != [] ==> free[|free| - 1] in free;
  }

  lemma {:induction false} AscendingRange(s: seq<nat>, n: nat)
    requires Ascending(s) && forall i: nat :: i in s <==> i < n
    ensures |s| == n && forall k :: 0 <= k < n ==> s[k] == k
    decreases n
  {
    if s == [] {
      assert 0 !in s;
    } else {
      var last := |s| - 1;
      assert s[last] in s && n - 1 in s;
      var k :| 0 <= k < |s| && s[k] == n - 1;
      assert k == last && forall j :: 0 <= j < last ==> s[..last][j] < n - 1;
      forall i: nat ensures i in s[..last] <==> i < n - 1 {
        if i < n - 1 {
          assert i in s;
          var j :| 0 <= j < |s| && s[j] == i;
          assert s[..last][j] == i;
        }
      }
      AscendingRange(s[..last], n - 1);
    }
  }

  function InitialCapacity(size: nat): nat {
    if size < 16 then 16 else size
  }

  /** The ids a growing allocator made for the used ids can ever return. */
  ghost function InitialPending(initialSize: nat, used: seq<nat>): iset<nat> {
    iset i: nat | i !in used || i >= InitialCapacity(initialSize)
  }

  /** Ids in use at or above the initial capacity are forgotten: growing hands them out again. */
  lemma FreshExactlyWhenUsedFits(used: seq<nat>)
    ensures (forall id :: id in used ==> id !in InitialPending(2 * |used|, used))
      <==> (forall id :: id in used ==> id < Max(16, 2 * |used|))
  {
  }

  class IdAllocator {
    var ids: array<int>
    var head: int
    const grow: bool
    ghost var free: seq<nat>

    ghost predicate Valid()
      reads this, ids
    {
      ids.Length > 0 && Chain(ids[..], head, free)
    }

    /** The ids that calls of Allocate can still return. */
    ghost function Pending(): iset<nat>
      reads this
    {
      iset i: nat | i in free || (grow && i >= ids.Length)
    }

    /** The id that the call of Allocate after n others will return, as long as none is released:
        first what the list has, then what growing adds. */
    ghost function Upcoming(n: nat): nat
      reads this
    {
      if n < |free| then free[n] else ids.Length + n - |free|
    }

    /** The ids the next n calls will return. */
    ghost function UpcomingIds(n: nat): (r: seq<nat>)
      reads this
      ensures |r| == n && forall k :: 0 <= k < n ==> r[k] == Upcoming(k)
    {
      if n == 0 then [] else UpcomingIds(n - 1) + [Upcoming(n - 1)]
    }

    /** What calls of Allocate can return is what some call will return. */
    lemma PendingIsUpcoming(id: nat)
      requires Valid() && grow
      ensures id in Pending() <==> exists n: nat :: Upcoming(n) == id
    {
      if id in free {
        var k :| 0 <= k < |free| && free[k] == id;
        assert Upcoming(k) == id;
      } else if id >= ids.Length {
        assert Upcoming(|free| + id - ids.Length) == id;
      }
    }

    constructor WithUsed(initialSize: nat, usedIds: seq<nat>, growing: bool)
      requires Ascending(usedIds)
      ensures Valid() && fresh(ids) && grow == growing
      ensures growing ==> Pending() == InitialPending(initialSize, usedIds)
      ensures ids.Length == InitialCapacity(initialSize)
      ensures Ascending(free) && forall i: nat :: i in free <==> i < InitialCapacity(initialSize) && i !in usedIds
    {
      var size := InitialCapacity(initialSize);
      ids := new int[size](_ => INVALID_ID);
      head := INVALID_ID;
      grow := growing;
      free := [];
      new;
      ThreadFreeIds(usedIds);
    }

    /** The ids below index have been dealt with. */
    ghost predicate Threaded(used: seq<nat>, usedIndex: int, index: int, prev: int)
      reads this, ids
    {
      && 0 <= index <= ids.Length && UsedBefore(used, usedIndex, index) && FreeBefore(free, used, index)
      && Chain(ids[..], head, free) && prev == (if free == [] then -1 else free[|free| - 1])
      && forall i :: index <= i < ids.Length ==> ids[i] == INVALID_ID
    }

    /** An id that is used is left out, any other goes to the end of the list. */
    method ThreadId(usedIds: seq<nat>, usedIndex: nat, index: nat, prev: int) returns (usedIndex': nat, prev': int)
      requires Ascending(usedIds) && Threaded(usedIds, usedIndex, index, prev) && index < ids.Length
      modifies this`head, this`free, ids
      ensures Threaded(usedIds, usedIndex', index + 1, prev')
    {
      hide Chain, Ascending;
      UsedNext(usedIds, usedIndex, index);
      FreeNext(free, usedIds, index);
      hide UsedBefore, FreeBefore;
      usedIndex', prev' := usedIndex, prev;
      if usedIndex < |usedIds| && usedIds[usedIndex] == index {
        ghost var before := ids[..];
        ids[index] := INVALID_ID;
        assert ids[..] == before;
        usedIndex' := usedIndex + 1;
      } else {
        LinkFreeId(prev, index);
        prev' := index;
      }
    }

    /** Links the ids that are not used, in ascending order. */
    method ThreadFreeIds(usedIds: seq<nat>)
      requires Ascending(usedIds) && ids.Length > 0
      requires free == [] && head == INVALID_ID && forall i :: 0 <= i < ids.Length ==> ids[i] == INVALID_ID
      modifies this`head, this`free, ids
      ensures Valid() && Ascending(free) && forall i: nat :: i in free <==> i < ids.Length && i !in usedIds
    {
      var usedIndex: nat, prev := 0, -1;
      assert Threaded(usedIds, usedIndex, 0, prev);
      hide Chain, UsedBefore, Ascending;
      for index := 0 to ids.Length
        invariant Threaded(usedIds, usedIndex, index, prev)
      {
        usedIndex, prev := ThreadId(usedIds, usedIndex, index, prev);
      }
      EndList(prev);
    }

    method EndList(prev: int)
      requires ids.Length > 0 && Chain(ids[..], head, free) && prev == (if free == [] then -1 else free[|free| - 1])
      modifies this`head, ids
      ensures Valid()
    {
      if prev < 0 {
        head := INVALID_ID;
      } else {
        assert ids[..][prev] == Next(free, |free| - 1);
        ghost var before := ids[..];
        ids[prev] := INVALID_ID;
        assert ids[..] == before;
      }
    }

    method LinkFreeId(prev: int, index: nat)
      requires Chain(ids[..], head, free) && prev == (if free == [] then -1 else free[|free| - 1])
      requires index < ids.Length && index !in free && ids[index] == INVALID_ID && prev < index
      modifies this`head, this`free, ids
      ensures Chain(ids[..], head, free) && free == old(free) + [index]
      ensures forall i :: index < i < ids.Length ==> ids[i] == old(ids[i])
    {
      ChainSnoc(ids[..], head, free, index);
      ghost var before := ids[..];
      if prev < 0 {
        head := index;
      } else {
        ids[prev] := index;
        assert ids[..] == before[prev := index];
      }
      free := free + [index];
    }

    /** The next id comes out, and no id comes out twice: it can no longer be returned. */
    method Allocate() returns (id: int)
      requires Valid()
      modifies this, ids
      ensures Valid() && (ids == old(ids) || fresh(ids))
      ensures id == INVALID_ID <==> !grow && old(free) == []
      ensures id == INVALID_ID ==> Pending() == old(Pending())
      ensures id != INVALID_ID ==> 0 <= id && id in old(Pending()) && Pending() == old(Pending()) - iset{id}
      ensures grow ==> id == old(Upcoming(0)) && forall n: nat :: Upcoming(n) == old(Upcoming(n + 1))
    {
      if head == INVALID_ID {
        if !grow {
          return INVALID_ID;
        }
        Grow();
      }
      id := TakeHead();
    }

    /** The first free id leaves the list. */
    method TakeHead() returns (id: nat)
      requires Valid() && head != INVALID_ID
      modifies this`head, this`free, ids
      ensures Valid() && ids == old(ids) && [id] + free == old(free)
      ensures forall i: nat :: i in free <==> i in old(free) && i != id
    {
      id := head;
      ghost var before := ids[..];
      ChainTail(before, head, free);
      head := ids[head];
      ids[id] := INVALID_ID;
      assert ids[..] == before[id := INVALID_ID];
      ghost var whole := free;
      free := free[1..];
      assert whole == [whole[0]] + free;
    }

    /** The links of twice as many ids, the new ones free. */
    static method WiderIds(ids: array<int>) returns (newIds: array<int>)
      requires ids.Length > 0
      ensures fresh(newIds) && newIds.Length == ids.Length * 2
      ensures forall k :: 0 <= k < ids.Length ==> newIds[k] == ids[k]
      ensures forall k :: ids.Length <= k < ids.Length * 2 ==> newIds[k] == if k == ids.Length * 2 - 1 then INVALID_ID else k + 1
    {
      var capacity := ids.Length;
      newIds := new int[capacity * 2](_ => INVALID_ID);
      for index := 0 to capacity
        invariant forall k :: 0 <= k < index ==> newIds[k] == ids[k]
      {
        newIds[index] := ids[index];
      }
      for index := capacity to capacity * 2 - 1
        invariant forall k :: 0 <= k < capacity ==> newIds[k] == ids[k]
        invariant forall k :: capacity <= k < index ==> newIds[k] == k + 1
      {
        newIds[index] := index + 1;
      }
      newIds[capacity * 2 - 1] := INVALID_ID;
    }

    method Grow()
      requires Valid() && head == INVALID_ID && grow
      modifies this
      ensures Valid() && fresh(ids) && head != INVALID_ID
      ensures Pending() == old(Pending()) && forall n: nat :: Upcoming(n) == old(Upcoming(n))
    {
      var capacity := ids.Length;
      var newIds := WiderIds(ids);
      ids := newIds;
      head := capacity;
      free := seq(capacity, k requires 0 <= k => capacity + k);
      forall i: nat ensures i in free <==> capacity <= i < 2 * capacity {
        if capacity <= i < 2 * capacity {
          assert free[i - capacity] == i;
        }
      }
    }

    method Release(id: nat)
      requires Valid() && id < ids.Length && id !in free
      modifies this, ids
      ensures Valid() && ids == old(ids)
      ensures Pending() == old(Pending()) + iset{id}
      ensures Upcoming(0) == id && forall n: nat :: Upcoming(n + 1) == old(Upcoming(n))
    {
      ghost var before := ids[..];
      ChainPush(before, head, free, id);
      ids[id] := head;
      assert ids[..] == before[id := head];
      head := id;
      free := [id] + free;
    }
  }

  /** n more calls, and then one. */
  method AllocateAfter(allocator: IdAllocator, n: nat) returns (id: int)
    requires allocator.Valid() && allocator.grow
    modifies allocator, allocator.ids
    ensures allocator.Valid() && id == old(allocator.Upcoming(n))
  {
    for k := 0 to n
      invariant allocator.Valid() && (allocator.ids == old(allocator.ids) || fresh(allocator.ids))
      invariant allocator.Upcoming(n - k) == old(allocator.Upcoming(n))
    {
      id := allocator.Allocate();
    }
    id := allocator.Allocate();
  }

  /** With one id in use, 20, the twenty-first call returns it again. */
  method ForgottenIdExample() returns (id: int)
    ensures id == 20
  {
    var allocator := new IdAllocator.WithUsed(2, [20], true);
    AscendingRange(allocator.free, 16);
    id := AllocateAfter(allocator, 20);
  }
}
