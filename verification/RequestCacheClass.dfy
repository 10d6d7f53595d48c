/** The request cache as an object: its slots are reassigned in place, and a load finds its own entry again by its id. */
module RequestCacheClass {
  import opened Common
  import opened RequestCache

  lemma FirstOfKey<T>(slots: seq<Slot<T>>, key: string, i: nat)
    requires i <= |slots| && (forall k :: 0 <= k < i ==> slots[k].key != key)
    ensures i < |slots| && slots[i].key == key ==> Lookup(slots, key) == Some(i)
    ensures i == |slots| ==> Lookup(slots, key).None?
    decreases |slots|
  {
    if i > 0 {
      assert slots[0].key != key;
      assert forall k :: 0 <= k < i - 1 ==> slots[1..][k] == slots[k + 1];
      FirstOfKey(slots[1..], key, i - 1);
    }
  }

  lemma FirstIdleAt<T>(slots: seq<Slot<T>>, i: nat)
    requires i <= |slots| && (forall k :: 0 <= k < i ==> !slots[k].entry.phase.Idle?)
    ensures i < |slots| && slots[i].entry.phase.Idle? ==> FirstIdle(slots) == Some(i)
    ensures i == |slots| ==> FirstIdle(slots).None?
    decreases |slots|
  {
    if i > 0 {
      assert !slots[0].entry.phase.Idle?;
      assert forall k :: 0 <= k < i - 1 ==> slots[1..][k] == slots[k + 1];
      FirstIdleAt(slots[1..], i - 1);
    }
  }

  lemma PruneStep<T>(slots: seq<Slot<T>>, i: nat, now: int)
    requires i < |slots|
    ensures Stale(slots[i].entry, now) ==> slots[..i] + Prune(slots[i..], now) == slots[..i] + Prune(slots[i + 1..], now)
    ensures !Stale(slots[i].entry, now) ==> slots[..i] + Prune(slots[i..], now) == slots[..i + 1] + Prune(slots[i + 1..], now)
  {
    assert slots[i..][0] == slots[i] && slots[i..][1..] == slots[i + 1..];
    assert slots[..i + 1] == slots[..i] + [slots[i]];
  }

  class RecoveryRequestCache<T> {
    const capacity: nat
    const ttlMs: int
    var slots: seq<Slot<T>>
    var nextId: nat

    function View(): Cache<T>
      reads this
    {
      Cache(slots, nextId)
    }

    /** One slot per key and load, never more than the capacity. */
    ghost predicate Valid()
      reads this
    {
      Distinct(slots) && |slots| <= capacity && forall s :: s in slots ==> s.entry.id < nextId
    }

    constructor (capacity: nat, ttlMs: int)
      ensures Valid() && View() == Cache([], 0) && this.capacity == capacity && this.ttlMs == ttlMs
    {
      this.capacity, this.ttlMs := capacity, ttlMs;
      slots, nextId := [], 0;
    }

    method Find(key: string) returns (found: Option<nat>)
      ensures found == Lookup(slots, key)
    {
      var i := 0;
      while i < |slots| && slots[i].key != key
        invariant i <= |slots|
        invariant forall k :: 0 <= k < i ==> slots[k].key != key
      {
        i := i + 1;
      }
      FirstOfKey(slots, key, i);
      return if i < |slots| then Some(i) else None;
    }

    /** Drops the entries that serve no one any more. */
    method DropStale(now: int)
      requires Valid()
      modifies this
      ensures Valid() && nextId == old(nextId) && slots == Prune(old(slots), now)
    {
      hide Distinct;
      ghost var all := slots;
      var i := 0;
      assert all[0..] == all;
      while i < |slots|
        invariant Valid() && i <= |slots| && nextId == old(nextId)
        invariant slots[..i] + Prune(slots[i..], now) == Prune(all, now)
        decreases |slots| - i
      {
        ghost var before := slots;
        PruneStep(slots, i, now);
        if Stale(slots[i].entry, now) {
          DropOne(slots, i);
          slots := slots[..i] + slots[i + 1..];
          assert slots[..i] == before[..i] && slots[i..] == before[i + 1..];
        } else {
          i := i + 1;
        }
      }
      assert slots[i..] == [] && slots[..i] == slots;
    }

    /** Drops the oldest entry that is not in flight. */
    method DropIdle() returns (dropped: bool)
      requires Valid()
      modifies this
      ensures Valid() && nextId == old(nextId) && dropped == FirstIdle(old(slots)).Some?
      ensures slots == if dropped then old(slots)[..FirstIdle(old(slots)).value] + old(slots)[FirstIdle(old(slots)).value + 1..] else old(slots)
    {
      hide Distinct;
      var i := 0;
      while i < |slots| && !slots[i].entry.phase.Idle?
        invariant i <= |slots|
        invariant forall k :: 0 <= k < i ==> !slots[k].entry.phase.Idle?
      {
        i := i + 1;
      }
      FirstIdleAt(slots, i);
      dropped := i < |slots|;
      if dropped {
        DropOne(slots, i);
        slots := slots[..i] + slots[i + 1..];
      }
    }

    /** A new entry, loading, for a key that has none. */
    method AddSlot(key: string) returns (answer: Answer<T>)
      requires Valid() && |slots| < capacity && forall s :: s in slots ==> s.key != key
      modifies this
      ensures Valid() && answer == Started(old(nextId))
      ensures View() == Cache(old(slots) + [Slot(key, Entry(old(nextId), Loading, None, 0, 0, 0))], old(nextId) + 1)
    {
      hide Distinct;
      var slot := Slot(key, Entry(nextId, Loading, None, 0, 0, 0));
      AddedIsDistinct(slots, slot, nextId);
      answer := Started(nextId);
      slots := slots + [slot];
      nextId := nextId + 1;
    }

    /** Answers from the entry of the key when it can; otherwise starts the one load of that key, making room if needed. */
    method Request(key: string, now: int) returns (answer: Answer<T>)
      requires Valid()
      modifies this
      ensures Valid() && (View(), answer) == Get(old(View()), key, now, capacity)
    {
      hide Prune, FirstIdle, Lookup, Distinct, Stale;
      ghost var all := slots;
      var found := Find(key);
      if found.Some? {
        var i := found.value;
        var entry := slots[i].entry;
        if !entry.phase.Idle? { return Shared(entry.id); }
        if entry.value.Some? && entry.expiresAt > now { return Cached(entry.value.value); }
        if entry.retryAt > now { return BackedOff; }
        PhaseKeepsDistinct(slots, i, entry.(phase := Loading), nextId);
        slots := WithEntry(slots, i, entry.(phase := Loading));
        return Started(entry.id);
      }
      DropStale(now);
      if |slots| >= capacity {
        var dropped := DropIdle();
        if !dropped { return CapacityReached; }
      }
      RoomKeeps(all, now, capacity);
      assert slots == MakeRoom(all, now, capacity).value;
      answer := AddSlot(key);
    }

    /** A load settles: its result, or its failure, goes into the entry that started it. */
    method Settle(id: nat, outcome: Option<T>, now: int)
      requires Valid() && ById(slots, id).Some? && slots[ById(slots, id).value].entry.phase.Loading?
      modifies this
      ensures Valid() && nextId == old(nextId)
      ensures var at := ById(old(slots), id).value;
              slots == WithEntry(old(slots), at, Landed(old(slots)[at].entry, outcome, now, ttlMs))
    {
      hide Distinct;
      var i := ById(slots, id).value;
      var entry := slots[i].entry;
      if outcome.Some? {
        entry := entry.(value := outcome, expiresAt := now + ttlMs, retryAt := 0, failures := 0);
      } else {
        entry := entry.(failures := entry.failures + 1);
        entry := entry.(retryAt := now + Backoff(entry.failures));
      }
      entry := entry.(phase := Settling);
      PhaseKeepsDistinct(slots, i, entry, nextId);
      slots := WithEntry(slots, i, entry);
    }

    /** The promise of a settled load is no longer handed out. */
    method Release(id: nat)
      requires Valid() && ById(slots, id).Some? && slots[ById(slots, id).value].entry.phase.Settling?
      modifies this
      ensures Valid() && nextId == old(nextId)
      ensures var at := ById(old(slots), id).value; slots == WithEntry(old(slots), at, old(slots)[at].entry.(phase := Idle))
    {
      hide Distinct;
      var i := ById(slots, id).value;
      PhaseKeepsDistinct(slots, i, slots[i].entry.(phase := Idle), nextId);
      slots := WithEntry(slots, i, slots[i].entry.(phase := Idle));
    }
  }

  lemma PhaseKeepsDistinct<T>(slots: seq<Slot<T>>, i: nat, e: Entry<T>, nextId: nat)
    requires Distinct(slots) && i < |slots| && e.id == slots[i].entry.id && (forall s :: s in slots ==> s.entry.id < nextId)
    ensures Distinct(WithEntry(slots, i, e)) && forall s :: s in WithEntry(slots, i, e) ==> s.entry.id < nextId
  {
    assert slots[i] in slots;
    forall s | s in WithEntry(slots, i, e) ensures s.entry.id < nextId {
      var k :| 0 <= k < |slots| && WithEntry(slots, i, e)[k] == s;
      assert slots[k] in slots;
    }
  }

  lemma AddedIsDistinct<T>(slots: seq<Slot<T>>, slot: Slot<T>, nextId: nat)
    requires Distinct(slots) && (forall s :: s in slots ==> s.entry.id < nextId && s.key != slot.key) && slot.entry.id == nextId
    ensures Distinct(slots + [slot]) && forall s :: s in slots + [slot] ==> s.entry.id < nextId + 1
  {
    assert forall k :: 0 <= k < |slots| ==> slots[k] in slots;
  }
}
