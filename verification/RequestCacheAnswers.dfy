/** What the recovery cache answers to a request, told from what happened to the key: nothing of the stored entry is named. */
module RequestCacheAnswers {
  import opened Common
  import opened RequestCache

  /** When the key was last loaded successfully, as far as its entry has not been removed since. */
  function ServedAt<T>(log: seq<Note<T>>, key: string): Option<int> {
    if log == [] then None
    else
      var before, last := log[..|log| - 1], log[|log| - 1];
      if last.key != key then ServedAt(before, key)
      else if last.Removed? then None
      else if last.value.Some? then Some(last.at)
      else ServedAt(before, key)
  }

  predicate Expires<T(==)>(slots: seq<Slot<T>>, log: seq<Note<T>>, ttlMs: int) {
    forall s :: s in slots ==> s.entry.expiresAt == (if ServedAt(log, s.key).Some? then ServedAt(log, s.key).value + ttlMs else 0)
  }

  lemma {:induction false} ServedIsRecalled<T>(log: seq<Note<T>>, key: string)
    ensures ServedAt(log, key).Some? <==> Recall(log, key).value.Some?
    decreases |log|
  {
    if log != [] { ServedIsRecalled(log[..|log| - 1], key); }
  }

  lemma {:induction false} ServedAfterRemovals<T>(log: seq<Note<T>>, gone: seq<Note<T>>, key: string)
    requires forall n :: n in gone ==> n.Removed?
    ensures ServedAt(log + gone, key) == (if Removed(key) in gone then None else ServedAt(log, key))
    decreases |gone|
  {
    if gone == [] {
      assert log + gone == log;
    } else {
      var last := gone[|gone| - 1];
      assert (log + gone)[..|log + gone| - 1] == log + gone[..|gone| - 1];
      assert gone == gone[..|gone| - 1] + [last] && last in gone;
      ServedAfterRemovals(log, gone[..|gone| - 1], key);
    }
  }

  /** Slots that stay keep their time, and an added one has none. */
  lemma KeptSlotsExpire<T>(w: World<T>, after: seq<Slot<T>>, ttlMs: int, capacity: nat)
    requires Sound(w, capacity) && Expires(w.cache.slots, w.log, ttlMs)
    requires forall s :: s in after ==> s in w.cache.slots || (Lookup(w.cache.slots, s.key).None? && s.entry.expiresAt == 0)
    ensures Expires(after, w.log + Removals(w.cache.slots, after), ttlMs)
  {
    hide Recall, Removals, ServedAt, Sound;
    var gone := Removals(w.cache.slots, after);
    forall s | s in after
      ensures s.entry.expiresAt == (if ServedAt(w.log + gone, s.key).Some? then ServedAt(w.log + gone, s.key).value + ttlMs else 0)
    {
      RemovalsMean(w.cache.slots, after, s.key);
      ServedAfterRemovals(w.log, gone, s.key);
      var here := Lookup(after, s.key);
      if s !in w.cache.slots {
        NewIsBlank(w, after, s.key, capacity);
        ServedIsRecalled(w.log + gone, s.key);
      }
    }
  }

  lemma ReplacedExpires<T>(slots: seq<Slot<T>>, i: nat, e: Entry<T>, log: seq<Note<T>>, ttlMs: int)
    requires i < |slots| && Expires(slots, log, ttlMs) && e.expiresAt == slots[i].entry.expiresAt
    ensures Expires(WithEntry(slots, i, e), log, ttlMs)
  {
    hide ServedAt;
    var after := WithEntry(slots, i, e);
    forall s | s in after ensures exists t :: t in slots && t.key == s.key && t.entry.expiresAt == s.entry.expiresAt {
      var k :| 0 <= k < |after| && after[k] == s;
      assert slots[k] in slots;
    }
  }

  lemma RequestKeepsExpiry<T>(w: World<T>, key: string, now: int, capacity: nat, ttlMs: int)
    requires Sound(w, capacity) && Expires(w.cache.slots, w.log, ttlMs)
    ensures var next := Next(w, Request(key, now), capacity, ttlMs); Expires(next.cache.slots, next.log, ttlMs)
  {
    hide Remembers, Prune, FirstIdle, MakeRoom, Recall, Removals, Forgotten, Expires, FlightsAreStored;
    var slots := w.cache.slots;
    match Lookup(slots, key) {
      case Some(i) =>
        KeysStay(slots, i, slots[i].entry);
        KeysStay(slots, i, slots[i].entry.(phase := Loading));
        ReplacedExpires(slots, i, slots[i].entry.(phase := Loading), w.log, ttlMs);
        assert WithEntry(slots, i, slots[i].entry) == slots && w.log + [] == w.log;
      case None =>
        PruneKeeps(slots, now);
        var room := MakeRoom(slots, now, capacity);
        if room.Some? {
          RoomKeeps(slots, now, capacity);
          KeptSlotsExpire(w, room.value + [Slot(key, Entry(w.cache.nextId, Loading, None, 0, 0, 0))], ttlMs, capacity);
        } else {
          KeptSlotsExpire(w, Prune(slots, now), ttlMs, capacity);
        }
    }
  }

  lemma SettleKeepsExpiry<T>(w: World<T>, i: nat, outcome: Option<T>, now: int, capacity: nat, ttlMs: int)
    requires Sound(w, capacity) && Expires(w.cache.slots, w.log, ttlMs) && i < |w.cache.slots|
    ensures var slot := w.cache.slots[i];
            Expires(WithEntry(w.cache.slots, i, Landed(slot.entry, outcome, now, ttlMs)), w.log + [Landing(slot.key, outcome, now)], ttlMs)
  {
    hide Remembers, Forgotten, FlightsAreStored, Backoff;
    var slot := w.cache.slots[i];
    var after, log := WithEntry(w.cache.slots, i, Landed(slot.entry, outcome, now, ttlMs)), w.log + [Landing(slot.key, outcome, now)];
    assert log[..|w.log|] == w.log && slot in w.cache.slots;
    forall s | s in after ensures s.entry.expiresAt == (if ServedAt(log, s.key).Some? then ServedAt(log, s.key).value + ttlMs else 0) {
      var k :| 0 <= k < |after| && after[k] == s;
      if k != i { assert w.cache.slots[k] == s && s.key != slot.key; }
    }
  }

  lemma StepKeepsExpiry<T>(w: World<T>, step: Step<T>, capacity: nat, ttlMs: int)
    requires Sound(w, capacity) && Expires(w.cache.slots, w.log, ttlMs)
    ensures var next := Next(w, step, capacity, ttlMs); Expires(next.cache.slots, next.log, ttlMs)
  {
    hide Sound, Expires, Get, Landed, Removals;
    match step
    case Request(key, now) => RequestKeepsExpiry(w, key, now, capacity, ttlMs);
    case Settle(id, outcome, now) =>
      var at := ById(w.cache.slots, id);
      if at.Some? { SettleKeepsExpiry(w, at.value, outcome, now, capacity, ttlMs); }
    case Release(id) =>
      var at := ById(w.cache.slots, id);
      if at.Some? { ReplacedExpires(w.cache.slots, at.value, w.cache.slots[at.value].entry.(phase := Idle), w.log, ttlMs); }
  }

  /** A world that a run from the empty cache has reached. */
  ghost predicate Reached<T>(w: World<T>, capacity: nat, ttlMs: int) {
    Sound(w, capacity) && Expires(w.cache.slots, w.log, ttlMs)
  }

  lemma {:induction false} EveryRunReaches<T>(w: World<T>, steps: seq<Step<T>>, capacity: nat, ttlMs: int)
    requires Reached(w, capacity, ttlMs)
    ensures Reached(Steps(w, steps, capacity, ttlMs), capacity, ttlMs)
    decreases |steps|
  {
    hide Sound, Next, Expires;
    if steps != [] {
      StepKeepsSound(w, steps[0], capacity, ttlMs);
      StepKeepsExpiry(w, steps[0], capacity, ttlMs);
      EveryRunReaches(Next(w, steps[0], capacity, ttlMs), steps[1..], capacity, ttlMs);
    }
  }

  lemma StartIsReached<T>(capacity: nat, ttlMs: int)
    ensures Reached<T>(World(Cache([], 0), map[], []), capacity, ttlMs)
  {
    StartIsSound<T>(capacity);
  }

  // ---------------------------------------------------------------- the answer

  /** A promise of the key is being handed out. */
  ghost predicate InFlight<T>(w: World<T>, key: string, id: nat) {
    id in w.flights && w.flights[id] == key
  }

  /** The last successful load of the key is less than its time to live ago. */
  predicate StillServed<T>(w: World<T>, key: string, now: int, ttlMs: int) {
    ServedAt(w.log, key).Some? && now < ServedAt(w.log, key).value + ttlMs
  }

  /** The last load of the key failed, and the delay after that many failures in a row has not passed. */
  predicate BacksOff<T>(w: World<T>, key: string, now: int) {
    var m := Recall(w.log, key); m.failedAt.Some? && now < m.failedAt.value + Backoff(m.failures)
  }

  /** Every entry is being loaded, and the cache is full of them. */
  ghost predicate FullOfLoads<T>(w: World<T>, capacity: nat) {
    |w.cache.slots| >= capacity && forall s :: s in w.cache.slots ==> s.entry.id in w.flights
  }

  lemma {:induction false} NothingStale<T>(slots: seq<Slot<T>>, now: int)
    requires forall s :: s in slots ==> !s.entry.phase.Idle?
    ensures Prune(slots, now) == slots && FirstIdle(slots).None?
    decreases |slots|
  {
    if slots != [] {
      assert slots[0] in slots && forall s :: s in slots[1..] ==> s in slots;
      NothingStale(slots[1..], now);
    }
  }

  lemma {:induction false} PrunedIfShort<T>(slots: seq<Slot<T>>, now: int)
    ensures |Prune(slots, now)| <= |slots|
    ensures |Prune(slots, now)| == |slots| ==> Prune(slots, now) == slots
    decreases |slots|
  {
    if slots != [] { PrunedIfShort(slots[1..], now); }
  }

  lemma RoomExactly<T>(w: World<T>, now: int, capacity: nat)
    requires Sound(w, capacity)
    ensures MakeRoom(w.cache.slots, now, capacity).None? <==> FullOfLoads(w, capacity)
  {
    hide Remembers, Recall, Forgotten, Prune, FirstIdle;
    var slots := w.cache.slots;
    PrunedIfShort(slots, now);
    if FullOfLoads(w, capacity) { NothingStale(slots, now); }
    if MakeRoom(slots, now, capacity).None? {
      assert FirstIdle(slots).None?;
    }
  }

  /**
   The answer to a request: the promise of a load under way; otherwise a value whose time has not run out; otherwise a
   refusal during the delay after failures; otherwise a new load, unless the key is unknown and the cache is full of
   loads under way.
   */
  lemma AnswersExactly<T>(w: World<T>, key: string, now: int, capacity: nat, ttlMs: int)
    requires Reached(w, capacity, ttlMs) && now >= 0
    ensures var answer, m := Get(w.cache, key, now, capacity).1, Recall(w.log, key);
            if exists id :: InFlight(w, key, id) then exists id :: InFlight(w, key, id) && answer == Shared(id)
            else if m.value.Some? && StillServed(w, key, now, ttlMs) then answer == Cached(m.value.value)
            else if BacksOff(w, key, now) then answer == BackedOff
            else if (forall s :: s in w.cache.slots ==> s.key != key) && FullOfLoads(w, capacity) then answer == CapacityReached
            else answer.Started?
  {
    hide Prune, FirstIdle, MakeRoom, Backoff, Recall, ServedAt;
    RoomExactly(w, now, capacity);
    ServedIsRecalled(w.log, key);
    match Lookup(w.cache.slots, key) {
      case Some(i) =>
        var slot := w.cache.slots[i];
        assert slot in w.cache.slots;
        assert forall id :: InFlight(w, key, id) ==> id == slot.entry.id by { OneFlight(w, capacity, key, i); }
        if !slot.entry.phase.Idle? { assert InFlight(w, key, slot.entry.id); }
      case None =>
        NoFlight(w, capacity, key);
        assert Recall(w.log, key) == Blank();
    }
  }

  lemma NoFlight<T>(w: World<T>, capacity: nat, key: string)
    requires Sound(w, capacity) && Lookup(w.cache.slots, key).None?
    ensures forall id :: !InFlight(w, key, id)
  {
    hide Remembers, Forgotten, Distinct;
    forall id | id in w.flights ensures w.flights[id] != key {
      var s :| s in w.cache.slots && s.entry.id == id;
    }
  }

  lemma OneFlight<T>(w: World<T>, capacity: nat, key: string, i: nat)
    requires Sound(w, capacity) && i < |w.cache.slots| && w.cache.slots[i].key == key
    ensures forall id :: InFlight(w, key, id) ==> id == w.cache.slots[i].entry.id
  {
    hide Remembers, Forgotten;
    forall id | InFlight(w, key, id) ensures id == w.cache.slots[i].entry.id {
      var s :| s in w.cache.slots && s.entry.id == id;
      var k :| 0 <= k < |w.cache.slots| && w.cache.slots[k] == s;
      assert k == i;
    }
  }

  /** An entry serves no one any more exactly if its key is not being loaded, no longer served and not backing off. */
  lemma StaleExactly<T>(w: World<T>, slot: Slot<T>, now: int, capacity: nat, ttlMs: int)
    requires Reached(w, capacity, ttlMs) && slot in w.cache.slots && now >= 0
    ensures Stale(slot.entry, now) <==> slot.entry.id !in w.flights && !StillServed(w, slot.key, now, ttlMs) && !BacksOff(w, slot.key, now)
  {
    hide Backoff, Recall, ServedAt;
  }
}
