/**
 The cache of recovery requests: one load per key at a time, results kept for a while, failures backed off.
 A load settles and is then released; requests may arrive before, between and after.
 */
module RequestCache {
  import opened Common

  /** No load, a load under way, or a load that has settled but whose promise is still handed out. */
  datatype Phase = Idle | Loading | Settling

  datatype Entry<T> = Entry(id: nat, phase: Phase, value: Option<T>, expiresAt: int, retryAt: int, failures: nat)

  datatype Slot<T> = Slot(key: string, entry: Entry<T>)

  /** The slots in the order in which their keys were added. */
  datatype Cache<T> = Cache(slots: seq<Slot<T>>, nextId: nat)

  datatype Answer<T> = Shared(id: nat) | Cached(value: T) | BackedOff | CapacityReached | Started(id: nat)

  /** Two seconds, doubled with every further failure, at most thirty seconds. */
  function Backoff(failures: nat): (ms: int)
    ensures failures >= 1 ==> 2000 <= ms <= 30000
    ensures failures >= 5 ==> ms == 30000
  {
    assert Pow2(4) == 2 * Pow2(3) && Pow2(3) == 2 * Pow2(2) && Pow2(2) == 2 * Pow2(1);
    if failures == 0 then 0 else Min(30000, 2000 * Pow2(if failures - 1 <= 4 then failures - 1 else 4))
  }

  /** The first delay, and each further one: twice the one before, up to the limit. */
  lemma BackoffDoubles(failures: nat)
    requires failures >= 1
    ensures Backoff(0) == 0 && Backoff(1) == 2000 && Backoff(failures + 1) == Min(30000, 2 * Backoff(failures))
  {
    if failures <= 4 { assert Pow2(failures) == 2 * Pow2(failures - 1); }
  }

  function Lookup<T>(slots: seq<Slot<T>>, key: string): (found: Option<nat>)
    ensures found.Some? ==> found.value < |slots| && slots[found.value].key == key
    ensures found.None? ==> forall s :: s in slots ==> s.key != key
  {
    if slots == [] then None
    else if slots[0].key == key then Some(0)
    else
      var rest := Lookup(slots[1..], key);
      assert forall s :: s in slots ==> s == slots[0] || s in slots[1..];
      if rest.Some? then Some(rest.value + 1) else None
  }

  predicate Stale<T>(e: Entry<T>, now: int) {
    e.phase.Idle? && e.expiresAt <= now && e.retryAt <= now
  }

  function Prune<T>(slots: seq<Slot<T>>, now: int): seq<Slot<T>> {
    if slots == [] then [] else (if Stale(slots[0].entry, now) then [] else [slots[0]]) + Prune(slots[1..], now)
  }

  function FirstIdle<T>(slots: seq<Slot<T>>): (found: Option<nat>)
    ensures found.Some? ==> found.value < |slots| && slots[found.value].entry.phase.Idle?
    ensures found.None? ==> forall s :: s in slots ==> !s.entry.phase.Idle?
  {
    if slots == [] then None
    else if slots[0].entry.phase.Idle? then Some(0)
    else
      var rest := FirstIdle(slots[1..]);
      assert forall s :: s in slots ==> s == slots[0] || s in slots[1..];
      if rest.Some? then Some(rest.value + 1) else None
  }

  /** The slots after making room for one more, or nothing when every load is under way. */
  function MakeRoom<T>(slots: seq<Slot<T>>, now: int, capacity: nat): Option<seq<Slot<T>>> {
    var kept := Prune(slots, now);
    if |kept| < capacity then Some(kept)
    else
      match FirstIdle(kept)
      case None => None
      case Some(i) => Some(kept[..i] + kept[i + 1..])
  }

  function WithEntry<T>(slots: seq<Slot<T>>, i: nat, e: Entry<T>): seq<Slot<T>>
    requires i < |slots|
  {
    slots[i := slots[i].(entry := e)]
  }

  function Get<T>(c: Cache<T>, key: string, now: int, capacity: nat): (Cache<T>, Answer<T>) {
    match Lookup(c.slots, key)
    case Some(i) =>
      var e := c.slots[i].entry;
      if !e.phase.Idle? then (c, Shared(e.id))
      else if e.value.Some? && e.expiresAt > now then (c, Cached(e.value.value))
      else if e.retryAt > now then (c, BackedOff)
      else (c.(slots := WithEntry(c.slots, i, e.(phase := Loading))), Started(e.id))
    case None =>
      match MakeRoom(c.slots, now, capacity)
      case None => (c.(slots := Prune(c.slots, now)), CapacityReached)
      case Some(kept) => (Cache(kept + [Slot(key, Entry(c.nextId, Loading, None, 0, 0, 0))], c.nextId + 1), Started(c.nextId))
  }

  function ById<T>(slots: seq<Slot<T>>, id: nat): (found: Option<nat>)
    ensures found.Some? ==> found.value < |slots| && slots[found.value].entry.id == id
    ensures found.None? ==> forall s :: s in slots ==> s.entry.id != id
  {
    if slots == [] then None
    else if slots[0].entry.id == id then Some(0)
    else
      var rest := ById(slots[1..], id);
      assert forall s :: s in slots ==> s == slots[0] || s in slots[1..];
      if rest.Some? then Some(rest.value + 1) else None
  }

  function Landed<T>(e: Entry<T>, outcome: Option<T>, now: int, ttlMs: int): Entry<T> {
    if outcome.Some? then e.(phase := Settling, value := outcome, expiresAt := now + ttlMs, retryAt := 0, failures := 0)
    else e.(phase := Settling, failures := e.failures + 1, retryAt := now + Backoff(e.failures + 1))
  }

  // ---------------------------------------------------------------- every interleaving

  /** A load of the key has settled, or the key's entry has been removed. */
  datatype Note<T> = Landing(key: string, value: Option<T>, at: int) | Removed(key: string)

  /** The cache, the promises still handed out with their keys, and everything noted so far. */
  datatype World<T> = World(cache: Cache<T>, flights: map<nat, string>, log: seq<Note<T>>)

  datatype Step<T> = Request(key: string, now: int) | Settle(id: nat, outcome: Option<T>, now: int) | Release(id: nat)

  /** The keys that are gone from the slots. */
  function Removals<T>(slots: seq<Slot<T>>, after: seq<Slot<T>>): seq<Note<T>> {
    if slots == [] then []
    else (if Lookup(after, slots[0].key).None? then [Removed(slots[0].key)] else []) + Removals(slots[1..], after)
  }

  function Next<T>(w: World<T>, step: Step<T>, capacity: nat, ttlMs: int): World<T> {
    match step
    case Request(key, now) =>
      var (cache, answer) := Get(w.cache, key, now, capacity);
      World(cache, if answer.Started? then w.flights[answer.id := key] else w.flights, w.log + Removals(w.cache.slots, cache.slots))
    case Settle(id, outcome, now) =>
      var at := ById(w.cache.slots, id);
      if at.None? || !w.cache.slots[at.value].entry.phase.Loading? then w
      else
        var slot := w.cache.slots[at.value];
        World(w.cache.(slots := WithEntry(w.cache.slots, at.value, Landed(slot.entry, outcome, now, ttlMs))),
              w.flights, w.log + [Landing(slot.key, outcome, now)])
    case Release(id) =>
      var at := ById(w.cache.slots, id);
      if at.None? || !w.cache.slots[at.value].entry.phase.Settling? then w
      else
        w.(cache := w.cache.(slots := WithEntry(w.cache.slots, at.value, w.cache.slots[at.value].entry.(phase := Idle))),
           flights := w.flights - {id})
  }

  // ---------------------------------------------------------------- what a key did, and what is remembered of it

  /** The failures of a key since its last success, whatever became of its entry. */
  function Streak<T>(log: seq<Note<T>>, key: string): nat {
    if log == [] then 0
    else
      var before, last := log[..|log| - 1], log[|log| - 1];
      if last.Removed? || last.key != key then Streak(before, key)
      else if last.value.Some? then 0
      else Streak(before, key) + 1
  }

  /** When its last load settled, if that was a failure. */
  function FailedAt<T>(log: seq<Note<T>>, key: string): Option<int> {
    if log == [] then None
    else
      var before, last := log[..|log| - 1], log[|log| - 1];
      if last.Removed? || last.key != key then FailedAt(before, key)
      else if last.value.Some? then None
      else Some(last.at)
  }

  datatype Memory<T> = Memory(failures: nat, value: Option<T>, failedAt: Option<int>)

  function Blank<T>(): Memory<T> {
    Memory(0, None, None)
  }

  /** What an entry of the key can know: nothing of the time before it was last removed. */
  function Recall<T>(log: seq<Note<T>>, key: string): Memory<T> {
    if log == [] then Blank()
    else
      var before, last := log[..|log| - 1], log[|log| - 1];
      if last.key != key then Recall(before, key)
      else if last.Removed? then Blank()
      else if last.value.Some? then Memory(0, last.value, None)
      else
        var m := Recall(before, key);
        Memory(m.failures + 1, m.value, Some(last.at))
  }

  predicate Remembers<T(==)>(e: Entry<T>, key: string, log: seq<Note<T>>) {
    var m := Recall(log, key);
    && e.failures == m.failures && e.value == m.value
    && e.retryAt == (if m.failedAt.Some? then m.failedAt.value + Backoff(m.failures) else 0)
    && (e.phase.Loading? || m.failures > 0 || m.value.Some?)
  }

  predicate FailureOf<T>(note: Note<T>, key: string) {
    note.Landing? && note.key == key && note.value.None?
  }

  predicate SuccessOf<T>(note: Note<T>, key: string) {
    note.Landing? && note.key == key && note.value.Some?
  }

  /** The failure at i belongs to the run of failures that is still going on. */
  predicate InRun<T>(log: seq<Note<T>>, key: string, i: nat) {
    i < |log| && FailureOf(log[i], key) && forall k :: i < k < |log| ==> !SuccessOf(log[k], key)
  }

  /** The key's entry has been removed since the first failure of the run. */
  ghost predicate RemovedInRun<T>(log: seq<Note<T>>, key: string) {
    exists i, j :: 0 <= i < j < |log| && InRun(log, key, i) && log[j] == Removed(key)
  }

  lemma {:induction false} StreakIsARun<T>(log: seq<Note<T>>, key: string)
    ensures Streak(log, key) > 0 <==> exists i: nat :: InRun(log, key, i)
    ensures Streak(log, key) > 0 <==> FailedAt(log, key).Some?
    decreases |log|
  {
    if log != [] {
      var before, last := log[..|log| - 1], log[|log| - 1];
      StreakIsARun(before, key);
      if FailureOf(last, key) { assert InRun(log, key, |log| - 1); }
      forall i: nat | InRun(before, key, i) && !SuccessOf(last, key) ensures InRun(log, key, i) { }
      forall i: nat | InRun(log, key, i) && i < |before| ensures InRun(before, key, i) { assert before[i] == log[i]; }
    }
  }

  /** An entry has forgotten failures of its key exactly if it has been removed since the first of them. */
  lemma {:induction false} ForgetsByRemoval<T>(log: seq<Note<T>>, key: string)
    ensures var m := Recall(log, key);
            && m.failures <= Streak(log, key)
            && (m.failures < Streak(log, key) <==> RemovedInRun(log, key))
            && (m.failures < Streak(log, key) ==> m.value.None?)
            && (m.failures > 0 ==> m.failedAt == FailedAt(log, key)) && (m.failures == 0 <==> m.failedAt.None?)
    decreases |log|
  {
    if log != [] {
      var before, last := log[..|log| - 1], log[|log| - 1];
      ForgetsByRemoval(before, key);
      RunGoesOn(log, key);
    }
  }

  lemma RunGoesOn<T>(log: seq<Note<T>>, key: string)
    requires log != []
    ensures var before, last := log[..|log| - 1], log[|log| - 1];
            RemovedInRun(log, key) <==>
              !SuccessOf(last, key) && (RemovedInRun(before, key) || (last == Removed(key) && Streak(before, key) > 0))
  {
    var before, last := log[..|log| - 1], log[|log| - 1];
    StreakIsARun(before, key);
    forall i: nat | InRun(before, key, i) && !SuccessOf(last, key) ensures InRun(log, key, i) { assert before[i] == log[i]; }
    forall i: nat | InRun(log, key, i) && i < |before| ensures InRun(before, key, i) { assert before[i] == log[i]; }
    if RemovedInRun(log, key) {
      var i, j :| 0 <= i < j < |log| && InRun(log, key, i) && log[j] == Removed(key);
      assert InRun(before, key, i);
      if j < |before| { assert before[j] == Removed(key); }
    }
    if !SuccessOf(last, key) && RemovedInRun(before, key) {
      var i, j :| 0 <= i < j < |before| && InRun(before, key, i) && before[j] == Removed(key);
      assert InRun(log, key, i) && log[j] == Removed(key);
    }
    if last == Removed(key) && Streak(before, key) > 0 {
      var i: nat :| InRun(before, key, i);
      assert InRun(log, key, i) && log[|before|] == Removed(key);
    }
  }

  lemma {:induction false} RemovalsMean<T>(slots: seq<Slot<T>>, after: seq<Slot<T>>, key: string)
    ensures Removed(key) in Removals(slots, after) <==> Lookup(slots, key).Some? && Lookup(after, key).None?
    ensures forall n :: n in Removals(slots, after) ==> n.Removed?
  {
    if slots != [] { RemovalsMean(slots[1..], after, key); }
  }

  lemma {:induction false} AfterRemovals<T>(log: seq<Note<T>>, gone: seq<Note<T>>, key: string)
    requires forall n :: n in gone ==> n.Removed?
    ensures Recall(log + gone, key) == (if Removed(key) in gone then Blank() else Recall(log, key))
    decreases |gone|
  {
    if gone == [] {
      assert log + gone == log;
    } else {
      var last := gone[|gone| - 1];
      assert (log + gone)[..|log + gone| - 1] == log + gone[..|gone| - 1];
      assert gone == gone[..|gone| - 1] + [last] && last in gone;
      AfterRemovals(log, gone[..|gone| - 1], key);
    }
  }

  // ---------------------------------------------------------------- soundness

  ghost predicate Distinct<T>(slots: seq<Slot<T>>) {
    forall i, j :: 0 <= i < j < |slots| ==> slots[i].key != slots[j].key && slots[i].entry.id != slots[j].entry.id
  }

  /** A promise is handed out exactly while the entry of its key holds it. */
  ghost predicate FlightsAreStored<T>(slots: seq<Slot<T>>, flights: map<nat, string>) {
    && (forall s :: s in slots ==> (s.entry.id in flights <==> !s.entry.phase.Idle?))
    && (forall s :: s in slots && s.entry.id in flights ==> flights[s.entry.id] == s.key)
    && (forall id :: id in flights ==> exists s :: s in slots && s.entry.id == id)
  }

  ghost predicate Sound<T>(w: World<T>, capacity: nat) {
    && Distinct(w.cache.slots) && |w.cache.slots| <= capacity
    && (forall s :: s in w.cache.slots ==> s.entry.id < w.cache.nextId && Remembers(s.entry, s.key, w.log))
    && FlightsAreStored(w.cache.slots, w.flights)
    && Forgotten(w.cache.slots, w.log)
  }

  /** Of a key without an entry nothing is remembered. */
  ghost predicate Forgotten<T>(slots: seq<Slot<T>>, log: seq<Note<T>>) {
    forall key :: Lookup(slots, key).None? ==> Recall(log, key) == Blank()
  }

  lemma {:induction false} PruneIn<T>(slots: seq<Slot<T>>, now: int, s: Slot<T>)
    ensures s in Prune(slots, now) <==> s in slots && !Stale(s.entry, now)
  {
    if slots != [] {
      assert s in slots <==> s == slots[0] || s in slots[1..];
      PruneIn(slots[1..], now, s);
    }
  }

  lemma {:induction false} PruneKeeps<T>(slots: seq<Slot<T>>, now: int)
    requires Distinct(slots)
    ensures Distinct(Prune(slots, now)) && |Prune(slots, now)| <= |slots|
    ensures forall s :: s in Prune(slots, now) ==> s in slots
    ensures forall s :: s in slots && !Stale(s.entry, now) ==> s in Prune(slots, now)
  {
    forall s ensures s in Prune(slots, now) <==> s in slots && !Stale(s.entry, now) { PruneIn(slots, now, s); }
    if slots != [] {
      assert Distinct(slots[1..]) by { assert forall i :: 0 <= i < |slots| - 1 ==> slots[1..][i] == slots[i + 1]; }
      PruneKeeps(slots[1..], now);
      var rest := Prune(slots[1..], now);
      forall i | 0 <= i < |rest| ensures rest[i].key != slots[0].key && rest[i].entry.id != slots[0].entry.id {
        PruneIn(slots[1..], now, rest[i]);
        var k :| 0 <= k < |slots[1..]| && slots[1..][k] == rest[i];
        assert slots[k + 1] == rest[i];
      }
      DistinctFrom(slots[0], rest);
    }
  }

  lemma DistinctFrom<T>(first: Slot<T>, rest: seq<Slot<T>>)
    requires Distinct(rest) && forall i :: 0 <= i < |rest| ==> rest[i].key != first.key && rest[i].entry.id != first.entry.id
    ensures Distinct([first] + rest)
  {
  }

  /** Room is made only at the expense of entries without a promise, and it is room for exactly one more. */
  lemma RoomKeeps<T>(slots: seq<Slot<T>>, now: int, capacity: nat)
    requires Distinct(slots) && |slots| <= capacity && MakeRoom(slots, now, capacity).Some?
    ensures var kept := MakeRoom(slots, now, capacity).value;
            && Distinct(kept) && |kept| < capacity
            && (forall s :: s in kept ==> s in slots)
            && (forall s :: s in slots && !s.entry.phase.Idle? ==> s in kept)
  {
    hide Prune, FirstIdle, Distinct;
    PruneKeeps(slots, now);
    var pruned := Prune(slots, now);
    if |pruned| >= capacity { DropOne(pruned, FirstIdle(pruned).value); }
  }

  lemma DropOne<T>(slots: seq<Slot<T>>, i: nat)
    requires Distinct(slots) && i < |slots|
    ensures var kept := slots[..i] + slots[i + 1..];
            Distinct(kept) && (forall s :: s in kept ==> s in slots) && forall s :: s in slots && s != slots[i] ==> s in kept
  {
    var kept := slots[..i] + slots[i + 1..];
    assert forall k :: 0 <= k < |kept| ==> kept[k] == slots[if k < i then k else k + 1];
    forall s | s in slots && s != slots[i] ensures s in kept {
      var k :| 0 <= k < |slots| && slots[k] == s;
      if k < i { assert kept[k] == s; } else { assert kept[k - 1] == s; }
    }
  }

  lemma RequestKeepsSound<T>(w: World<T>, key: string, now: int, capacity: nat, ttlMs: int)
    requires Sound(w, capacity)
    ensures Sound(Next(w, Request(key, now), capacity, ttlMs), capacity)
  {
    hide Remembers, Prune, FirstIdle, MakeRoom, Recall, Removals, Forgotten;
    var slots := w.cache.slots;
    match Lookup(slots, key) {
      case Some(i) =>
        KeysStay(slots, i, slots[i].entry);
        KeysStay(slots, i, slots[i].entry.(phase := Loading));
        assert WithEntry(slots, i, slots[i].entry) == slots && w.log + [] == w.log;
        if slots[i].entry.phase.Idle? { ReloadKeepsSound(w, i, capacity); }
      case None =>
        PruneKeeps(slots, now);
        var room := MakeRoom(slots, now, capacity);
        if room.Some? {
          RoomKeeps(slots, now, capacity);
          NewEntry(w, room.value, key, capacity);
        } else {
          PrunedKeepsSound(w, now, capacity);
        }
    }
  }

  lemma ReloadKeepsSound<T>(w: World<T>, i: nat, capacity: nat)
    requires Sound(w, capacity) && i < |w.cache.slots| && w.cache.slots[i].entry.phase.Idle?
    ensures var slot := w.cache.slots[i];
            Sound(World(w.cache.(slots := WithEntry(w.cache.slots, i, slot.entry.(phase := Loading))), w.flights[slot.entry.id := slot.key], w.log), capacity)
  {
    hide Remembers, Recall, Distinct, Forgotten;
    var slot := w.cache.slots[i];
    assert slot in w.cache.slots;
    SameMemory(slot.entry, slot.entry.(phase := Loading), slot.key, w.log);
    ReplacedEntry(w, i, slot.entry.(phase := Loading), w.flights[slot.entry.id := slot.key], w.log, capacity);
  }

  /** Changing an entry removes no key. */
  lemma KeysStay<T>(slots: seq<Slot<T>>, i: nat, e: Entry<T>)
    requires i < |slots|
    ensures forall key :: Lookup(slots, key).Some? ==> Lookup(WithEntry(slots, i, e), key).Some?
    ensures Removals(slots, WithEntry(slots, i, e)) == []
  {
    var after := WithEntry(slots, i, e);
    forall key ensures Lookup(slots, key).Some? ==> Lookup(after, key).Some? {
      var found := Lookup(slots, key);
      if found.Some? { assert after[found.value] in after; }
    }
    forall s | s in slots ensures Lookup(after, s.key).Some? { var found := Lookup(slots, s.key); }
    NothingGone(slots, after);
  }

  lemma {:induction false} NothingGone<T>(slots: seq<Slot<T>>, after: seq<Slot<T>>)
    requires forall s :: s in slots ==> Lookup(after, s.key).Some?
    ensures Removals(slots, after) == []
  {
    if slots != [] {
      assert slots[0] in slots;
      NothingGone(slots[1..], after);
    }
  }

  lemma GoneIsForgotten<T>(slots: seq<Slot<T>>, after: seq<Slot<T>>, log: seq<Note<T>>, key: string)
    requires Forgotten(slots, log)
    ensures var log' := log + Removals(slots, after);
            Recall(log', key) == if Lookup(after, key).None? then Blank() else Recall(log, key)
  {
    RemovalsMean(slots, after, key);
    AfterRemovals(log, Removals(slots, after), key);
  }

  /** Entries are dropped, none that is in flight, and perhaps one is added for a key that had none. */
  lemma DroppedKeepsMemory<T>(w: World<T>, after: seq<Slot<T>>, capacity: nat)
    requires Sound(w, capacity)
    ensures var log := w.log + Removals(w.cache.slots, after);
            Forgotten(after, log) && forall s :: s in after && s in w.cache.slots ==> Remembers(s.entry, s.key, log)
  {
    var log := w.log + Removals(w.cache.slots, after);
    forall key ensures Recall(log, key) == if Lookup(after, key).None? then Blank() else Recall(w.log, key) {
      GoneIsForgotten(w.cache.slots, after, w.log, key);
    }
  }

  lemma PrunedKeepsSound<T>(w: World<T>, now: int, capacity: nat)
    requires Sound(w, capacity)
    ensures var pruned := Prune(w.cache.slots, now);
            Sound(World(w.cache.(slots := pruned), w.flights, w.log + Removals(w.cache.slots, pruned)), capacity)
  {
    PruneKeeps(w.cache.slots, now);
    DroppedKeepsMemory(w, Prune(w.cache.slots, now), capacity);
    KeptFlights(w, Prune(w.cache.slots, now), capacity);
    hide Remembers, Prune, Forgotten, Removals, FlightsAreStored;
  }

  lemma KeptFlights<T>(w: World<T>, kept: seq<Slot<T>>, capacity: nat)
    requires Sound(w, capacity) && forall s :: s in kept ==> s in w.cache.slots
    requires forall s :: s in w.cache.slots && !s.entry.phase.Idle? ==> s in kept
    ensures FlightsAreStored(kept, w.flights)
  {
    hide Remembers, Forgotten, Distinct;
    forall id | id in w.flights ensures exists s :: s in kept && s.entry.id == id {
      var s :| s in w.cache.slots && s.entry.id == id;
      assert s in kept;
    }
  }

  lemma SameMemory<T>(e: Entry<T>, f: Entry<T>, key: string, log: seq<Note<T>>)
    requires Remembers(e, key, log) && f == e.(phase := f.phase) && (e.phase.Loading? ==> f.phase.Loading?)
    ensures Remembers(f, key, log)
  {
  }

  lemma NewEntry<T>(w: World<T>, kept: seq<Slot<T>>, key: string, capacity: nat)
    requires Sound(w, capacity) && Distinct(kept) && |kept| < capacity && Lookup(w.cache.slots, key).None?
    requires forall s :: s in kept ==> s in w.cache.slots
    requires forall s :: s in w.cache.slots && !s.entry.phase.Idle? ==> s in kept
    ensures var id := w.cache.nextId;
            var slots := kept + [Slot(key, Entry(id, Loading, None, 0, 0, 0))];
            Sound(World(Cache(slots, id + 1), w.flights[id := key], w.log + Removals(w.cache.slots, slots)), capacity)
  {
    hide Forgotten, Removals, Recall, FlightsAreStored;
    var id := w.cache.nextId;
    var added := Slot(key, Entry(id, Loading, None, 0, 0, 0));
    var slots := kept + [added];
    DroppedKeepsMemory(w, slots, capacity);
    NewIsBlank(w, slots, key, capacity);
    assert Remembers(added.entry, key, w.log + Removals(w.cache.slots, slots));
    hide Remembers;
    assert forall i :: 0 <= i < |kept| ==> kept[i] in kept;
    NewFlight(w, kept, added, capacity);
  }

  lemma NewFlight<T>(w: World<T>, kept: seq<Slot<T>>, added: Slot<T>, capacity: nat)
    requires Sound(w, capacity) && added.entry.id == w.cache.nextId && added.entry.phase.Loading?
    requires forall s :: s in kept ==> s in w.cache.slots
    requires forall s :: s in w.cache.slots && !s.entry.phase.Idle? ==> s in kept
    ensures FlightsAreStored(kept + [added], w.flights[added.entry.id := added.key])
  {
    hide Forgotten, Remembers, Distinct;
    var slots, flights := kept + [added], w.flights[added.entry.id := added.key];
    forall f | f in flights ensures exists s :: s in slots && s.entry.id == f {
      if f == added.entry.id { assert slots[|kept|] == added; }
      else { var s :| s in w.cache.slots && s.entry.id == f; assert s in kept; }
    }
  }

  lemma NewIsBlank<T>(w: World<T>, after: seq<Slot<T>>, key: string, capacity: nat)
    requires Sound(w, capacity) && Lookup(w.cache.slots, key).None?
    ensures Recall(w.log + Removals(w.cache.slots, after), key) == Blank()
  {
    GoneIsForgotten(w.cache.slots, after, w.log, key);
  }

  /** One entry changes; its phase and the promises handed out change together. */
  lemma ReplacedEntry<T>(w: World<T>, i: nat, e: Entry<T>, flights: map<nat, string>, log: seq<Note<T>>, capacity: nat)
    requires Sound(w, capacity) && i < |w.cache.slots| && e.id == w.cache.slots[i].entry.id
    requires Remembers(e, w.cache.slots[i].key, log) && Forgotten(w.cache.slots, log)
    requires forall s :: s in w.cache.slots && s.entry.id != e.id ==> Remembers(s.entry, s.key, log)
    requires flights == (if e.phase.Idle? then w.flights - {e.id} else w.flights[e.id := w.cache.slots[i].key])
    ensures Sound(World(w.cache.(slots := WithEntry(w.cache.slots, i, e)), flights, log), capacity)
  {
    hide Remembers, Forgotten;
    var old_, new_ := w.cache.slots, WithEntry(w.cache.slots, i, e);
    SameKeys(old_, i, e, log);
    forall s | s in new_ ensures s == new_[i] || (s in old_ && s.entry.id != e.id) {
      var k :| 0 <= k < |new_| && new_[k] == s;
      if k != i { assert old_[k] == s; }
    }
    forall id | id in flights ensures exists s :: s in new_ && s.entry.id == id {
      if id == e.id { assert new_[i] in new_; }
      else {
        var s :| s in old_ && s.entry.id == id;
        var k :| 0 <= k < |old_| && old_[k] == s;
        assert new_[k] == s;
      }
    }
    assert old_[i] in old_;
  }

  lemma SameKeys<T>(slots: seq<Slot<T>>, i: nat, e: Entry<T>, log: seq<Note<T>>)
    requires i < |slots| && Forgotten(slots, log)
    ensures Forgotten(WithEntry(slots, i, e), log)
  {
    hide Recall, Removals;
    KeysStay(slots, i, e);
  }

  lemma LogOne<T>(log: seq<Note<T>>, key: string, outcome: Option<T>, now: int)
    ensures var log' := log + [Landing(key, outcome, now)];
            && (forall other :: other != key ==> Recall(log', other) == Recall(log, other))
            && (outcome.Some? ==> Recall(log', key) == Memory(0, outcome, None))
            && (outcome.None? ==> Recall(log', key) == Memory(Recall(log, key).failures + 1, Recall(log, key).value, Some(now)))
  {
    var log' := log + [Landing(key, outcome, now)];
    assert log'[..|log|] == log && log'[|log|] == Landing(key, outcome, now);
  }

  lemma SettleKeepsSound<T>(w: World<T>, i: nat, outcome: Option<T>, now: int, capacity: nat, ttlMs: int)
    requires Sound(w, capacity) && i < |w.cache.slots| && w.cache.slots[i].entry.phase.Loading?
    ensures var slot := w.cache.slots[i];
            Sound(World(w.cache.(slots := WithEntry(w.cache.slots, i, Landed(slot.entry, outcome, now, ttlMs))),
                        w.flights, w.log + [Landing(slot.key, outcome, now)]), capacity)
  {
    hide Remembers, Forgotten, Recall, Landed;
    var slot := w.cache.slots[i];
    assert slot in w.cache.slots;
    SettledMemory(w, i, outcome, now, capacity, ttlMs);
    LandedIsSettling(slot.entry, outcome, now, ttlMs);
    assert w.flights[slot.entry.id := slot.key] == w.flights;
    ReplacedEntry(w, i, Landed(slot.entry, outcome, now, ttlMs), w.flights, w.log + [Landing(slot.key, outcome, now)], capacity);
  }

  /** The entry takes the outcome into its memory; no other key is concerned. */
  lemma SettledMemory<T>(w: World<T>, i: nat, outcome: Option<T>, now: int, capacity: nat, ttlMs: int)
    requires Sound(w, capacity) && i < |w.cache.slots|
    ensures var slot := w.cache.slots[i];
            var log := w.log + [Landing(slot.key, outcome, now)];
            && Remembers(Landed(slot.entry, outcome, now, ttlMs), slot.key, log) && Forgotten(w.cache.slots, log)
            && forall s :: s in w.cache.slots && s.entry.id != slot.entry.id ==> Remembers(s.entry, s.key, log)
  {
    hide Recall, Backoff, FlightsAreStored;
    var slot := w.cache.slots[i];
    var log := w.log + [Landing(slot.key, outcome, now)];
    assert slot in w.cache.slots;
    LogOne(w.log, slot.key, outcome, now);
    forall s | s in w.cache.slots && s.entry.id != slot.entry.id ensures Remembers(s.entry, s.key, log) {
      var k :| 0 <= k < |w.cache.slots| && w.cache.slots[k] == s;
      assert s.key != slot.key;
    }
  }

  lemma StepKeepsSound<T>(w: World<T>, step: Step<T>, capacity: nat, ttlMs: int)
    requires Sound(w, capacity)
    ensures Sound(Next(w, step, capacity, ttlMs), capacity)
  {
    hide Remembers, Distinct, Get, Landed, Recall, Removals;
    match step
    case Request(key, now) => RequestKeepsSound(w, key, now, capacity, ttlMs);
    case Settle(id, outcome, now) =>
      var at := ById(w.cache.slots, id);
      if at.Some? && w.cache.slots[at.value].entry.phase.Loading? {
        SettleKeepsSound(w, at.value, outcome, now, capacity, ttlMs);
      }
    case Release(id) =>
      var at := ById(w.cache.slots, id);
      if at.Some? && w.cache.slots[at.value].entry.phase.Settling? {
        var slot := w.cache.slots[at.value];
        assert slot in w.cache.slots;
        SameMemory(slot.entry, slot.entry.(phase := Idle), slot.key, w.log);
        ReplacedEntry(w, at.value, slot.entry.(phase := Idle), w.flights - {id}, w.log, capacity);
      }
  }

  lemma LandedIsSettling<T>(e: Entry<T>, outcome: Option<T>, now: int, ttlMs: int)
    ensures Landed(e, outcome, now, ttlMs).phase.Settling? && Landed(e, outcome, now, ttlMs).id == e.id
  {
  }

  function Steps<T>(w: World<T>, steps: seq<Step<T>>, capacity: nat, ttlMs: int): World<T>
    decreases |steps|
  {
    if steps == [] then w else Steps(Next(w, steps[0], capacity, ttlMs), steps[1..], capacity, ttlMs)
  }

  lemma StartIsSound<T>(capacity: nat)
    ensures Sound<T>(World(Cache([], 0), map[], []), capacity)
  {
  }

  /** Over every interleaving of requests, settling loads and releases the cache stays sound. */
  lemma {:induction false} EveryInterleavingIsSound<T>(w: World<T>, steps: seq<Step<T>>, capacity: nat, ttlMs: int)
    requires Sound(w, capacity)
    ensures Sound(Steps(w, steps, capacity, ttlMs), capacity)
    decreases |steps|
  {
    hide Sound, Next;
    if steps != [] {
      StepKeepsSound(w, steps[0], capacity, ttlMs);
      EveryInterleavingIsSound(Next(w, steps[0], capacity, ttlMs), steps[1..], capacity, ttlMs);
    }
  }

  // ---------------------------------------------------------------- what soundness means to a caller

  /** Two promises handed out for one key are the same promise. */
  lemma SingleFlight<T>(w: World<T>, capacity: nat, a: nat, b: nat)
    requires Sound(w, capacity) && a in w.flights && b in w.flights && w.flights[a] == w.flights[b]
    ensures a == b
  {
    hide Remembers;
    var s :| s in w.cache.slots && s.entry.id == a;
    var t :| t in w.cache.slots && t.entry.id == b;
    var i :| 0 <= i < |w.cache.slots| && w.cache.slots[i] == s;
    var j :| 0 <= j < |w.cache.slots| && w.cache.slots[j] == t;
    assert s.key == t.key;
  }

  /** A request never removes an entry whose promise is handed out, so a load's result lands in the stored entry. */
  lemma InFlightSurvives<T>(w: World<T>, step: Step<T>, capacity: nat, ttlMs: int, slot: Slot<T>)
    requires Sound(w, capacity) && slot in w.cache.slots && !slot.entry.phase.Idle?
    ensures exists s :: s in Next(w, step, capacity, ttlMs).cache.slots && s.key == slot.key && s.entry.id == slot.entry.id
    ensures step.Settle? && step.id == slot.entry.id && slot.entry.phase.Loading? ==>
              Slot(slot.key, Landed(slot.entry, step.outcome, step.now, ttlMs)) in Next(w, step, capacity, ttlMs).cache.slots
  {
    hide Remembers, Landed, Forgotten, Removals, Get;
    var k :| 0 <= k < |w.cache.slots| && w.cache.slots[k] == slot;
    var after := Next(w, step, capacity, ttlMs).cache.slots;
    match step {
      case Request(key, now) => RequestKeepsFlight(w, key, now, capacity, slot);
      case Settle(id, outcome, now) =>
        var at := ById(w.cache.slots, id);
        LandedIsSettling(slot.entry, outcome, now, ttlMs);
        if at.Some? && w.cache.slots[at.value].entry.phase.Loading? {
          if at.value == k { assert after[k] == Slot(slot.key, Landed(slot.entry, outcome, now, ttlMs)); }
          else { assert after[k] == slot; }
        } else {
          assert after[k] == slot;
        }
      case Release(id) =>
        assert after[k].key == slot.key && after[k].entry.id == slot.entry.id;
    }
  }

  lemma RequestKeepsFlight<T>(w: World<T>, key: string, now: int, capacity: nat, slot: Slot<T>)
    requires Sound(w, capacity) && slot in w.cache.slots && !slot.entry.phase.Idle?
    ensures exists s :: s in Get(w.cache, key, now, capacity).0.slots && s.key == slot.key && s.entry.id == slot.entry.id
  {
    hide Remembers, Forgotten, Prune, FirstIdle, MakeRoom, Distinct, FlightsAreStored;
    var k :| 0 <= k < |w.cache.slots| && w.cache.slots[k] == slot;
    var after := Get(w.cache, key, now, capacity).0.slots;
    PruneKeeps(w.cache.slots, now);
    match Lookup(w.cache.slots, key) {
      case Some(i) => assert after[k].key == slot.key && after[k].entry.id == slot.entry.id;
      case None =>
        var room := MakeRoom(w.cache.slots, now, capacity);
        if room.Some? { RoomKeeps(w.cache.slots, now, capacity); assert slot in room.value; }
        assert slot in after;
    }
  }

  /**
   After straight failures a load starts early exactly if failures have been forgotten: either the key has no entry and
   there is room for one, or its entry is idle and the backoff of the failures it still knows has passed.
   */
  lemma EarlyReloadExactly<T>(w: World<T>, capacity: nat, key: string, now: int)
    requires Sound(w, capacity) && FailedAt(w.log, key).Some?
    requires now < FailedAt(w.log, key).value + Backoff(Streak(w.log, key))
    ensures Get(w.cache, key, now, capacity).1.Started? <==>
              RemovedInRun(w.log, key)
              && match Lookup(w.cache.slots, key) {
                   case None => MakeRoom(w.cache.slots, now, capacity).Some?
                   case Some(i) => w.cache.slots[i].entry.phase.Idle?
                                   && FailedAt(w.log, key).value + Backoff(Recall(w.log, key).failures) <= now
                 }
  {
    hide Backoff, Streak, Recall, FailedAt, MakeRoom, RemovedInRun;
    ForgetsByRemoval(w.log, key);
    StreakIsARun(w.log, key);
    match Lookup(w.cache.slots, key) {
      case None => assert Recall(w.log, key) == Blank();
      case Some(i) => assert w.cache.slots[i] in w.cache.slots;
    }
  }

  /** As long as its entry stays, a key that failed k times in a row loads no earlier than its backoff for k, and nothing changes. */
  lemma NoEarlyReload<T>(w: World<T>, capacity: nat, key: string, now: int)
    requires Sound(w, capacity) && FailedAt(w.log, key).Some? && !RemovedInRun(w.log, key)
    requires now < FailedAt(w.log, key).value + Backoff(Streak(w.log, key))
    ensures var (cache, answer) := Get(w.cache, key, now, capacity); cache == w.cache && !answer.Started?
  {
    hide Backoff, Streak, Recall, FailedAt, MakeRoom, RemovedInRun;
    EarlyReloadExactly(w, capacity, key, now);
    ForgetsByRemoval(w.log, key);
    StreakIsARun(w.log, key);
    assert Lookup(w.cache.slots, key).None? ==> Recall(w.log, key) == Blank();
  }

  /**
   An entry is removed exactly by a request for another key that has none, and only if it is stale by then, or if the
   cache is full without the stale ones and it is the first idle one.
   */
  lemma RemovedExactly<T>(w: World<T>, step: Step<T>, capacity: nat, ttlMs: int, slot: Slot<T>)
    requires Sound(w, capacity) && slot in w.cache.slots
    ensures Removed(slot.key) in Next(w, step, capacity, ttlMs).log[|w.log|..] <==>
              step.Request? && Lookup(w.cache.slots, step.key).None?
              && (Stale(slot.entry, step.now) || Evicted(Prune(w.cache.slots, step.now), capacity, slot))
  {
    hide Prune, FirstIdle, Get, Removals, Remembers, Distinct, Landed, Evicted, ById, Forgotten;
    var after := Next(w, step, capacity, ttlMs);
    if step.Request? {
      RemovalsMean(w.cache.slots, after.cache.slots, slot.key);
      assert after.log[|w.log|..] == Removals(w.cache.slots, after.cache.slots);
      KeptExactly(w.cache, step.key, step.now, capacity, slot);
      var found := Lookup(w.cache.slots, slot.key);
      assert found.Some?;
    } else if step.Release? {
      assert after.log[|w.log|..] == [];
    } else {
      assert after.log == w.log ==> after.log[|w.log|..] == [];
      assert after.log != w.log ==> after.log[|w.log|..] == [Landing(w.cache.slots[ById(w.cache.slots, step.id).value].key, step.outcome, step.now)];
    }
  }

  predicate Evicted<T(==)>(kept: seq<Slot<T>>, capacity: nat, slot: Slot<T>) {
    |kept| >= capacity && FirstIdle(kept).Some? && kept[FirstIdle(kept).value] == slot
  }

  lemma KeptExactly<T>(c: Cache<T>, key: string, now: int, capacity: nat, slot: Slot<T>)
    requires Distinct(c.slots) && slot in c.slots
    ensures Lookup(Get(c, key, now, capacity).0.slots, slot.key).None? <==>
              Lookup(c.slots, key).None? && (Stale(slot.entry, now) || Evicted(Prune(c.slots, now), capacity, slot))
  {
    hide Prune, FirstIdle;
    var after := Get(c, key, now, capacity).0.slots;
    var m :| 0 <= m < |c.slots| && c.slots[m] == slot;
    PruneKeeps(c.slots, now);
    PruneIn(c.slots, now, slot);
    var kept := Prune(c.slots, now);
    match Lookup(c.slots, key) {
      case Some(i) => assert after[m].key == slot.key && after[m] in after;
      case None =>
        if |kept| >= capacity && FirstIdle(kept).Some? {
          DropOne(kept, FirstIdle(kept).value);
          if slot in kept { DropsOnly(kept, FirstIdle(kept).value, slot); }
        }
        OneSlotPerKey(c.slots, after, key, slot);
    }
  }

  /** Where the slots are old ones and at most one for a new key, a key is there exactly with its old slot. */
  lemma OneSlotPerKey<T>(slots: seq<Slot<T>>, after: seq<Slot<T>>, key: string, slot: Slot<T>)
    requires Distinct(slots) && slot in slots && (forall s :: s in slots ==> s.key != key)
    requires forall s :: s in after ==> s in slots || s.key == key
    ensures Lookup(after, slot.key).None? <==> slot !in after
  {
    var found := Lookup(after, slot.key);
    if found.Some? {
      var other := after[found.value];
      assert other in after;
      var i :| 0 <= i < |slots| && slots[i] == slot;
      var j :| 0 <= j < |slots| && slots[j] == other;
    }
  }

  lemma DropsOnly<T>(slots: seq<Slot<T>>, i: nat, slot: Slot<T>)
    requires Distinct(slots) && i < |slots| && slot in slots
    ensures slot in slots[..i] + slots[i + 1..] <==> slots[i] != slot
  {
    DropOne(slots, i);
    var kept := slots[..i] + slots[i + 1..];
    if slot in kept {
      var k :| 0 <= k < |kept| && kept[k] == slot;
      assert slot == slots[if k < i then k else k + 1];
    }
  }

  lemma ThreeSteps<T>(w: World<T>, a: Step<T>, b: Step<T>, c: Step<T>, capacity: nat)
    ensures Steps(w, [a, b, c], capacity, 1) == Next(Next(Next(w, a, capacity, 1), b, capacity, 1), c, capacity, 1)
  {
    hide Next;
    assert [a, b, c][1..] == [b, c] && [b, c][1..] == [c] && [c][1..] == [];
    var first := Next(w, a, capacity, 1);
    var second := Next(first, b, capacity, 1);
    assert Steps(w, [a, b, c], capacity, 1) == Steps(first, [b, c], capacity, 1);
    assert Steps(first, [b, c], capacity, 1) == Steps(second, [c], capacity, 1);
  }

  function FailsOnce(key: string, id: nat, now: int): seq<Step<int>> {
    [Request(key, now), Settle(id, None, now), Release(id)]
  }

  function Empty(): World<int> {
    World(Cache([], 0), map[], [])
  }

  lemma FirstFailure(capacity: nat)
    requires capacity > 0
    ensures var failed := Steps(Empty(), FailsOnce("a", 0, 0), capacity, 1);
            failed == World(Cache([Slot("a", Entry(0, Idle, None, 0, 2000, 1))], 1), map[], [Landing("a", None, 0)])
  {
    var request: Step<int>, settle: Step<int>, release: Step<int> := Request("a", 0), Settle(0, None, 0), Release(0);
    ThreeSteps(Empty(), request, settle, release, capacity);
    var w1 := Next(Empty(), request, capacity, 1);
    assert w1 == World(Cache([Slot("a", Entry(0, Loading, None, 0, 0, 0))], 1), map[0 := "a"], []);
    var w2 := Next(w1, settle, capacity, 1);
    assert w2.cache == Cache([Slot("a", Entry(0, Settling, None, 0, 2000, 1))], 1);
    assert w2.log == [Landing("a", None, 0)];
  }

  /** At capacity one a failing key is backed off; another key takes its place, and it then loads again at once. */
  lemma BackoffCanBeCutShort(now: int)
    requires 0 < now < 2000
    ensures var failed := Steps(Empty(), FailsOnce("a", 0, 0), 1, 1);
            var taken := Steps(failed, [Request("b", now), Settle(1, Some(7), now), Release(1)], 1, 1);
            && FailedAt(failed.log, "a") == Some(0) && Streak(failed.log, "a") == 1 && now < Backoff(1)
            && Get(failed.cache, "a", now, 1).1 == BackedOff
            && Get(taken.cache, "a", now, 1).1 == Started(2)
  {
    FirstFailure(1);
    var failed := Steps(Empty(), FailsOnce("a", 0, 0), 1, 1);
    assert failed.log[..0] == [];
    TakenOver(failed, now);
  }

  lemma TakenOver(w: World<int>, now: int)
    requires 0 < now < 2000 && w.cache == Cache([Slot("a", Entry(0, Idle, None, 0, 2000, 1))], 1)
    ensures var taken := Steps(w, [Request("b", now), Settle(1, Some(7), now), Release(1)], 1, 1);
            Get(taken.cache, "a", now, 1).1 == Started(2)
  {
    hide Removals;
    var request, settle, release := Request("b", now), Settle(1, Some(7), now), Release(1);
    ThreeSteps(w, request, settle, release, 1);
    var w1 := Next(w, request, 1, 1);
    var pruned := Prune(w.cache.slots, now);
    assert w.cache.slots[1..] == [] && Prune(w.cache.slots[1..], now) == [];
    assert !Stale(w.cache.slots[0].entry, now);
    assert pruned == [w.cache.slots[0]] + [];
    assert pruned == w.cache.slots && pruned[..0] + pruned[1..] == [];
    assert w1.cache == Cache([Slot("b", Entry(1, Loading, None, 0, 0, 0))], 2);
    var w2 := Next(w1, settle, 1, 1);
    var w3 := Next(w2, release, 1, 1);
    assert w3.cache == Cache([Slot("b", Entry(1, Idle, Some(7), now + 1, 0, 0))], 2);
  }

  /**
   A cache need not be full for failures to be forgotten. A key fails at 0; at 2000 its backoff has passed, a request
   for another key prunes its entry, and it fails again. Its second failure in a row should hold it back until 6000,
   but from 4000 on it loads.
   */
  lemma PruningForgetsFailures(capacity: nat, now: int)
    requires capacity >= 2 && 4000 <= now < 6000
    ensures var failed := Steps(Empty(), FailsOnce("a", 0, 0), capacity, 1);
            var again := Steps(Next(failed, Request("b", 2000), capacity, 1), FailsOnce("a", 2, 2000), capacity, 1);
            && FailedAt(again.log, "a") == Some(2000) && Streak(again.log, "a") == 2 && now < 2000 + Backoff(2)
            && Get(again.cache, "a", now, capacity).1 == Started(2)
  {
    hide Steps, Next, Get, Streak, FailedAt, Backoff;
    FirstFailure(capacity);
    var failed := Steps(Empty(), FailsOnce("a", 0, 0), capacity, 1);
    PrunedByAnother(failed, capacity);
    var other := Next(failed, Request("b", 2000), capacity, 1);
    SecondFailure(other, capacity);
    TwoFailures();
    LoadsAgain(Steps(other, FailsOnce("a", 2, 2000), capacity, 1).cache, now, capacity);
  }

  lemma TwoFailures()
    ensures var log: seq<Note<int>> := [Landing("a", None, 0), Removed("a")] + [Landing("a", None, 2000)];
            Streak(log, "a") == 2 && FailedAt(log, "a") == Some(2000)
    ensures Backoff(2) == 4000
  {
    var one: seq<Note<int>>, two: seq<Note<int>> := [Landing("a", None, 0)], [Landing("a", None, 0), Removed("a")];
    var log := two + [Landing("a", None, 2000)];
    assert one[..0] == [] && two[..1] == one && log[..2] == two && log[2] == Landing("a", None, 2000);
    assert Streak(one, "a") == 1;
    assert Streak(two, "a") == 1;
    assert Pow2(1) == 2;
  }

  lemma PrunedByAnother(w: World<int>, capacity: nat)
    requires capacity >= 2 && w == World(Cache([Slot("a", Entry(0, Idle, None, 0, 2000, 1))], 1), map[], [Landing("a", None, 0)])
    ensures var other := Next(w, Request("b", 2000), capacity, 1);
            && other.cache == Cache([Slot("b", Entry(1, Loading, None, 0, 0, 0))], 2)
            && other.log == [Landing("a", None, 0), Removed("a")]
  {
    var a, b: Slot<int> := w.cache.slots[0], Slot("b", Entry(1, Loading, None, 0, 0, 0));
    assert w.cache.slots == [a] && a.key == "a";
    AloneIsPruned(a);
    var slots: seq<Slot<int>> := [] + [b];
    assert slots == [b];
    assert Get(w.cache, "b", 2000, capacity).0 == Cache(slots, 2);
    assert [a][1..] == [] && Removals([a][1..], [b]) == [];
    assert Lookup([b], "a").None?;
    assert Removals([a], [b]) == [Removed("a")];
  }

  lemma AloneIsPruned(a: Slot<int>)
    requires Stale(a.entry, 2000) && a.key == "a"
    ensures Prune([a], 2000) == [] && Lookup([a], "b").None?
  {
    assert [a][1..] == [] && Prune([a][1..], 2000) == [];
  }

  lemma LoadsAgain(c: Cache<int>, now: int, capacity: nat)
    requires c == Cache([Slot("b", Entry(1, Loading, None, 0, 0, 0)), Slot("a", Entry(2, Idle, None, 0, 4000, 1))], 3) && now >= 4000
    ensures Get(c, "a", now, capacity).1 == Started(2)
  {
    assert c.slots[1..] == [c.slots[1]];
    assert Lookup(c.slots[1..], "a") == Some(0) && Lookup(c.slots, "a") == Some(1);
  }

  lemma SecondFailure(w: World<int>, capacity: nat)
    requires capacity >= 2 && w.cache == Cache([Slot("b", Entry(1, Loading, None, 0, 0, 0))], 2)
    ensures var again := Steps(w, FailsOnce("a", 2, 2000), capacity, 1);
            && again.cache == Cache([Slot("b", Entry(1, Loading, None, 0, 0, 0)), Slot("a", Entry(2, Idle, None, 0, 4000, 1))], 3)
            && again.log == w.log + [Landing("a", None, 2000)]
  {
    var b, request, settle, release := w.cache.slots[0], Request("a", 2000), Settle(2, None, 2000), Release(2);
    ThreeSteps(w, request, settle, release, capacity);
    var w1 := Next(w, request, capacity, 1);
    assert w.cache.slots == [b] && [b][1..] == [] && Prune([b][1..], 2000) == [] && Prune([b], 2000) == [b];
    var slots := [b, Slot("a", Entry(2, Loading, None, 0, 0, 0))];
    assert w1.cache == Cache(slots, 3);
    assert Removals([b], slots) == [];
    assert slots[1..] == [slots[1]];
    var w2 := Next(w1, settle, capacity, 1);
    assert w2.cache == Cache([b, Slot("a", Entry(2, Settling, None, 0, 4000, 1))], 3);
    assert w2.cache.slots[1..] == [w2.cache.slots[1]];
  }
}
