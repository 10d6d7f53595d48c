/**
 The ordered price journal. Each `await` is a step boundary: ticks may arrive between the start of a write,
 its settling and the moment the journal is free again.
 */
module PriceJournal {
  import opened Common

  type BatchSize = n: nat | 1 <= n <= 2000 witness 500

  /** Idle, writing a batch, or settled but not yet free for the next write. */
  datatype Phase<T> = Idle | Writing(batch: seq<T>) | Settled

  datatype Journal<T> = Journal(pending: seq<T>, phase: Phase<T>, overflowing: bool, healthy: bool)

  function Empty<T>(): Journal<T> {
    Journal([], Idle, false, true)
  }

  predicate Full<T>(j: Journal<T>, capacity: nat) {
    |j.pending| >= capacity
  }

  function Enqueued<T>(j: Journal<T>, event: T, capacity: nat): Journal<T> {
    if Full(j, capacity) then j.(healthy := false, overflowing := true)
    else j.(overflowing := false, pending := j.pending + [event])
  }

  function FirstBatch<T>(pending: seq<T>, batchSize: BatchSize): seq<T> {
    pending[..if batchSize <= |pending| then batchSize else |pending|]
  }

  /** A write in flight is shared; an empty journal settles at once. */
  function Flushed<T>(j: Journal<T>, batchSize: BatchSize): Journal<T> {
    if !j.phase.Idle? then j
    else j.(phase := if j.pending == [] then Settled else Writing(FirstBatch(j.pending, batchSize)))
  }

  function AfterWrite<T>(j: Journal<T>, ok: bool, capacity: nat): Journal<T> {
    if !j.phase.Writing? || |j.phase.batch| > |j.pending| then j
    else if ok then
      var rest := j.pending[|j.phase.batch|..];
      j.(pending := rest, healthy := |rest| < capacity, phase := Settled)
    else j.(healthy := false, phase := Settled)
  }

  function Freed<T>(j: Journal<T>): Journal<T> {
    if j.phase.Settled? then j.(phase := Idle) else j
  }

  class OrderedPriceJournal<T> {
    const capacity: nat
    const batchSize: BatchSize
    var pending: seq<T>
    var phase: Phase<T>
    var overflowing: bool
    var healthy: bool

    function View(): Journal<T>
      reads this
    {
      Journal(pending, phase, overflowing, healthy)
    }

    /** The batch being written is still at the head of the queue. */
    ghost predicate Valid()
      reads this
    {
      InFlightIsHead(View())
    }

    constructor (capacity: nat, batchSize: BatchSize)
      ensures View() == Empty() && Valid() && this.capacity == capacity && this.batchSize == batchSize
    {
      this.capacity, this.batchSize := capacity, batchSize;
      pending, phase, overflowing, healthy := [], Idle, false, true;
    }

    /** Accepts while there is room; the first rejection of a run asks for the overflow handler. */
    method Enqueue(event: T) returns (accepted: bool, overflow: bool)
      requires Valid()
      modifies this
      ensures Valid() && View() == Enqueued(old(View()), event, capacity)
      ensures accepted == (|old(pending)| < capacity) && overflow == (!accepted && !old(overflowing))
      ensures pending == if accepted then old(pending) + [event] else old(pending)
      ensures overflowing == !accepted && healthy == (old(healthy) && accepted) && phase == old(phase)
    {
      if |pending| >= capacity {
        healthy := false;
        overflow := !overflowing;
        overflowing := true;
        return false, overflow;
      }
      overflowing := false;
      pending := pending + [event];
      return true, false;
    }

    /** Starts a write of the head of the queue unless one is in flight. */
    method Flush() returns (batch: Option<seq<T>>)
      requires Valid()
      modifies this
      ensures Valid() && View() == Flushed(old(View()), batchSize) && pending == old(pending)
      ensures batch.Some? ==> old(phase).Idle? && batch.value != [] && batch.value <= pending && |batch.value| <= batchSize
      ensures batch.Some? <==> old(phase).Idle? && pending != []
      ensures batch.Some? ==> |batch.value| == batchSize || batch.value == pending
      ensures phase == if batch.Some? then Writing(batch.value) else if old(phase).Idle? then Settled else old(phase)
      ensures healthy == old(healthy) && overflowing == old(overflowing)
    {
      batch := None;
      if !phase.Idle? { return; }
      if pending == [] { phase := Settled; return; }
      batch := Some(FirstBatch(pending, batchSize));
      phase := Writing(batch.value);
    }

    method WriteSettled(ok: bool)
      requires Valid() && phase.Writing?
      modifies this
      ensures Valid() && View() == AfterWrite(old(View()), ok, capacity)
      ensures if ok then old(phase.batch) + pending == old(pending) else pending == old(pending)
      ensures healthy == (ok && |pending| < capacity) && phase == Settled && overflowing == old(overflowing)
    {
      if ok {
        pending := pending[|phase.batch|..];
        healthy := |pending| < capacity;
      } else {
        healthy := false;
      }
      phase := Settled;
    }

    method Free()
      requires Valid() && phase.Settled?
      modifies this
      ensures Valid() && View() == Freed(old(View()))
      ensures phase == Idle && pending == old(pending) && healthy == old(healthy) && overflowing == old(overflowing)
    {
      phase := Idle;
    }
  }

  predicate InFlightIsHead<T(==)>(j: Journal<T>) {
    j.phase.Writing? ==> j.phase.batch != [] && j.phase.batch <= j.pending
  }

  // ---------------------------------------------------------------- the journal in its worker

  /** A tick as it arrived: on which stream, and whether the journal took it. */
  datatype Arrival<T> = Arrival(event: T, stream: nat, accepted: bool)

  /** The journal, the session whose id new ticks carry, everything written, and every arrival so far. */
  datatype World<T> = World(journal: Journal<T>, session: nat, written: seq<T>, history: seq<Arrival<T>>,
                            overflows: nat, spoiled: bool)

  datatype Step<T> = Arrive(event: T) | Reconnect | Flush | Settle(ok: bool) | Free

  function Start<T>(): World<T> {
    World(Empty(), 0, [], [], 0, false)
  }

  /** The overflow handler runs inside the enqueue and begins a new session; sessions are numbered in order. */
  function Next<T>(w: World<T>, step: Step<T>, capacity: nat, batchSize: BatchSize): World<T> {
    var j := w.journal;
    match step
    case Arrive(x) =>
      var full := Full(j, capacity);
      var overflow := full && !j.overflowing;
      w.(journal := Enqueued(j, x, capacity), history := w.history + [Arrival(x, w.session, !full)],
         session := if overflow then w.session + 1 else w.session, overflows := if overflow then w.overflows + 1 else w.overflows,
         spoiled := w.spoiled || full)
    case Reconnect => w.(session := w.session + 1)
    case Flush => w.(journal := Flushed(j, batchSize))
    case Settle(ok) =>
      if !j.phase.Writing? then w
      else if ok then w.(journal := AfterWrite(j, true, capacity), written := w.written + j.phase.batch, spoiled := false)
      else w.(journal := AfterWrite(j, false, capacity), spoiled := true)
    case Free => w.(journal := Freed(j))
  }

  function Accepted<T>(history: seq<Arrival<T>>): seq<T> {
    if history == [] then []
    else Accepted(history[..|history| - 1]) + if history[|history| - 1].accepted then [history[|history| - 1].event] else []
  }

  /** Maximal runs of rejected ticks. */
  function Rejections<T>(history: seq<Arrival<T>>): nat {
    var n := |history|;
    if n == 0 then 0
    else Rejections(history[..n - 1]) + if !history[n - 1].accepted && (n == 1 || history[n - 2].accepted) then 1 else 0
  }

  /** Between two accepted ticks of one stream nothing was dropped. */
  ghost predicate NoDropWithinStream<T>(history: seq<Arrival<T>>) {
    forall a, d, z :: 0 <= a < d < z < |history| && history[a].accepted && history[z].accepted && history[a].stream == history[z].stream
      ==> history[d].accepted
  }

  ghost predicate Sound<T>(w: World<T>, capacity: nat, batchSize: BatchSize) {
    var j, n := w.journal, |w.history|;
    && w.written + j.pending == Accepted(w.history)
    && |j.pending| <= capacity
    && InFlightIsHead(j) && (j.phase.Writing? ==> |j.phase.batch| <= batchSize)
    && (j.overflowing <==> n > 0 && !w.history[n - 1].accepted)
    && w.overflows == Rejections(w.history)
    && NoDropWithinStream(w.history)
    && (capacity > 0 ==> (j.healthy <==> !w.spoiled))
    && Relied(w.history, w.session)
  }

  /** What later ticks of the present session rely on: since its first accepted tick none was rejected. */
  ghost predicate Relied<T>(history: seq<Arrival<T>>, session: nat) {
    && (forall a :: 0 <= a < |history| ==> history[a].stream <= session)
    && (forall a, d :: 0 <= a < d < |history| && history[a].accepted && history[a].stream == session ==> history[d].accepted)
  }

  lemma AcceptedAfter<T>(history: seq<Arrival<T>>, a: Arrival<T>)
    ensures Accepted(history + [a]) == Accepted(history) + if a.accepted then [a.event] else []
    ensures Rejections(history + [a]) == Rejections(history)
              + if !a.accepted && (history == [] || history[|history| - 1].accepted) then 1 else 0
  {
    assert (history + [a])[..|history|] == history;
  }

  /** An accepted tick follows only accepted ticks of its own stream, as far as the earlier accepted one. */
  lemma NoDropAfter<T>(w: World<T>, a: Arrival<T>, capacity: nat, batchSize: BatchSize)
    requires Sound(w, capacity, batchSize) && a.stream == w.session
    ensures NoDropWithinStream(w.history + [a])
  {
    hide Accepted, Rejections;
    var all := w.history + [a];
    forall i, d, z | 0 <= i < d < z < |all| && all[i].accepted && all[z].accepted && all[i].stream == all[z].stream ensures all[d].accepted {
      assert all[i] == w.history[i] && all[d] == w.history[d];
      if z < |w.history| { assert all[z] == w.history[z]; }
    }
  }

  lemma ArrivalKeepsSound<T>(w: World<T>, x: T, capacity: nat, batchSize: BatchSize)
    requires Sound(w, capacity, batchSize)
    ensures Sound(Next(w, Arrive(x), capacity, batchSize), capacity, batchSize)
  {
    hide Accepted, Rejections, NoDropWithinStream, Relied;
    var next, n := Next(w, Arrive(x), capacity, batchSize), |w.history|;
    var arrival := Arrival(x, w.session, !Full(w.journal, capacity));
    assert next.history == w.history + [arrival] && next.history[n] == arrival;
    AcceptedAfter(w.history, arrival);
    NoDropAfter(w, arrival, capacity, batchSize);
    ReliedAfter(w.history, arrival, w.session);
    assert w.written + (w.journal.pending + [x]) == w.written + w.journal.pending + [x];
    assert w.written + w.journal.pending + [] == w.written + w.journal.pending;
  }

  /** An accepted tick stays in its session; the first rejected one begins a new session, and the next ones stay in that. */
  lemma ReliedAfter<T>(history: seq<Arrival<T>>, a: Arrival<T>, session: nat)
    requires Relied(history, session) && a.stream == session
    ensures a.accepted || (history != [] && !history[|history| - 1].accepted) ==> Relied(history + [a], session)
    ensures Relied(history + [a], session + 1)
  {
  }

  lemma SettleKeepsSound<T>(w: World<T>, ok: bool, capacity: nat, batchSize: BatchSize)
    requires Sound(w, capacity, batchSize)
    ensures Sound(Next(w, Settle(ok), capacity, batchSize), capacity, batchSize)
  {
    hide Accepted, Rejections, NoDropWithinStream, Relied;
    var j := w.journal;
    if j.phase.Writing? && ok {
      var batch, rest := j.phase.batch, j.pending[|j.phase.batch|..];
      assert j.pending == batch + rest;
      assert w.written + (batch + rest) == (w.written + batch) + rest;
    }
  }

  lemma StepKeepsSound<T>(w: World<T>, step: Step<T>, capacity: nat, batchSize: BatchSize)
    requires Sound(w, capacity, batchSize)
    ensures Sound(Next(w, step, capacity, batchSize), capacity, batchSize)
  {
    hide Accepted, Rejections, NoDropWithinStream;
    match step
    case Arrive(x) => ArrivalKeepsSound(w, x, capacity, batchSize);
    case Settle(ok) => SettleKeepsSound(w, ok, capacity, batchSize);
    case Reconnect =>
    case Flush =>
    case Free =>
  }

  function Steps<T>(w: World<T>, steps: seq<Step<T>>, capacity: nat, batchSize: BatchSize): World<T>
    decreases |steps|
  {
    if steps == [] then w else Steps(Next(w, steps[0], capacity, batchSize), steps[1..], capacity, batchSize)
  }

  /**
   Over every interleaving of arrivals, reconnects, writes and failing writes: what was written followed by what is
   pending is what was accepted, in order; the queue stays within its capacity; the overflow handler runs once per
   run of rejections, so within one stream no accepted tick follows a dropped one that follows an accepted one;
   the journal is healthy exactly when nothing was rejected or lost since the last successful write.
   */
  lemma {:induction false} EveryInterleavingIsSound<T>(w: World<T>, steps: seq<Step<T>>, capacity: nat, batchSize: BatchSize)
    requires Sound(w, capacity, batchSize)
    ensures Sound(Steps(w, steps, capacity, batchSize), capacity, batchSize)
    decreases |steps|
  {
    hide Sound, Next;
    if steps != [] {
      StepKeepsSound(w, steps[0], capacity, batchSize);
      EveryInterleavingIsSound(Next(w, steps[0], capacity, batchSize), steps[1..], capacity, batchSize);
    }
  }

  lemma StartIsSound<T>(capacity: nat, batchSize: BatchSize)
    ensures Sound(Start<T>(), capacity, batchSize)
  {
  }

  // ---------------------------------------------------------------- what one step does

  /** A write that succeeds moves its batch from the queue to what is written; one that fails leaves both and is remembered. */
  lemma SettlingMovesTheBatch<T>(w: World<T>, ok: bool, capacity: nat, batchSize: BatchSize)
    requires Sound(w, capacity, batchSize) && w.journal.phase.Writing?
    ensures var next, batch := Next(w, Settle(ok), capacity, batchSize), w.journal.phase.batch;
            && next.written + next.journal.pending == w.written + w.journal.pending
            && next.written == (if ok then w.written + batch else w.written)
            && next.journal.phase.Settled? && next.spoiled == !ok && (next.journal.healthy <==> ok && |next.journal.pending| < capacity)
            && next.history == w.history && next.session == w.session && next.overflows == w.overflows
  {
    hide Accepted, Rejections, NoDropWithinStream, Relied;
    var batch := w.journal.phase.batch;
    assert w.journal.pending == batch + w.journal.pending[|batch|..];
    assert w.written + (batch + w.journal.pending[|batch|..]) == (w.written + batch) + w.journal.pending[|batch|..];
  }

  /** An arrival is taken if and only if there is room, carries the present session, and begins the next one if it is the first rejected of its run. */
  lemma ArrivalIsRecorded<T>(w: World<T>, x: T, capacity: nat, batchSize: BatchSize)
    requires Sound(w, capacity, batchSize)
    ensures var next, room := Next(w, Arrive(x), capacity, batchSize), |w.journal.pending| < capacity;
            var first := !room && (w.history == [] || w.history[|w.history| - 1].accepted);
            && next.history == w.history + [Arrival(x, w.session, room)] && next.written == w.written && next.journal.phase == w.journal.phase
            && next.journal.pending == w.journal.pending + (if room then [x] else [])
            && next.session == w.session + (if first then 1 else 0) && next.overflows == w.overflows + (if first then 1 else 0)
            && (next.spoiled <==> w.spoiled || !room)
  {
    hide Accepted, Rejections, NoDropWithinStream, Relied;
  }

  /** Only its own settling ends a write: until then every other step leaves it as it is, its batch at the head of the queue. */
  lemma WriteIsKept<T>(w: World<T>, step: Step<T>, capacity: nat, batchSize: BatchSize)
    requires Sound(w, capacity, batchSize) && w.journal.phase.Writing? && !step.Settle?
    ensures var next := Next(w, step, capacity, batchSize).journal;
            next.phase == w.journal.phase && w.journal.phase.batch <= next.pending
  {
    hide Accepted, Rejections, NoDropWithinStream, Relied;
  }

  /** Write, settle, free. */
  function Rounds<T>(n: nat): seq<Step<T>> {
    if n == 0 then [] else [Flush, Settle(true), Free] + Rounds(n - 1)
  }

  lemma OneRound<T>(w: World<T>, capacity: nat, batchSize: BatchSize)
    requires Sound(w, capacity, batchSize) && w.journal.phase.Idle?
    ensures var next := Next(Next(Next(w, Flush, capacity, batchSize), Settle(true), capacity, batchSize), Free, capacity, batchSize);
            && Sound(next, capacity, batchSize) && next.journal.phase.Idle? && next.history == w.history
            && |next.journal.pending| == if |w.journal.pending| <= batchSize then 0 else |w.journal.pending| - batchSize
  {
    hide Accepted, Rejections, NoDropWithinStream, Relied;
    var writing := Next(w, Flush, capacity, batchSize);
    StepKeepsSound(w, Flush, capacity, batchSize);
    StepKeepsSound(writing, Settle(true), capacity, batchSize);
    StepKeepsSound(Next(writing, Settle(true), capacity, batchSize), Free, capacity, batchSize);
  }

  /** While writes succeed the journal drains: after enough rounds everything accepted is written, in order, and nothing is pending. */
  lemma {:induction false} WritesDrain<T>(w: World<T>, n: nat, capacity: nat, batchSize: BatchSize)
    requires Sound(w, capacity, batchSize) && w.journal.phase.Idle? && |w.journal.pending| <= n * batchSize
    ensures var end := Steps(w, Rounds(n), capacity, batchSize);
            end.journal.pending == [] && end.written == Accepted(w.history) && end.history == w.history
    decreases n
  {
    hide Sound, Next, Accepted;
    if n == 0 {
      DrainedIsWritten(w, capacity, batchSize);
    } else {
      OneRound(w, capacity, batchSize);
      ThreeSteps(w, Flush, Settle(true), Free, Rounds(n - 1), capacity, batchSize);
      var next := Next(Next(Next(w, Flush, capacity, batchSize), Settle(true), capacity, batchSize), Free, capacity, batchSize);
      assert (n - 1) * batchSize == n * batchSize - batchSize;
      WritesDrain(next, n - 1, capacity, batchSize);
    }
  }

  lemma ThreeSteps<T>(w: World<T>, a: Step<T>, b: Step<T>, c: Step<T>, rest: seq<Step<T>>, capacity: nat, batchSize: BatchSize)
    ensures Steps(w, [a, b, c] + rest, capacity, batchSize)
         == Steps(Next(Next(Next(w, a, capacity, batchSize), b, capacity, batchSize), c, capacity, batchSize), rest, capacity, batchSize)
  {
    hide Next;
    var steps := [a, b, c] + rest;
    assert steps[1..] == [b, c] + rest && ([b, c] + rest)[1..] == [c] + rest && ([c] + rest)[1..] == rest;
    assert Steps(w, steps, capacity, batchSize) == Steps(Next(w, a, capacity, batchSize), [b, c] + rest, capacity, batchSize);
    var next := Next(w, a, capacity, batchSize);
    assert Steps(next, [b, c] + rest, capacity, batchSize) == Steps(Next(next, b, capacity, batchSize), [c] + rest, capacity, batchSize);
  }

  lemma DrainedIsWritten<T>(w: World<T>, capacity: nat, batchSize: BatchSize)
    requires Sound(w, capacity, batchSize) && |w.journal.pending| == 0
    ensures w.journal.pending == [] && w.written == Accepted(w.history)
  {
    hide Accepted, Rejections, NoDropWithinStream, Relied;
    assert w.written + [] == w.written;
  }
}
