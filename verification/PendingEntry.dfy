/** A pending entry and the ticks that reach it: which ticks are offered for a fill, and where the cursor stops. */
module PendingEntry {
  import opened Common
  import opened TickProcessor

  datatype WaitReason = StreamMismatch | BeforeSignalFinality | StaleQuote | QuoteInFuture | LimitNotTouched | Other(code: int)

  datatype Answer = Filled | Conflict | Rejected(code: int) | NoTouch(reason: Option<WaitReason>)

  datatype Status = Decided(answer: Answer) | Expired | Pending

  datatype Entry = Entry(stream: int, detectedAt: int, availableAt: int, expiresAt: int, maximumQuoteAgeMs: int)

  datatype Outcome = Outcome(status: Status, through: Option<int>, waiting: Option<WaitReason>)

  /** The clock reading taken when a tick is considered, and the answer it gets if it is offered. */
  type Clock = Event -> int
  type TryFill = Event -> Answer

  function Unavailable(p: Entry, e: Event, now: int): Option<WaitReason> {
    if e.stream != p.stream then Some(StreamMismatch)
    else if e.receivedAt < p.availableAt || e.observedAt < p.detectedAt then Some(BeforeSignalFinality)
    else if now - e.observedAt > p.maximumQuoteAgeMs || e.observedAt >= p.expiresAt then Some(StaleQuote)
    else if e.observedAt > now + 1000 then Some(QuoteInFuture)
    else None
  }

  predicate Passed(through: Option<int>, e: Event) {
    through.Some? && e.id <= through.value
  }

  function Waiting(reason: Option<WaitReason>): Option<WaitReason> {
    if reason.Some? then reason else Some(LimitNotTouched)
  }

  function Replay(p: Entry, events: seq<Event>, through: Option<int>, waiting: Option<WaitReason>, clock: Clock, tryFill: TryFill, end: int): Outcome
    decreases |events|
  {
    if events == [] then Outcome(if end >= p.expiresAt then Expired else Pending, through, waiting)
    else
      var e := events[0];
      if Passed(through, e) then Replay(p, events[1..], through, waiting, clock, tryFill, end)
      else if clock(e) >= p.expiresAt then Outcome(Expired, through, None)
      else
        var unavailable := Unavailable(p, e, clock(e));
        if unavailable.Some? then Replay(p, events[1..], Some(e.id), unavailable, clock, tryFill, end)
        else if tryFill(e).NoTouch? then Replay(p, events[1..], Some(e.id), Waiting(tryFill(e).reason), clock, tryFill, end)
        else Outcome(Decided(tryFill(e)), Some(e.id), None)
  }

  method ReplayPendingEntryEvents(p: Entry, events: seq<Event>, cursor: Option<int>, clock: Clock, tryFill: TryFill, end: int)
    returns (o: Outcome)
    ensures o == Replay(p, events, cursor, None, clock, tryFill, end)
  {
    var through, waiting, i := cursor, None, 0;
    while i < |events|
      invariant i <= |events|
      invariant Replay(p, events[i..], through, waiting, clock, tryFill, end) == Replay(p, events, cursor, None, clock, tryFill, end)
    {
      var e := events[i];
      assert events[i..][0] == e && events[i..][1..] == events[i + 1..];
      i := i + 1;
      if through.None? || e.id > through.value {
        var now := clock(e);
        if now >= p.expiresAt { return Outcome(Expired, through, None); }
        through := Some(e.id);
        var unavailable := Unavailable(p, e, now);
        if unavailable.Some? {
          waiting := unavailable;
        } else {
          var answer := tryFill(e);
          if !answer.NoTouch? { return Outcome(Decided(answer), through, None); }
          waiting := Waiting(answer.reason);
        }
      }
    }
    return Outcome(if end >= p.expiresAt then Expired else Pending, through, waiting);
  }

  // ---------------------------------------------------------------- which ticks are offered

  /** The ticks actually offered for a fill, in order. */
  function Offered(p: Entry, events: seq<Event>, through: Option<int>, clock: Clock, tryFill: TryFill): seq<Event>
    decreases |events|
  {
    if events == [] then []
    else
      var e := events[0];
      if Passed(through, e) then Offered(p, events[1..], through, clock, tryFill)
      else if clock(e) >= p.expiresAt then []
      else if Unavailable(p, e, clock(e)).Some? then Offered(p, events[1..], Some(e.id), clock, tryFill)
      else [e] + if tryFill(e).NoTouch? then Offered(p, events[1..], Some(e.id), clock, tryFill) else []
  }

  predicate NotBefore(a: Option<int>, b: Option<int>) {
    b.None? || (a.Some? && a.value >= b.value)
  }

  predicate Increasing(events: seq<Event>) {
    forall i :: 0 < i < |events| ==> events[i - 1].id < events[i].id
  }

  /** The ticks between two cursors that were eligible when they were considered. */
  function EligibleBetween(p: Entry, events: seq<Event>, cursor: Option<int>, through: Option<int>, clock: Clock): seq<Event> {
    if events == [] then []
    else
      var e := events[0];
      (if !Passed(cursor, e) && Passed(through, e) && Unavailable(p, e, clock(e)).None? then [e] else [])
      + EligibleBetween(p, events[1..], cursor, through, clock)
  }

  lemma {:induction false} NothingBetween(p: Entry, events: seq<Event>, cursor: Option<int>, clock: Clock)
    ensures EligibleBetween(p, events, cursor, cursor, clock) == []
  {
    if events != [] { NothingBetween(p, events[1..], cursor, clock); }
  }

  lemma {:induction false} AllBeyond(p: Entry, events: seq<Event>, cursor: Option<int>, through: int, clock: Clock)
    requires Increasing(events) && (events != [] ==> events[0].id > through)
    ensures EligibleBetween(p, events, cursor, Some(through), clock) == []
    decreases |events|
  {
    if |events| > 1 {
      assert events[1].id > events[0].id;
      AllBeyond(p, events[1..], cursor, through, clock);
    }
  }

  lemma {:induction false} RaisedCursor(p: Entry, events: seq<Event>, cursor: Option<int>, mid: int, through: Option<int>, clock: Clock)
    requires Increasing(events) && (events != [] ==> events[0].id > mid) && NotBefore(Some(mid), cursor)
    ensures EligibleBetween(p, events, cursor, through, clock) == EligibleBetween(p, events, Some(mid), through, clock)
    decreases |events|
  {
    if events != [] {
      if |events| > 1 { assert events[1].id > events[0].id; }
      RaisedCursor(p, events[1..], cursor, mid, through, clock);
    }
  }

  /** The cursor never moves back, and the ticks offered are exactly the eligible ones between the old cursor and the new. */
  lemma {:induction false} CursorTellsWhatWasOffered(p: Entry, events: seq<Event>, cursor: Option<int>, waiting: Option<WaitReason>,
                                                     clock: Clock, tryFill: TryFill, end: int)
    requires Increasing(events)
    ensures var through := Replay(p, events, cursor, waiting, clock, tryFill, end).through;
            && NotBefore(through, cursor)
            && Offered(p, events, cursor, clock, tryFill) == EligibleBetween(p, events, cursor, through, clock)
    decreases |events|
  {
    hide Unavailable, Increasing;
    if events != [] {
      var e, rest := events[0], events[1..];
      var through := Replay(p, events, cursor, waiting, clock, tryFill, end).through;
      TailIncreases(events);
      if Passed(cursor, e) {
        CursorTellsWhatWasOffered(p, rest, cursor, waiting, clock, tryFill, end);
      } else if clock(e) >= p.expiresAt {
        NothingBetween(p, events, cursor, clock);
      } else {
        var unavailable := Unavailable(p, e, clock(e));
        RaisedCursor(p, rest, cursor, e.id, through, clock);
        if unavailable.Some? {
          CursorTellsWhatWasOffered(p, rest, Some(e.id), unavailable, clock, tryFill, end);
        } else if tryFill(e).NoTouch? {
          CursorTellsWhatWasOffered(p, rest, Some(e.id), Waiting(tryFill(e).reason), clock, tryFill, end);
        } else {
          AllBeyond(p, rest, cursor, e.id, clock);
        }
      }
    }
  }

  lemma TailIncreases(events: seq<Event>)
    requires Increasing(events) && events != []
    ensures Increasing(events[1..]) && (events[1..] != [] ==> events[1..][0].id > events[0].id)
  {
    if |events| > 1 { assert events[1].id > events[0].id; }
  }

  /** Only the last tick offered may get a decisive answer; then that answer is the outcome and the cursor stops there. */
  lemma {:induction false} FirstDecisiveAnswerEnds(p: Entry, events: seq<Event>, cursor: Option<int>, waiting: Option<WaitReason>,
                                                   clock: Clock, tryFill: TryFill, end: int)
    ensures var o, offered := Replay(p, events, cursor, waiting, clock, tryFill, end), Offered(p, events, cursor, clock, tryFill);
            && (forall i :: 0 <= i < |offered| - 1 ==> tryFill(offered[i]).NoTouch?)
            && (o.status.Decided? <==> offered != [] && !tryFill(offered[|offered| - 1]).NoTouch?)
            && (o.status.Decided? ==> o.status.answer == tryFill(offered[|offered| - 1]) && o.through == Some(offered[|offered| - 1].id))
    decreases |events|
  {
    hide Unavailable;
    if events != [] {
      var e, rest := events[0], events[1..];
      var unavailable := Unavailable(p, e, clock(e));
      if Passed(cursor, e) {
        FirstDecisiveAnswerEnds(p, rest, cursor, waiting, clock, tryFill, end);
      } else if clock(e) < p.expiresAt && unavailable.Some? {
        FirstDecisiveAnswerEnds(p, rest, Some(e.id), unavailable, clock, tryFill, end);
      } else if clock(e) < p.expiresAt && tryFill(e).NoTouch? {
        var more := Offered(p, rest, Some(e.id), clock, tryFill);
        FirstDecisiveAnswerEnds(p, rest, Some(e.id), Waiting(tryFill(e).reason), clock, tryFill, end);
        assert Offered(p, events, cursor, clock, tryFill) == [e] + more;
      }
    }
  }

  /** A tick is offered only before expiry, on the entry's stream, after the signal was final, and neither stale nor early. */
  lemma {:induction false} OfferedTicksAreTimely(p: Entry, events: seq<Event>, cursor: Option<int>, clock: Clock, tryFill: TryFill, e: Event)
    requires e in Offered(p, events, cursor, clock, tryFill)
    ensures e in events && !Passed(cursor, e) && e.stream == p.stream
    ensures clock(e) < p.expiresAt && e.receivedAt >= p.availableAt && p.detectedAt <= e.observedAt < p.expiresAt
    ensures -1000 <= clock(e) - e.observedAt <= p.maximumQuoteAgeMs
    decreases |events|
  {
    var first, rest := events[0], events[1..];
    if Passed(cursor, first) {
      OfferedTicksAreTimely(p, rest, cursor, clock, tryFill, e);
    } else if e != first || e in Offered(p, rest, Some(first.id), clock, tryFill) {
      OfferedTicksAreTimely(p, rest, Some(first.id), clock, tryFill, e);
    }
  }

  /** A run expires on a tick it has not consumed, or after the last one. */
  lemma {:induction false} ExpiryConsumesNothing(p: Entry, events: seq<Event>, cursor: Option<int>, waiting: Option<WaitReason>,
                                                 clock: Clock, tryFill: TryFill, end: int)
    ensures var o := Replay(p, events, cursor, waiting, clock, tryFill, end);
            o.status.Expired? ==>
              end >= p.expiresAt || exists e :: e in events && !Passed(o.through, e) && clock(e) >= p.expiresAt
    decreases |events|
  {
    hide Unavailable;
    if events != [] {
      var e, rest := events[0], events[1..];
      assert e in events && forall x :: x in rest ==> x in events;
      var unavailable := Unavailable(p, e, clock(e));
      if Passed(cursor, e) { ExpiryConsumesNothing(p, rest, cursor, waiting, clock, tryFill, end); }
      else if clock(e) < p.expiresAt && unavailable.Some? { ExpiryConsumesNothing(p, rest, Some(e.id), unavailable, clock, tryFill, end); }
      else if clock(e) < p.expiresAt { ExpiryConsumesNothing(p, rest, Some(e.id), Waiting(if tryFill(e).NoTouch? then tryFill(e).reason else None), clock, tryFill, end); }
    }
  }

  // ---------------------------------------------------------------- batches

  /** The reading between two batches lies between those of their ticks and before the last one. */
  predicate Between(first: seq<Event>, second: seq<Event>, clock: Clock, mid: int, end: int) {
    mid <= end && (forall e :: e in first ==> clock(e) <= mid) && forall e :: e in second ==> mid <= clock(e)
  }

  lemma {:induction false} ExpiredEarlier(p: Entry, events: seq<Event>, through: Option<int>, waiting: Option<WaitReason>,
                                          clock: Clock, tryFill: TryFill, end: int)
    requires end >= p.expiresAt && forall e :: e in events ==> clock(e) >= p.expiresAt
    ensures var o := Replay(p, events, through, waiting, clock, tryFill, end); o.status.Expired? && o.through == through
    decreases |events|
  {
    if events != [] {
      assert events[0] in events;
      forall e | e in events[1..] ensures clock(e) >= p.expiresAt { assert e in events; }
      if Passed(through, events[0]) { ExpiredEarlier(p, events[1..], through, waiting, clock, tryFill, end); }
    }
  }

  /** What a run leaves waiting never decides its status or its cursor. */
  lemma {:induction false} WaitingIsOnlyReported(p: Entry, events: seq<Event>, through: Option<int>, w: Option<WaitReason>, v: Option<WaitReason>,
                                                 clock: Clock, tryFill: TryFill, end: int)
    ensures var a, b := Replay(p, events, through, w, clock, tryFill, end), Replay(p, events, through, v, clock, tryFill, end);
            a.status == b.status && a.through == b.through
    decreases |events|
  {
    hide Unavailable;
    if events != [] && Passed(through, events[0]) { WaitingIsOnlyReported(p, events[1..], through, w, v, clock, tryFill, end); }
  }

  /** With a clock that never runs back, two batches end with the status and the cursor of one. */
  lemma {:induction false} BatchesCompose(p: Entry, first: seq<Event>, second: seq<Event>, cursor: Option<int>, waiting: Option<WaitReason>,
                                          clock: Clock, tryFill: TryFill, mid: int, end: int)
    requires Between(first, second, clock, mid, end)
    ensures var whole := Replay(p, first + second, cursor, waiting, clock, tryFill, end);
            var half := Replay(p, first, cursor, waiting, clock, tryFill, mid);
            var last := if half.status.Pending? then Replay(p, second, half.through, None, clock, tryFill, end) else half;
            whole.status == last.status && whole.through == last.through
    decreases |first|
  {
    hide Unavailable;
    if first == [] {
      assert first + second == second;
      if mid >= p.expiresAt {
        ExpiredEarlier(p, second, cursor, waiting, clock, tryFill, end);
      } else {
        WaitingIsOnlyReported(p, second, cursor, waiting, None, clock, tryFill, end);
      }
    } else {
      var e, rest := first[0], first[1..];
      assert (first + second)[0] == e && (first + second)[1..] == rest + second;
      assert e in first && forall x :: x in rest ==> x in first;
      if Passed(cursor, e) {
        BatchesCompose(p, rest, second, cursor, waiting, clock, tryFill, mid, end);
      } else if clock(e) < p.expiresAt {
        var unavailable := Unavailable(p, e, clock(e));
        if unavailable.Some? { BatchesCompose(p, rest, second, Some(e.id), unavailable, clock, tryFill, mid, end); }
        else if tryFill(e).NoTouch? { BatchesCompose(p, rest, second, Some(e.id), Waiting(tryFill(e).reason), clock, tryFill, mid, end); }
      }
    }
  }

  // ---------------------------------------------------------------- the whole outcome

  /** The tick is the entry's, came after the signal, before the expiry, and is neither too old nor too far ahead. */
  predicate Timely(p: Entry, e: Event, now: int) {
    && e.stream == p.stream && e.receivedAt >= p.availableAt && p.detectedAt <= e.observedAt < p.expiresAt
    && now <= e.observedAt + p.maximumQuoteAgeMs && e.observedAt <= now + 1000
  }

  /** Why an untimely tick is not offered; a foreign one is told from a premature, a premature from a stale, a stale from a future one. */
  function Untimely(p: Entry, e: Event, now: int): WaitReason {
    if e.stream != p.stream then StreamMismatch
    else if !(e.receivedAt >= p.availableAt && e.observedAt >= p.detectedAt) then BeforeSignalFinality
    else if !(now <= e.observedAt + p.maximumQuoteAgeMs && e.observedAt < p.expiresAt) then StaleQuote
    else QuoteInFuture
  }

  lemma UnavailableExactly(p: Entry, e: Event, now: int)
    ensures Unavailable(p, e, now) == if Timely(p, e, now) then None else Some(Untimely(p, e, now))
  {
  }

  /** The run ends at this tick: by the clock, or by the answer to a timely offer. */
  predicate EndsRun(p: Entry, e: Event, cursor: Option<int>, clock: Clock, tryFill: TryFill) {
    (cursor.None? || e.id > cursor.value) && (clock(e) >= p.expiresAt || (Timely(p, e, clock(e)) && !tryFill(e).NoTouch?))
  }

  function ReasonAt(p: Entry, e: Event, clock: Clock, tryFill: TryFill): WaitReason {
    if !Timely(p, e, clock(e)) then Untimely(p, e, clock(e))
    else if tryFill(e).NoTouch? && tryFill(e).reason.Some? then tryFill(e).reason.value
    else LimitNotTouched
  }

  /** The first `k` ticks do not end the run, and the next one does. */
  predicate RunsTo(p: Entry, events: seq<Event>, cursor: Option<int>, clock: Clock, tryFill: TryFill, k: nat) {
    && k <= |events| && (forall j :: 0 <= j < k ==> !EndsRun(p, events[j], cursor, clock, tryFill))
    && (k < |events| ==> EndsRun(p, events[k], cursor, clock, tryFill))
  }

  /** What the run reports if it ends after `k` ticks: where the cursor stands, and what the last tick considered still waits for. */
  predicate Reports(p: Entry, events: seq<Event>, cursor: Option<int>, waiting: Option<WaitReason>, clock: Clock, tryFill: TryFill, end: int,
                    k: nat, o: Outcome)
    requires k <= |events|
  {
    var taken := k > 0 && (cursor.None? || events[k - 1].id > cursor.value);
    if k < |events| && clock(events[k]) < p.expiresAt then o == Outcome(Decided(tryFill(events[k])), Some(events[k].id), None)
    else
      && o.through == (if taken then Some(events[k - 1].id) else cursor)
      && if k < |events| then o.status == Expired && o.waiting == None
         else
           && o.status == (if end >= p.expiresAt then Expired else Pending)
           && o.waiting == if taken then Some(ReasonAt(p, events[k - 1], clock, tryFill)) else waiting
  }

  /** The outcome of a run over ticks in order: it ends at the first tick that ends it, and nothing before that matters but the last tick. */
  lemma {:induction false} OutcomeExactly(p: Entry, events: seq<Event>, cursor: Option<int>, waiting: Option<WaitReason>, clock: Clock,
                                          tryFill: TryFill, end: int) returns (k: nat)
    requires Increasing(events)
    ensures RunsTo(p, events, cursor, clock, tryFill, k)
    ensures Reports(p, events, cursor, waiting, clock, tryFill, end, k, Replay(p, events, cursor, waiting, clock, tryFill, end))
    decreases |events|
  {
    hide Unavailable, Timely, Untimely, Increasing;
    k := 0;
    if events != [] {
      var e, rest := events[0], events[1..];
      TailIncreases(events);
      UnavailableExactly(p, e, clock(e));
      if !EndsRun(p, e, cursor, clock, tryFill) {
        var next, later := cursor, waiting;
        if !Passed(cursor, e) { next, later := Some(e.id), Some(ReasonAt(p, e, clock, tryFill)); }
        var j := OutcomeExactly(p, rest, next, later, clock, tryFill, end);
        LaterIds(events);
        k := j + 1;
        forall i | 0 <= i < k ensures !EndsRun(p, events[i], cursor, clock, tryFill) { if i > 0 { assert events[i] == rest[i - 1]; } }
        if k < |events| { assert events[k] == rest[j]; }
        if j > 0 { assert events[k - 1] == rest[j - 1]; }
      }
    }
  }

  lemma LaterIds(events: seq<Event>)
    requires Increasing(events) && events != []
    ensures forall i :: 0 < i < |events| ==> events[i].id > events[0].id
    decreases |events|
  {
    if |events| > 1 {
      TailIncreases(events);
      LaterIds(events[1..]);
      forall i | 0 < i < |events| ensures events[i].id > events[0].id { assert events[i] == events[1..][i - 1]; }
    }
  }
}
