/** What one step of the replay does and reports, told from ids, times and amounts. */
module ReplayExactness {
  import opened Common
  import opened Engine
  import opened Recovery
  import opened TickProcessor
  import opened TickProcessorLaws
  import opened TickExactness
  import opened BatchLaws
  import opened TraceReplay

  // ---------------------------------------------------------------- differences

  /** The amounts agree to one ten-millionth. */
  predicate Agree(a: real, b: real) {
    (a >= b ==> a - b <= 0.0000001) && (b >= a ==> b - a <= 0.0000001)
  }

  /** The prices agree to a billionth, or for large prices to a trillionth of the entry price. */
  predicate AgreeAt(p: Position, a: real, b: real) {
    var way := if a >= b then a - b else b - a;
    way <= 0.000000001 || way <= p.basis.entryPrice * 0.000000000001
  }

  predicate LevelsAgree(p: Position, recorded: Protection) {
    && AgreeAt(p, p.best, recorded.best) && AgreeAt(p, p.stop, recorded.stop)
    && match p.trailing
       case None => recorded.trailing.None?
       case Some(level) => recorded.trailing.Some? && AgreeAt(p, level, recorded.trailing.value)
  }

  /** The levels that a record confirms: of an update always, of a close if it noted any. */
  function ConfirmedLevels(payload: Payload): Option<Protection> {
    if payload.action.Update? then Some(payload.action.protection) else payload.action.last
  }

  function Apart(a: real, b: real): nat {
    if Agree(a, b) then 0 else 1
  }

  function AmountsApart(a: Settlement, b: Settlement): nat {
    Apart(a.exitPrice, b.exitPrice) + Apart(a.grossPnl, b.grossPnl) + Apart(a.netPnl, b.netPnl) + Apart(a.fees, b.fees)
    + Apart(a.slippage, b.slippage)
  }

  lemma AgreeIs(a: real, b: real)
    ensures Agree(a, b) <==> Near(a, b, CENT)
  {
  }

  lemma AgreeAtIs(p: Position, a: real, b: real)
    ensures AgreeAt(p, a, b) <==> Near(a, b, Tolerance(p))
  {
  }

  function Times(n: nat, d: Difference): seq<Difference> {
    if n == 0 then [] else [d] + Times(n - 1, d)
  }

  function If(apart: bool, d: Difference): seq<Difference> {
    if apart then [d] else []
  }

  lemma AmountsExactly(a: Settlement, b: Settlement, d: Difference)
    ensures AmountDifferences(a, b, d) == Times(AmountsApart(a, b), d)
  {
    hide Agree, Near, Times;
    AmountExactly(a.exitPrice, b.exitPrice, d);
    AmountExactly(a.grossPnl, b.grossPnl, d);
    AmountExactly(a.netPnl, b.netPnl, d);
    AmountExactly(a.fees, b.fees, d);
    AmountExactly(a.slippage, b.slippage, d);
    var n1, n2, n3, n4 := Apart(a.exitPrice, b.exitPrice), Apart(a.grossPnl, b.grossPnl), Apart(a.netPnl, b.netPnl), Apart(a.fees, b.fees);
    TimesAdd(n1, n2, d);
    TimesAdd(n1 + n2, n3, d);
    TimesAdd(n1 + n2 + n3, n4, d);
    TimesAdd(n1 + n2 + n3 + n4, Apart(a.slippage, b.slippage), d);
  }

  lemma AmountExactly(a: real, b: real, d: Difference)
    ensures (if Near(a, b, CENT) then [] else [d]) == Times(Apart(a, b), d)
  {
    hide Agree, Near;
    AgreeIs(a, b);
    assert Times(0, d) == [] && Times(1, d) == [d];
  }

  lemma {:induction false} TimesAdd(m: nat, n: nat, d: Difference)
    ensures Times(m + n, d) == Times(m, d) + Times(n, d)
    decreases m
  {
    if m > 0 { TimesAdd(m - 1, n, d); }
  }

  /** Both closed, but for another reason or at another time. */
  predicate ClosedApart(a: Settlement, b: Settlement) {
    !(a.reason == b.reason && a.closedAt == b.closedAt)
  }

  /** The differences that a checkpoint reports, in order: each one if and only if that aspect of it was not reproduced, the amounts once each. */
  lemma DifferencesExactly(st: State, end: int, payload: Payload)
    ensures var p, levels := st.live.now.position, ConfirmedLevels(payload);
            Compare(st, end, payload) ==
              If(levels.Some? && !LevelsAgree(p, levels.value), ProtectionMismatch(end))
              + If(payload.action.Close? && st.settlement.None?, MissingExit(end))
              + If(payload.action.Update? && st.settlement.Some?, UnexpectedExit(st.cursor))
              + If(!(st.live.now.state == payload.state && st.live.signalAt == payload.signalAt), StateMismatch(end))
              + If(!(AgreeAt(p, st.live.mark, payload.quotePrice) && st.live.through == payload.quoteAt), PriceMismatch(end))
              + if payload.action.Close? && st.settlement.Some? then
                  If(ClosedApart(st.settlement.value, payload.action.settlement), ExitMismatch(end))
                  + Times(AmountsApart(st.settlement.value, payload.action.settlement), AmountMismatch(end))
                else []
  {
    hide AmountDifferences, AmountsApart, Near, AgreeAt, Tolerance;
    var p, levels := st.live.now.position, ConfirmedLevels(payload);
    AgreeAtIs(p, st.live.mark, payload.quotePrice);
    if levels.Some? { LevelsAgreeIs(p, levels.value); }
    if payload.action.Close? && st.settlement.Some? {
      AmountsExactly(st.settlement.value, payload.action.settlement, AmountMismatch(end));
    }
  }

  lemma LevelsAgreeIs(p: Position, recorded: Protection)
    ensures LevelsAgree(p, recorded) <==> SameProtection(p, recorded)
  {
    hide Near, AgreeAt, Tolerance;
    AgreeAtIs(p, p.best, recorded.best);
    AgreeAtIs(p, p.stop, recorded.stop);
    if p.trailing.Some? && recorded.trailing.Some? { AgreeAtIs(p, p.trailing.value, recorded.trailing.value); }
  }

  // ---------------------------------------------------------------- recoveries

  /** The first recorded recovery of a tick. */
  predicate FirstOfTick(recoveries: seq<RecordedRecovery>, id: int, i: nat) {
    i < |recoveries| && recoveries[i].eventId == id && forall j :: 0 <= j < i ==> recoveries[j].eventId != id
  }

  lemma {:induction false} FoundExactly(recoveries: seq<RecordedRecovery>, id: int)
    ensures var found := FindRecovery(recoveries, id);
            if found.None? then forall r :: r in recoveries ==> r.eventId != id
            else exists i: nat :: FirstOfTick(recoveries, id, i) && found.value == recoveries[i]
    decreases |recoveries|
  {
    if recoveries != [] {
      if recoveries[0].eventId == id {
        assert FirstOfTick(recoveries, id, 0);
      } else {
        FoundExactly(recoveries[1..], id);
        assert forall r :: r in recoveries <==> r == recoveries[0] || r in recoveries[1..];
        if FindRecovery(recoveries, id).Some? {
          var i: nat :| FirstOfTick(recoveries[1..], id, i) && FindRecovery(recoveries[1..], id).value == recoveries[1..][i];
          forall j | 0 <= j < i + 1 ensures recoveries[j].eventId != id { if j > 0 { assert recoveries[j] == recoveries[1..][j - 1]; } }
          assert FirstOfTick(recoveries, id, i + 1) && recoveries[i + 1] == recoveries[1..][i];
        }
      }
    }
  }

  /** Replay answers a gap from the first recovery recorded for its tick, if that gap began at the same time, by the recovery recorded. */
  lemma ReplayRecoversExactly(cfg: Config, policy: Option<Policy>, recoveries: seq<RecordedRecovery>, now: Protected, since: int, e: Event, anchor: Option<int>)
    ensures var r := ReplayRecover(cfg, policy, recoveries)(now, since, e, anchor);
            if (forall x :: x in recoveries ==> x.eventId != e.id) then r.Incomplete?
            else exists i: nat :: FirstOfTick(recoveries, e.id, i) &&
                   var gap := Gap(now, since, Quote(now.position.basis.symbol, e.price, e.observedAt), recoveries[i].inputs);
                   if recoveries[i].since != since then r.Incomplete?
                   else if recoveries[i].causal then r == CausalRecovery(gap, cfg, policy) else r == LegacyRecovery(gap, cfg)
  {
    hide CausalRecovery, LegacyRecovery;
    FoundExactly(recoveries, e.id);
  }

  // ---------------------------------------------------------------- checkpoints and counts

  predicate CountedBetween(e: Event, above: int, through: int) {
    e.id > above && e.id <= through
  }

  /** How many events satisfy the bounds, by position. */
  ghost function Positions(events: seq<Event>, above: int, through: int): set<nat> {
    set i: nat | i < |events| && CountedBetween(events[i], above, through)
  }

  lemma {:induction false} CountExactly(events: seq<Event>, above: int, through: int)
    ensures CountIds(events, above, through) == |Positions(events, above, through)|
    decreases |events|
  {
    var n := |events|;
    if n == 0 {
      assert Positions(events, above, through) == {};
    } else {
      var before := events[..n - 1];
      CountExactly(before, above, through);
      CountOneMore(before, events[n - 1], above, through);
      assert events == before + [events[n - 1]];
      var here := Positions(before, above, through);
      forall i: nat ensures i in Positions(events, above, through) <==> i in here || (i == n - 1 && CountedBetween(events[n - 1], above, through)) {
        if i < n - 1 { assert before[i] == events[i]; }
      }
      if CountedBetween(events[n - 1], above, through) {
        assert Positions(events, above, through) == here + {n - 1} && n - 1 !in here;
      } else {
        assert Positions(events, above, through) == here;
      }
    }
  }

  lemma {:induction false} CountOneMore(events: seq<Event>, e: Event, above: int, through: int)
    ensures CountIds(events + [e], above, through) == CountIds(events, above, through) + if CountedBetween(e, above, through) then 1 else 0
    decreases |events|
  {
    if events == [] {
      assert [e][1..] == [];
    } else {
      assert (events + [e])[1..] == events[1..] + [e];
      CountOneMore(events[1..], e, above, through);
    }
  }

  /** A checkpoint is taken over whole: state, clock, stream, price, tick and settlement, and the ticks passed are counted. */
  lemma AppliedExactly(st: State, segment: seq<Event>, cp: Checkpoint)
    ensures var after := Apply(st, segment, cp);
            && after.live.now == cp.now && after.live.through == cp.through && after.live.stream == Some(cp.stream) && after.live.mark == cp.mark
            && after.live.anchor == Some(cp.event.id) && after.live.signalAt == cp.signalAt
            && after.cursor == cp.event.id && after.settlement == cp.settlement
            && after.count == st.count + |Positions(segment, st.cursor, cp.event.id)|
            && after == st.(live := after.live, cursor := after.cursor, settlement := after.settlement, count := after.count)
  {
    CountExactly(segment, st.cursor, cp.event.id);
  }

  // ---------------------------------------------------------------- pages and records

  /** The page continues beyond the cursor, within the record, every tick once and in order. */
  predicate GoesOnInOrder(events: seq<Event>, cursor: int, end: int) {
    && events != [] && (forall e :: e in events ==> cursor < e.id <= end)
    && forall i, j :: 0 <= i < j < |events| ==> events[i].id < events[j].id
  }

  lemma PageInOrderIs(events: seq<Event>, cursor: int, end: int)
    ensures GoesOnInOrder(events, cursor, end) <==> ValidPage(events, cursor, end)
  {
    if ValidPage(events, cursor, end) {
      IdsAbove(events, cursor);
      forall i, j | 0 <= i < j < |events| ensures events[i].id < events[j].id { LaterIdsGrow(events, i, j); }
    }
  }

  lemma {:induction false} LaterIdsGrow(events: seq<Event>, i: nat, j: nat)
    requires InOrderIds(events) && i < j < |events|
    ensures events[i].id < events[j].id
    decreases j
  {
    if i + 1 < j { LaterIdsGrow(events, i, j - 1); }
  }

  /** The first `n` ticks come before the record's first tick, and the rest from it on; without one to cut at, nothing is cut off. */
  predicate CutsAt(events: seq<Event>, inputs: Option<TraceInputs>, n: nat) {
    if inputs.None? || forall e :: e in events ==> e.id < inputs.value.firstEventId then n == 0
    else n < |events| && events[n].id >= inputs.value.firstEventId && forall e :: e in events[..n] ==> e.id < inputs.value.firstEventId
  }

  lemma {:induction false} CutExactly(events: seq<Event>, inputs: Option<TraceInputs>)
    ensures CutsAt(events, inputs, Boundary(events, inputs))
    decreases |events|
  {
    if inputs.Some? && events != [] && events[0].id < inputs.value.firstEventId {
      var rest := Boundary(events[1..], inputs);
      CutExactly(events[1..], inputs);
      assert forall e :: e in events <==> e == events[0] || e in events[1..];
      if |events| > 1 && !(rest == 0 && events[1].id < inputs.value.firstEventId) {
        assert events[1..][0] == events[1];
        assert events[..rest + 1] == [events[0]] + events[1..][..rest];
        assert events[rest + 1] == events[1..][rest];
      } else {
        assert |events| > 1 ==> events[1] in events[1..];
      }
    } else if inputs.Some? && events != [] {
      assert events[0] in events;
    }
  }

  /**
   A page of a record: an empty one is a gap in the stored ticks, and one out of order ends the replay. Otherwise the
   ticks not counted before are counted as available, and the page is replayed up to the record's first tick and then
   from it, under the record's inputs.
   */
  lemma PageExactly(st: State, events: seq<Event>, cfg: Config, end: int, inputs: Option<TraceInputs>)
    ensures var after := ReplayPage(st, events, cfg, end, inputs);
            if events == [] then after == st.(gaps := st.gaps + [NoTail(st.cursor)])
            else
              var last := events[|events| - 1].id;
              var read := st.(available := st.available + |Positions(events, st.readThrough, last)|, readThrough := last);
              if !GoesOnInOrder(events, st.cursor, end) then after == read.(thrown := true)
              else exists n: nat :: n <= |events| && CutsAt(events, inputs, n)
                     && after == ReplaySegment(ReplaySegment(read, events[..n], cfg, inputs), events[n..], cfg, inputs)
  {
    hide ReplaySegment, Boundary, ValidPage, CountIds, CutsAt;
    PageInOrderIs(events, st.cursor, end);
    CutExactly(events, inputs);
    if events != [] { CountExactly(events, st.readThrough, events[|events| - 1].id); }
  }

  /**
   A stretch of a page: nothing once a settlement, a gap or an error is there. Otherwise its ticks are processed from the
   replayed state, every checkpoint taken over in turn. A rejected candle is an error; a recovery without an answer is a
   gap at the next tick if none was recorded for it, and an error if it was.
   */
  lemma SegmentExactly(st: State, segment: seq<Event>, cfg: Config, inputs: Option<TraceInputs>)
    ensures var after := ReplaySegment(st, segment, cfg, inputs);
            if segment == [] || Stopped(st) then after == st
            else
              var from := if inputs.Some? && segment[0].id >= inputs.value.firstEventId
                          then st.(policy := inputs.value.policy, signals := inputs.value.signals) else st;
              var rules := ReplayEnv(from, cfg, inputs, segment);
              var run := Process(Fresh(from.live.(anchor := Some(st.cursor))), segment, rules, n => true, 0);
              var next := ApplyAll(from, segment, run.offered);
              && rules.cfg == cfg && rules.policy == from.policy && rules.batch == segment
              && rules.signals == (if st.live.now.position.basis.signalExitEnabled then Some(from.signals) else None)
              && (rules.protectFirst <==> inputs.Some? && inputs.value.protectFirst)
              && rules.latest == (if inputs.None? then None else inputs.value.latest)
              && rules.recover == ReplayRecover(cfg, from.policy, if inputs.None? then [] else inputs.value.recoveries)
              && if run.outcome == Finished then after == next
                 else if run.outcome == SignalRejected then after == next.(thrown := true)
                 else if run.outcome == RecoveryMissing then
                   if exists e :: NextTick(segment, next.cursor, e) && !IsRecorded(inputs, e.id, next.live.through)
                   then exists e :: NextTick(segment, next.cursor, e) && after == next.(gaps := next.gaps + [NoRecovery(e.id)])
                   else after == next.(thrown := true)
                 else true
  {
    hide Process, ApplyAll, FirstAfter, Recorded;
    if segment != [] && !Stopped(st) {
      var from := Effective(st, segment, inputs);
      var run := Process(Fresh(from.live.(anchor := Some(st.cursor))), segment, ReplayEnv(from, cfg, inputs, segment), n => true, 0);
      var next := ApplyAll(from, segment, run.offered);
      forall e ensures NextTick(segment, next.cursor, e) <==> FirstAfter(segment, next.cursor) == Some(e) { NextTickIs(segment, next.cursor, e); }
      forall e: Event ensures IsRecorded(inputs, e.id, next.live.through) <==> Recorded(RecoveriesOf(inputs), e.id, next.live.through).Some? {
        RecordedIs(RecoveriesOf(inputs), e.id, next.live.through);
      }
      if run.outcome == RecoveryMissing && FirstAfter(segment, next.cursor).Some? {
        assert NextTick(segment, next.cursor, FirstAfter(segment, next.cursor).value);
      }
    }
  }

  predicate FirstBeyond(segment: seq<Event>, cursor: int, i: nat) {
    i < |segment| && segment[i].id > cursor && forall j :: 0 <= j < i ==> segment[j].id <= cursor
  }

  /** The first tick of the stretch beyond the cursor. */
  ghost predicate NextTick(segment: seq<Event>, cursor: int, e: Event) {
    exists i: nat :: FirstBeyond(segment, cursor, i) && segment[i] == e
  }

  lemma {:induction false} NextTickIs(segment: seq<Event>, cursor: int, e: Event)
    ensures NextTick(segment, cursor, e) <==> FirstAfter(segment, cursor) == Some(e)
    decreases |segment|
  {
    if segment != [] {
      if segment[0].id > cursor {
        assert FirstBeyond(segment, cursor, 0);
      } else {
        NextTickIs(segment[1..], cursor, e);
        if NextTick(segment[1..], cursor, e) {
          var i: nat :| FirstBeyond(segment[1..], cursor, i) && segment[1..][i] == e;
          forall j | 0 <= j < i + 1 ensures segment[j].id <= cursor { if j > 0 { assert segment[j] == segment[1..][j - 1]; } }
          assert FirstBeyond(segment, cursor, i + 1) && segment[i + 1] == e;
        }
        if NextTick(segment, cursor, e) {
          var i: nat :| FirstBeyond(segment, cursor, i) && segment[i] == e;
          forall j | 0 <= j < i - 1 ensures segment[1..][j].id <= cursor { assert segment[1..][j] == segment[j + 1]; }
          assert FirstBeyond(segment[1..], cursor, i - 1) && segment[1..][i - 1] == e;
        }
      }
    }
  }

  /** The first recovery recorded for the tick began at this time. */
  ghost predicate IsRecorded(inputs: Option<TraceInputs>, id: int, since: int) {
    inputs.Some? && exists i: nat :: FirstOfTick(inputs.value.recoveries, id, i) && inputs.value.recoveries[i].since == since
  }

  lemma RecordedIs(recoveries: seq<RecordedRecovery>, id: int, since: int)
    ensures Recorded(recoveries, id, since).Some? <==> exists i: nat :: FirstOfTick(recoveries, id, i) && recoveries[i].since == since
  {
    FoundExactly(recoveries, id);
  }

  /** The replay of one record: pages are read until its last tick, or until a settlement, a gap or an error. */
  lemma RecordExactly(st: State, load: Load, cfg: Config, end: int, inputs: Option<TraceInputs>)
    ensures var after := ReplayRecord(st, load, cfg, end, inputs);
            if st.cursor >= end || st.settlement.Some? || st.gaps != [] || st.thrown then after == st
            else
              var next := ReplayPage(st, load(st.cursor, end), cfg, end, inputs);
              if Stopped(next) then after == next else after == ReplayRecord(next, load, cfg, end, inputs)
  {
    hide ReplayPage;
  }

  /**
   The records in turn: one that ends before the cursor, or after a settlement, is passed over; one without inputs is a
   gap and ends the replay, as does a gap or an error while replaying one; otherwise it is counted and compared.
   */
  lemma RecordsExactly(st: State, records: seq<Record>, load: Load, cfg: Config)
    ensures ReplayRecords(st, [], load, cfg) == st
    ensures records != [] ==>
              var after, r, rest := ReplayRecords(st, records, load, cfg), records[0], records[1..];
              if st.thrown then after == st
              else if st.cursor > r.end || st.settlement.Some? then after == ReplayRecords(st, rest, load, cfg)
              else if r.payload.inputs.None? then after == st.(gaps := st.gaps + [NoInputs(r.end)])
              else
                var next := ReplayRecord(st, load, cfg, r.end, r.payload.inputs);
                if next.gaps != [] || next.thrown then after == next
                else
                  var compared := next.(checkpoints := next.checkpoints + 1, differences := next.differences + Compare(next, r.end, r.payload));
                  after == ReplayRecords(compared, rest, load, cfg)
  {
    hide ReplayRecord, Compare;
  }

  /** After the records: the ticks up to the end are replayed without inputs if the position is still open, and the rest is only counted. */
  lemma TailExactly(st: State, load: Load, cfg: Config, endId: int)
    ensures ReplayTail(st, load, cfg, endId)
         == (if Stopped(st) || st.cursor > endId then st else ReplayRecord(st, load, cfg, endId, None))
    ensures var rest, events := CountRest(st, load, endId), load(st.readThrough, endId);
            if st.gaps != [] || st.readThrough >= endId || events == [] || events[|events| - 1].id <= st.readThrough then rest == st
            else rest == CountRest(st.(available := st.available + |events|, readThrough := events[|events| - 1].id), load, endId)
  {
    hide ReplayRecord;
  }

  /** The stored ticks must be as many as were expected when the trace was recorded. */
  lemma CoverageExactly(st: State, expected: Option<int>)
    ensures Coverage(st, expected) == st.(gaps := st.gaps + (match expected
                                                            case None => [NoExpectedCount]
                                                            case Some(n) => if n == st.available then [] else [CountMismatch(n, st.available)]))
  {
  }

  /** A recorded trade must have closed in the replay, for the same reason, at the same time and for the same amounts. */
  lemma TradeExactly(st: State, trade: Option<Settlement>)
    ensures CompareTrade(st, trade) ==
              if trade.None? || st.gaps != [] then st
              else if st.settlement.None? then st.(gaps := [NoExit])
              else st.(differences := st.differences + If(ClosedApart(st.settlement.value, trade.value), TradeMismatch)
                                      + Times(AmountsApart(st.settlement.value, trade.value), TradeMismatch))
  {
    hide AmountDifferences, AmountsApart, Times;
    if trade.Some? && st.settlement.Some? { AmountsExactly(st.settlement.value, trade.value, TradeMismatch); }
  }

  /** The replay begins at the recorded state, with a gap if its tick is not stored; an entry filled at that tick may exit on it at once. */
  lemma StartExactly(trace: Trace, load: Load)
    ensures var st, stored := InitialState(trace, load), load(trace.startId - 1, trace.startId);
            && st.live == trace.start && st.cursor == trace.startId && st.policy == trace.policy && st.signals == [] && st.readThrough == trace.startId
            && st.count == 0 && st.available == 0 && st.checkpoints == 0 && st.differences == [] && !st.thrown
            && if forall e :: e in stored ==> e.id != trace.startId then st.gaps == [NoInitialEvent] && st.settlement.None?
               else
                 && st.gaps == []
                 && exists e :: FirstWithId(stored, trace.startId, e)
                      && st.settlement == if trace.entryExecution then PriceExit(trace.start.now.position, e.price, e.observedAt, trace.cfg) else None
  {
    var stored := load(trace.startId - 1, trace.startId);
    FindExactly(stored, trace.startId);
  }

  ghost predicate FirstWithId(events: seq<Event>, id: int, e: Event) {
    exists i: nat :: i < |events| && events[i] == e && e.id == id && forall j :: 0 <= j < i ==> events[j].id != id
  }

  lemma {:induction false} FindExactly(events: seq<Event>, id: int)
    ensures if FindEvent(events, id).None? then forall e :: e in events ==> e.id != id
            else exists e :: FirstWithId(events, id, e) && FindEvent(events, id) == Some(e)
    decreases |events|
  {
    if events != [] {
      if events[0].id == id {
        FirstIsFirst(events, id);
      } else {
        FindExactly(events[1..], id);
        assert forall e :: e in events <==> e == events[0] || e in events[1..];
        if FindEvent(events, id).Some? {
          var e :| FirstWithId(events[1..], id, e) && FindEvent(events[1..], id) == Some(e);
          var i: nat :| i < |events[1..]| && events[1..][i] == e && e.id == id && forall j :: 0 <= j < i ==> events[1..][j].id != id;
          forall j | 0 <= j < i + 1 ensures events[j].id != id { if j > 0 { assert events[j] == events[1..][j - 1]; } }
          assert events[i + 1] == e;
          assert FirstWithId(events, id, e);
        }
      }
    }
  }

  lemma FirstIsFirst(events: seq<Event>, id: int)
    requires events != [] && events[0].id == id
    ensures FirstWithId(events, id, events[0])
  {
    var i: nat := 0;
    assert i < |events| && events[i] == events[0];
  }

  /** The whole replay: records, tail, rest, coverage and the recorded trade, in this order; an error ends it before the rest. */
  lemma ReportExactly(trace: Trace, load: Load)
    ensures var tailed := ReplayTail(ReplayRecords(InitialState(trace, load), trace.records, load, trace.cfg), load, trace.cfg, trace.endId);
            Replay(trace, load) == if tailed.thrown then tailed
                                   else CompareTrade(Coverage(CountRest(tailed, load, trace.endId), trace.expected), trace.trade)
  {
    hide ReplayRecords, ReplayTail, CountRest, InitialState, Coverage, CompareTrade;
  }
}
