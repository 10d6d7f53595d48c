/** Re-running a position from its recorded checkpoints, page by page, and comparing what comes out. */
module TraceReplay {
  import opened Common
  import opened Engine
  import opened Recovery
  import opened TickProcessor
  import opened TickProcessorLaws
  import opened BatchLaws

  datatype RecordedRecovery = RecordedRecovery(eventId: int, since: int, causal: bool, inputs: Inputs)

  datatype TraceInputs = TraceInputs(firstEventId: int, policy: Option<Policy>, signals: seq<Signal>,
                                     recoveries: seq<RecordedRecovery>, protectFirst: bool, latest: Option<Event>)

  datatype Protection = Protection(best: real, stop: real, trailing: Option<real>)

  datatype Action = Update(protection: Protection) | Close(settlement: Settlement, last: Option<Protection>)

  datatype Payload = Payload(inputs: Option<TraceInputs>, action: Action, quotePrice: real, quoteAt: int,
                             state: Option<ProfitState>, signalAt: Option<int>)

  datatype Record = Record(end: int, payload: Payload)

  datatype Difference = ProtectionMismatch(at: int) | MissingExit(at: int) | UnexpectedExit(at: int) | StateMismatch(at: int)
                      | PriceMismatch(at: int) | ExitMismatch(at: int) | AmountMismatch(at: int) | TradeMismatch

  datatype TraceGap = NoInitialEvent | NoInputs(at: int) | NoTail(at: int) | NoRecovery(at: int) | NoExpectedCount
                    | CountMismatch(expected: int, available: int) | NoExit

  datatype Trace = Trace(start: Live, startId: int, endId: int, policy: Option<Policy>, entryExecution: bool,
                         expected: Option<int>, records: seq<Record>, trade: Option<Settlement>, cfg: Config)

  type Load = (int, int) -> seq<Event>

  datatype State = State(live: Live, cursor: int, policy: Option<Policy>, signals: seq<Signal>, settlement: Option<Settlement>,
                         count: int, available: int, readThrough: int, checkpoints: int,
                         differences: seq<Difference>, gaps: seq<TraceGap>, thrown: bool)

  // ---------------------------------------------------------------- one segment of a page

  function FindRecovery(recoveries: seq<RecordedRecovery>, id: int): Option<RecordedRecovery> {
    if recoveries == [] then None
    else if recoveries[0].eventId == id then Some(recoveries[0])
    else FindRecovery(recoveries[1..], id)
  }

  /** The recorded inputs of the very gap being recovered. */
  function Recorded(recoveries: seq<RecordedRecovery>, id: int, since: int): Option<RecordedRecovery> {
    var found := FindRecovery(recoveries, id);
    if found.Some? && found.value.since == since then found else None
  }

  function ReplayRecover(cfg: Config, policy: Option<Policy>, recoveries: seq<RecordedRecovery>): Recover {
    (now: Protected, since: int, e: Event, anchor: Option<int>) =>
      var found := Recorded(recoveries, e.id, since);
      if found.None? then Incomplete
      else
        var gap := Gap(now, since, Quote(now.position.basis.symbol, e.price, e.observedAt), found.value.inputs);
        if found.value.causal then CausalRecovery(gap, cfg, policy) else LegacyRecovery(gap, cfg)
  }

  function RecoveriesOf(inputs: Option<TraceInputs>): seq<RecordedRecovery> {
    if inputs.Some? then inputs.value.recoveries else []
  }

  function ReplayEnv(st: State, cfg: Config, inputs: Option<TraceInputs>, segment: seq<Event>): Env {
    Env(cfg, st.policy, if st.live.now.position.basis.signalExitEnabled then Some(st.signals) else None,
        ReplayRecover(cfg, st.policy, RecoveriesOf(inputs)),
        inputs.Some? && inputs.value.protectFirst, if inputs.Some? then inputs.value.latest else None, segment)
  }

  function CountIds(events: seq<Event>, above: int, through: int): nat {
    if events == [] then 0
    else (if above < events[0].id <= through then 1 else 0) + CountIds(events[1..], above, through)
  }

  function Apply(st: State, segment: seq<Event>, cp: Checkpoint): State {
    st.(live := Resume(cp), cursor := cp.event.id, settlement := cp.settlement,
        count := st.count + CountIds(segment, st.cursor, cp.event.id))
  }

  function ApplyAll(st: State, segment: seq<Event>, offered: seq<Checkpoint>): State
    decreases |offered|
  {
    if offered == [] then st else ApplyAll(Apply(st, segment, offered[0]), segment, offered[1..])
  }

  function FirstAfter(events: seq<Event>, cursor: int): Option<Event> {
    if events == [] then None else if events[0].id > cursor then Some(events[0]) else FirstAfter(events[1..], cursor)
  }

  /** The record's policy and signals take effect from its first tick on. */
  function Effective(st: State, segment: seq<Event>, inputs: Option<TraceInputs>): State
    requires segment != []
  {
    if inputs.Some? && segment[0].id >= inputs.value.firstEventId
    then st.(policy := inputs.value.policy, signals := inputs.value.signals)
    else st
  }

  function ReplaySegment(st: State, segment: seq<Event>, cfg: Config, inputs: Option<TraceInputs>): State {
    if segment == [] || st.settlement.Some? || st.gaps != [] || st.thrown then st
    else
      var from := Effective(st, segment, inputs);
      var run := Process(Fresh(from.live.(anchor := Some(st.cursor))), segment, ReplayEnv(from, cfg, inputs, segment), n => true, 0);
      var next := ApplyAll(from, segment, run.offered);
      match run.outcome
      case Finished => next
      case Refused => next
      case SignalRejected => next.(thrown := true)
      case RecoveryMissing =>
        var failed := FirstAfter(segment, next.cursor);
        if failed.Some? && Recorded(RecoveriesOf(inputs), failed.value.id, next.live.through).None?
        then next.(gaps := next.gaps + [NoRecovery(failed.value.id)])
        else next.(thrown := true)
  }

  // ---------------------------------------------------------------- the pages of one record

  predicate InOrderIds(events: seq<Event>) {
    forall i :: 0 < i < |events| ==> events[i - 1].id < events[i].id
  }

  predicate ValidPage(events: seq<Event>, cursor: int, end: int) {
    events != [] && events[0].id > cursor && (forall e :: e in events ==> e.id <= end) && InOrderIds(events)
  }

  /** The first tick the record's inputs apply to, if any of the page. */
  function Boundary(events: seq<Event>, inputs: Option<TraceInputs>): (n: nat)
    ensures n <= |events|
  {
    if inputs.None? || events == [] || events[0].id >= inputs.value.firstEventId then 0
    else
      var rest := Boundary(events[1..], inputs);
      if |events| == 1 || (rest == 0 && events[1].id < inputs.value.firstEventId) then 0 else rest + 1
  }

  function ReplayPage(st: State, events: seq<Event>, cfg: Config, end: int, inputs: Option<TraceInputs>): State {
    if events == [] then st.(gaps := st.gaps + [NoTail(st.cursor)])
    else
      var read := st.(available := st.available + CountIds(events, st.readThrough, events[|events| - 1].id),
                      readThrough := events[|events| - 1].id);
      if !ValidPage(events, st.cursor, end) then read.(thrown := true)
      else
        var n := Boundary(events, inputs);
        ReplaySegment(ReplaySegment(read, events[..n], cfg, inputs), events[n..], cfg, inputs)
  }

  // ---------------------------------------------------------------- every page moves the cursor

  predicate Stopped(st: State) {
    st.settlement.Some? || st.gaps != [] || st.thrown
  }

  lemma {:induction false} FinishedReachesEnd(l: Loop, events: seq<Event>, env: Env, accept: nat -> bool, count: nat)
    requires AcceptsAll(accept)
    ensures var run := Process(l, events, env, accept, count);
            && run.outcome != Refused
            && (run.outcome == Finished && events == [] ==> run.offered == Emit(l.pending))
            && (run.outcome == Finished && events != [] ==>
                  run.offered != [] && (Last(run.offered).settlement.Some? || Last(run.offered).event == Last(events)))
    decreases |events|
  {
    hide StepOn, PreOpen, LookAhead, MustFlush;
    if events != [] {
      var e := events[0];
      if PreOpen(l.live, e) {
        FinishedReachesEnd(l.(pending := Some(PreOpenCheckpoint(l, e))), events[1..], env, accept, count);
      } else if LookAhead(l.live, e, env).None? && StepOn(l.live, e, env).Stepped? && StepOn(l.live, e, env).settlement.None? {
        var flushed := if MustFlush(l, e, env) then Emit(l.pending) else [];
        FinishedReachesEnd(AfterStep(l, e, StepOn(l.live, e, env)), events[1..], env, accept, count + |flushed|);
      }
    }
  }

  /** The replay keeps the last checkpoint and the number of ticks passed on the way. */
  lemma {:induction false} ApplyAllLast(st: State, segment: seq<Event>, offered: seq<Checkpoint>)
    ensures var next := ApplyAll(st, segment, offered);
            && next == st.(live := next.live, cursor := next.cursor, settlement := next.settlement, count := next.count)
            && (offered == [] ==> next == st)
            && (offered != [] ==> next.live == Resume(Last(offered)) && next.cursor == Last(offered).event.id
                                  && next.settlement == Last(offered).settlement)
    decreases |offered|
  {
    if offered != [] { ApplyAllLast(Apply(st, segment, offered[0]), segment, offered[1..]); }
  }

  lemma SegmentProgress(st: State, segment: seq<Event>, cfg: Config, inputs: Option<TraceInputs>)
    requires segment != [] && !Stopped(st)
    ensures var next := ReplaySegment(st, segment, cfg, inputs);
            Stopped(next) || next.cursor == Last(segment).id
  {
    hide Process, FirstAfter;
    var from := Effective(st, segment, inputs);
    var env, accept := ReplayEnv(from, cfg, inputs, segment), (n: nat) => true;
    var l := Fresh(from.live.(anchor := Some(st.cursor)));
    FinishedReachesEnd(l, segment, env, accept, 0);
    SameAccept(l, segment, env, accept, n => true, 0);
    ApplyAllLast(from, segment, Process(l, segment, env, accept, 0).offered);
  }

  lemma {:induction false} SameAccept(l: Loop, events: seq<Event>, env: Env, accept: nat -> bool, accept': nat -> bool, count: nat)
    requires forall n :: accept(n) == accept'(n)
    ensures Process(l, events, env, accept, count) == Process(l, events, env, accept', count)
    decreases |events|
  {
    hide StepOn, PreOpen, LookAhead, MustFlush;
    if events != [] {
      var e := events[0];
      if PreOpen(l.live, e) {
        SameAccept(l.(pending := Some(PreOpenCheckpoint(l, e))), events[1..], env, accept, accept', count);
      } else if LookAhead(l.live, e, env).None? && StepOn(l.live, e, env).Stepped? && StepOn(l.live, e, env).settlement.None? {
        var flushed := if MustFlush(l, e, env) then Emit(l.pending) else [];
        SameAccept(AfterStep(l, e, StepOn(l.live, e, env)), events[1..], env, accept, accept', count + |flushed|);
      }
    }
  }

  lemma PageProgress(st: State, events: seq<Event>, cfg: Config, end: int, inputs: Option<TraceInputs>)
    requires !Stopped(st)
    ensures var next := ReplayPage(st, events, cfg, end, inputs);
            Stopped(next) || next.cursor > st.cursor
  {
    hide ReplaySegment, Boundary;
    if events != [] && ValidPage(events, st.cursor, end) {
      var read := st.(available := st.available + CountIds(events, st.readThrough, events[|events| - 1].id),
                      readThrough := events[|events| - 1].id);
      var n := Boundary(events, inputs);
      var mid := ReplaySegment(read, events[..n], cfg, inputs);
      IdsAbove(events, st.cursor);
      NothingToReplay(read, cfg, inputs);
      NothingToReplay(mid, cfg, inputs);
      if n > 0 { SegmentProgress(read, events[..n], cfg, inputs); }
      if Stopped(mid) { StaysStopped(mid, events[n..], cfg, inputs); }
      else if n < |events| { SegmentProgress(mid, events[n..], cfg, inputs); }
      else { assert events[n..] == []; }
    }
  }

  lemma {:induction false} IdsAbove(events: seq<Event>, cursor: int)
    requires InOrderIds(events) && events != [] && events[0].id > cursor
    ensures forall i :: 0 <= i < |events| ==> events[i].id > cursor
    decreases |events|
  {
    if |events| > 1 { IdsAbove(events[1..], cursor); }
  }

  lemma NothingToReplay(st: State, cfg: Config, inputs: Option<TraceInputs>)
    ensures ReplaySegment(st, [], cfg, inputs) == st
  {
  }

  lemma StaysStopped(st: State, segment: seq<Event>, cfg: Config, inputs: Option<TraceInputs>)
    requires Stopped(st)
    ensures ReplaySegment(st, segment, cfg, inputs) == st
  {
  }

  function ReplayRecord(st: State, load: Load, cfg: Config, end: int, inputs: Option<TraceInputs>): State
    decreases Max(0, end - st.cursor)
  {
    if st.cursor >= end || Stopped(st) then st
    else
      var next := ReplayPage(st, load(st.cursor, end), cfg, end, inputs);
      if Stopped(next) then next
      else
        PageProgress(st, load(st.cursor, end), cfg, end, inputs);
        ReplayRecord(next, load, cfg, end, inputs)
  }

  // ---------------------------------------------------------------- comparing with what was recorded

  function Tolerance(p: Position): real {
    MaxR(0.000000001, p.basis.entryPrice * 0.000000000001)
  }

  predicate Near(a: real, b: real, tolerance: real) {
    -tolerance <= a - b <= tolerance
  }

  predicate SameProtection(p: Position, recorded: Protection) {
    var tolerance := Tolerance(p);
    && Near(p.stop, recorded.stop, tolerance)
    && Near(p.best, recorded.best, tolerance)
    && p.trailing.None? == recorded.trailing.None?
    && (p.trailing.Some? ==> Near(p.trailing.value, recorded.trailing.value, tolerance))
  }

  const CENT := 0.0000001

  function AmountDifferences(actual: Settlement, recorded: Settlement, d: Difference): seq<Difference> {
    (if Near(actual.exitPrice, recorded.exitPrice, CENT) then [] else [d])
    + (if Near(actual.grossPnl, recorded.grossPnl, CENT) then [] else [d])
    + (if Near(actual.netPnl, recorded.netPnl, CENT) then [] else [d])
    + (if Near(actual.fees, recorded.fees, CENT) then [] else [d])
    + (if Near(actual.slippage, recorded.slippage, CENT) then [] else [d])
  }

  function RecordedProtection(action: Action): Option<Protection> {
    match action
    case Update(protection) => Some(protection)
    case Close(_, last) => last
  }

  function Compare(st: State, end: int, payload: Payload): seq<Difference> {
    var p, protection := st.live.now.position, RecordedProtection(payload.action);
    (if protection.Some? && !SameProtection(p, protection.value) then [ProtectionMismatch(end)] else [])
    + (if payload.action.Close? && st.settlement.None? then [MissingExit(end)] else [])
    + (if payload.action.Update? && st.settlement.Some? then [UnexpectedExit(st.cursor)] else [])
    + (if st.live.now.state != payload.state || st.live.signalAt != payload.signalAt then [StateMismatch(end)] else [])
    + (if !Near(st.live.mark, payload.quotePrice, Tolerance(p)) || st.live.through != payload.quoteAt then [PriceMismatch(end)] else [])
    + (if payload.action.Close? && st.settlement.Some? then
         (if st.settlement.value.reason != payload.action.settlement.reason || st.settlement.value.closedAt != payload.action.settlement.closedAt
          then [ExitMismatch(end)] else [])
         + AmountDifferences(st.settlement.value, payload.action.settlement, AmountMismatch(end))
       else [])
  }

  function ReplayRecords(st: State, records: seq<Record>, load: Load, cfg: Config): State
    decreases |records|
  {
    if records == [] || st.thrown then st
    else
      var r := records[0];
      if r.end < st.cursor || st.settlement.Some? then ReplayRecords(st, records[1..], load, cfg)
      else if r.payload.inputs.None? then st.(gaps := st.gaps + [NoInputs(r.end)])
      else
        var next := ReplayRecord(st, load, cfg, r.end, r.payload.inputs);
        if next.gaps != [] || next.thrown then next
        else
          ReplayRecords(next.(checkpoints := next.checkpoints + 1, differences := next.differences + Compare(next, r.end, r.payload)),
                        records[1..], load, cfg)
  }

  /** After the last record the ticks up to the end are replayed without recorded inputs. */
  function ReplayTail(st: State, load: Load, cfg: Config, endId: int): State {
    if st.gaps != [] || st.thrown || endId < st.cursor || st.settlement.Some? then st
    else ReplayRecord(st, load, cfg, endId, None)
  }

  /** What is left of the stored ticks is only counted. */
  function CountRest(st: State, load: Load, endId: int): State
    decreases Max(0, endId - st.readThrough)
  {
    if st.gaps != [] || st.readThrough >= endId then st
    else
      var events := load(st.readThrough, endId);
      if events == [] || events[|events| - 1].id <= st.readThrough then st
      else CountRest(st.(available := st.available + |events|, readThrough := events[|events| - 1].id), load, endId)
  }

  function Coverage(st: State, expected: Option<int>): State {
    if expected.None? then st.(gaps := st.gaps + [NoExpectedCount])
    else if st.available != expected.value then st.(gaps := st.gaps + [CountMismatch(expected.value, st.available)])
    else st
  }

  function CompareTrade(st: State, trade: Option<Settlement>): State {
    if trade.None? || st.gaps != [] then st
    else if st.settlement.None? then st.(gaps := st.gaps + [NoExit])
    else
      var actual := st.settlement.value;
      st.(differences := st.differences
          + (if actual.reason != trade.value.reason || actual.closedAt != trade.value.closedAt then [TradeMismatch] else [])
          + AmountDifferences(actual, trade.value, TradeMismatch))
  }

  function FindEvent(events: seq<Event>, id: int): Option<Event> {
    if events == [] then None else if events[0].id == id then Some(events[0]) else FindEvent(events[1..], id)
  }

  function InitialState(trace: Trace, load: Load): State {
    var entry := FindEvent(load(trace.startId - 1, trace.startId), trace.startId);
    State(trace.start, trace.startId, trace.policy, [],
          if trace.entryExecution && entry.Some?
          then PriceExit(trace.start.now.position, entry.value.price, entry.value.observedAt, trace.cfg) else None,
          0, 0, trace.startId, 0, [], if entry.None? then [NoInitialEvent] else [], false)
  }

  function Replay(trace: Trace, load: Load): State {
    var st := ReplayRecords(InitialState(trace, load), trace.records, load, trace.cfg);
    var tailed := ReplayTail(st, load, trace.cfg, trace.endId);
    if tailed.thrown then tailed
    else CompareTrade(Coverage(CountRest(tailed, load, trace.endId), trace.expected), trace.trade)
  }
}
