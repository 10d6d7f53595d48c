/** The replay as it is run: nested loops over records, pages and segments, updating the cursor and the report. */
module TraceReplayLoop {
  import opened Common
  import opened Engine
  import opened TickProcessor
  import opened TickProcessorLoop
  import opened BatchLaws
  import opened TraceReplay

  /** Every checkpoint of a segment updates the replay, as the live commit would have. */
  method CommitAll(st: State, segment: seq<Event>, offered: seq<Checkpoint>) returns (next: State)
    ensures next == ApplyAll(st, segment, offered)
  {
    next := st;
    var i := 0;
    while i < |offered|
      invariant i <= |offered|
      invariant ApplyAll(st, segment, offered) == ApplyAll(next, segment, offered[i..])
    {
      var checkpoint := offered[i];
      next := next.(count := next.count + CountIds(segment, next.cursor, checkpoint.event.id), cursor := checkpoint.event.id,
                    live := Resume(checkpoint), settlement := checkpoint.settlement);
      assert offered[i..][0] == checkpoint && offered[i..][1..] == offered[i + 1..];
      i := i + 1;
    }
  }

  method RunSegment(st: State, segment: seq<Event>, cfg: Config, inputs: Option<TraceInputs>) returns (next: State)
    ensures next == ReplaySegment(st, segment, cfg, inputs)
  {
    hide Process, ApplyAll;
    if segment == [] || st.settlement.Some? || st.gaps != [] || st.thrown { return st; }
    var from := st;
    if inputs.Some? && segment[0].id >= inputs.value.firstEventId {
      from := from.(policy := inputs.value.policy, signals := inputs.value.signals);
    }
    var run := ProcessRuntimePriceEvents(from.live.(anchor := Some(st.cursor)), segment, ReplayEnv(from, cfg, inputs, segment), n => true);
    next := CommitAll(from, segment, run.offered);
    if run.outcome == SignalRejected { return next.(thrown := true); }
    if run.outcome == RecoveryMissing {
      var failed := FirstAfter(segment, next.cursor);
      if failed.Some? && Recorded(RecoveriesOf(inputs), failed.value.id, next.live.through).None? {
        next := next.(gaps := next.gaps + [NoRecovery(failed.value.id)]);
      } else {
        next := next.(thrown := true);
      }
    }
  }

  method RunPage(st: State, events: seq<Event>, cfg: Config, end: int, inputs: Option<TraceInputs>) returns (next: State)
    ensures next == ReplayPage(st, events, cfg, end, inputs)
  {
    hide ReplaySegment;
    if events == [] { return st.(gaps := st.gaps + [NoTail(st.cursor)]); }
    next := st.(available := st.available + CountIds(events, st.readThrough, events[|events| - 1].id),
                readThrough := events[|events| - 1].id);
    if !ValidPage(events, st.cursor, end) { return next.(thrown := true); }
    var boundary := Boundary(events, inputs);
    next := RunSegment(next, events[..boundary], cfg, inputs);
    next := RunSegment(next, events[boundary..], cfg, inputs);
  }

  method RunRecord(st: State, load: Load, cfg: Config, end: int, inputs: Option<TraceInputs>) returns (next: State)
    ensures next == ReplayRecord(st, load, cfg, end, inputs)
  {
    hide ReplayPage;
    next := st;
    while next.cursor < end && !Stopped(next)
      invariant ReplayRecord(st, load, cfg, end, inputs) == ReplayRecord(next, load, cfg, end, inputs)
      decreases if Stopped(next) then 0 else 1 + Max(0, end - next.cursor)
    {
      var events := load(next.cursor, end);
      PageProgress(next, events, cfg, end, inputs);
      next := RunPage(next, events, cfg, end, inputs);
    }
  }

  method ReplayRuntimeTraceBase(trace: Trace, load: Load) returns (report: State)
    ensures report == Replay(trace, load)
  {
    hide ReplayRecord, Compare;
    var st := InitialState(trace, load);
    var i, broken := 0, false;
    while i < |trace.records| && !broken && !st.thrown
      invariant i <= |trace.records|
      invariant ReplayRecords(InitialState(trace, load), trace.records, load, trace.cfg) ==
                if broken then st else ReplayRecords(st, trace.records[i..], load, trace.cfg)
      invariant broken ==> st.gaps != [] || st.thrown
    {
      var record := trace.records[i];
      assert trace.records[i..][0] == record && trace.records[i..][1..] == trace.records[i + 1..];
      i := i + 1;
      if record.end < st.cursor || st.settlement.Some? { continue; }
      if record.payload.inputs.None? {
        st := st.(gaps := st.gaps + [NoInputs(record.end)]);
        broken := true;
      } else {
        st := RunRecord(st, load, trace.cfg, record.end, record.payload.inputs);
        if st.gaps != [] || st.thrown { broken := true; }
        else { st := st.(checkpoints := st.checkpoints + 1, differences := st.differences + Compare(st, record.end, record.payload)); }
      }
    }
    if !(st.gaps != [] || st.thrown || trace.endId < st.cursor || st.settlement.Some?) {
      st := RunRecord(st, load, trace.cfg, trace.endId, None);
    }
    if st.thrown { return st; }
    var tailed := st;
    while st.gaps == [] && st.readThrough < trace.endId
      invariant CountRest(tailed, load, trace.endId) == CountRest(st, load, trace.endId)
      invariant !st.thrown
      decreases Max(0, trace.endId - st.readThrough)
    {
      var events := load(st.readThrough, trace.endId);
      if events == [] || events[|events| - 1].id <= st.readThrough { break; }
      st := st.(available := st.available + |events|, readThrough := events[|events| - 1].id);
    }
    report := CompareTrade(Coverage(st, trace.expected), trace.trade);
  }
}
