/** What a replay report means: no difference and no gap is reported only when everything recorded was reproduced. */
module ReplayReport {
  import opened Common
  import opened Engine
  import opened TickProcessor
  import opened TraceReplay

  /** Two settlements for the same reason at the same time, their amounts equal to the tolerance of the comparison. */
  predicate SameSettlement(actual: Settlement, recorded: Settlement) {
    && actual.reason == recorded.reason && actual.closedAt == recorded.closedAt
    && Near(actual.exitPrice, recorded.exitPrice, CENT) && Near(actual.grossPnl, recorded.grossPnl, CENT)
    && Near(actual.netPnl, recorded.netPnl, CENT) && Near(actual.fees, recorded.fees, CENT)
    && Near(actual.slippage, recorded.slippage, CENT)
  }

  /** The replayed state is the recorded one: levels, policy state, signal cursor, price, clock and settlement. */
  predicate Reproduces(st: State, payload: Payload) {
    var p, levels := st.live.now.position, RecordedProtection(payload.action);
    && (levels.Some? ==> SameProtection(p, levels.value))
    && st.live.now.state == payload.state && st.live.signalAt == payload.signalAt
    && Near(st.live.mark, payload.quotePrice, Tolerance(p)) && st.live.through == payload.quoteAt
    && match payload.action
       case Update(_) => st.settlement.None?
       case Close(recorded, _) => st.settlement.Some? && SameSettlement(st.settlement.value, recorded)
  }

  /** The comparison of a checkpoint reports nothing if and only if the checkpoint was reproduced. */
  lemma ComparisonIsExact(st: State, end: int, payload: Payload)
    ensures Compare(st, end, payload) == [] <==> Reproduces(st, payload)
  {
    hide SameProtection, Near, Tolerance;
  }

  /** Every record reached by the replay was reproduced. */
  predicate AllReproduced(st: State, records: seq<Record>, load: Load, cfg: Config)
    decreases |records|
  {
    records == [] || st.thrown ||
      var r := records[0];
      if r.end < st.cursor || st.settlement.Some? then AllReproduced(st, records[1..], load, cfg)
      else
        && r.payload.inputs.Some?
        && var next := ReplayRecord(st, load, cfg, r.end, r.payload.inputs);
           && next.gaps == [] && !next.thrown && Reproduces(next, r.payload)
           && AllReproduced(next.(checkpoints := next.checkpoints + 1), records[1..], load, cfg)
  }

  lemma SegmentKeepsDifferences(st: State, segment: seq<Event>, cfg: Config, inputs: Option<TraceInputs>)
    ensures ReplaySegment(st, segment, cfg, inputs).differences == st.differences
  {
    hide Process, FirstAfter, Recorded;
    if !(segment == [] || st.settlement.Some? || st.gaps != [] || st.thrown) {
      var from := Effective(st, segment, inputs);
      var run := Process(Fresh(from.live.(anchor := Some(st.cursor))), segment, ReplayEnv(from, cfg, inputs, segment), n => true, 0);
      ApplyAllLast(from, segment, run.offered);
    }
  }

  lemma PageKeepsDifferences(st: State, events: seq<Event>, cfg: Config, end: int, inputs: Option<TraceInputs>)
    ensures ReplayPage(st, events, cfg, end, inputs).differences == st.differences
  {
    hide ReplaySegment, Boundary, ValidPage, CountIds;
    if events != [] && ValidPage(events, st.cursor, end) {
      var read := st.(available := st.available + CountIds(events, st.readThrough, events[|events| - 1].id),
                      readThrough := events[|events| - 1].id);
      var n := Boundary(events, inputs);
      SegmentKeepsDifferences(read, events[..n], cfg, inputs);
      SegmentKeepsDifferences(ReplaySegment(read, events[..n], cfg, inputs), events[n..], cfg, inputs);
    }
  }

  lemma {:induction false} RecordKeepsDifferences(st: State, load: Load, cfg: Config, end: int, inputs: Option<TraceInputs>)
    ensures ReplayRecord(st, load, cfg, end, inputs).differences == st.differences
    decreases Max(0, end - st.cursor)
  {
    hide ReplayPage;
    if st.cursor < end && !Stopped(st) {
      var next := ReplayPage(st, load(st.cursor, end), cfg, end, inputs);
      PageKeepsDifferences(st, load(st.cursor, end), cfg, end, inputs);
      PageProgress(st, load(st.cursor, end), cfg, end, inputs);
      if !Stopped(next) { RecordKeepsDifferences(next, load, cfg, end, inputs); }
    }
  }

  /** Once reported, a difference stays in the report. */
  lemma {:induction false} DifferencesStay(st: State, records: seq<Record>, load: Load, cfg: Config)
    ensures st.differences <= ReplayRecords(st, records, load, cfg).differences
    decreases |records|
  {
    hide ReplayRecord, Compare;
    if records != [] && !st.thrown {
      var r := records[0];
      if r.end < st.cursor || st.settlement.Some? {
        DifferencesStay(st, records[1..], load, cfg);
      } else if r.payload.inputs.Some? {
        var next := ReplayRecord(st, load, cfg, r.end, r.payload.inputs);
        RecordKeepsDifferences(st, load, cfg, r.end, r.payload.inputs);
        DifferencesStay(next.(checkpoints := next.checkpoints + 1, differences := next.differences + Compare(next, r.end, r.payload)),
                        records[1..], load, cfg);
      }
    }
  }

  lemma {:induction false} CleanRecordsWereReproduced(st: State, records: seq<Record>, load: Load, cfg: Config)
    requires var report := ReplayRecords(st, records, load, cfg); report.differences == [] && report.gaps == [] && !report.thrown
    ensures AllReproduced(st, records, load, cfg)
    decreases |records|
  {
    hide ReplayRecord, Compare, Reproduces;
    if records != [] && !st.thrown {
      var r := records[0];
      if r.end < st.cursor || st.settlement.Some? {
        CleanRecordsWereReproduced(st, records[1..], load, cfg);
      } else if r.payload.inputs.Some? {
        var next := ReplayRecord(st, load, cfg, r.end, r.payload.inputs);
        var found := Compare(next, r.end, r.payload);
        var going := next.(checkpoints := next.checkpoints + 1, differences := next.differences + found);
        ComparisonIsExact(next, r.end, r.payload);
        if next.gaps == [] && !next.thrown {
          DifferencesStay(going, records[1..], load, cfg);
          RecordKeepsDifferences(st, load, cfg, r.end, r.payload.inputs);
          assert going == next.(checkpoints := next.checkpoints + 1);
          CleanRecordsWereReproduced(going, records[1..], load, cfg);
        }
      }
    }
  }

  lemma TailKeepsReport(st: State, load: Load, cfg: Config, endId: int)
    ensures ReplayTail(st, load, cfg, endId).differences == st.differences
    ensures st.gaps != [] || st.thrown ==> ReplayTail(st, load, cfg, endId) == st
  {
    hide ReplayRecord;
    RecordKeepsDifferences(st, load, cfg, endId, None);
  }

  lemma {:induction false} CountKeepsReport(st: State, load: Load, endId: int)
    ensures var counted := CountRest(st, load, endId);
            counted == st.(available := counted.available, readThrough := counted.readThrough)
    decreases Max(0, endId - st.readThrough)
  {
    if st.gaps == [] && st.readThrough < endId {
      var events := load(st.readThrough, endId);
      if !(events == [] || events[|events| - 1].id <= st.readThrough) {
        CountKeepsReport(st.(available := st.available + |events|, readThrough := events[|events| - 1].id), load, endId);
      }
    }
  }

  /**
   A clean report is not empty praise: when a replay reports no difference and no gap, every record it reached
   was reproduced, all expected ticks were there, and a recorded trade closed for the same reason, at the same
   time and for the same amounts.
   */
  lemma CleanReportMeansReproduced(trace: Trace, load: Load)
    requires var report := Replay(trace, load); report.differences == [] && report.gaps == [] && !report.thrown
    ensures AllReproduced(InitialState(trace, load), trace.records, load, trace.cfg)
    ensures trace.expected == Some(Replay(trace, load).available)
    ensures trace.trade.Some? ==>
              Replay(trace, load).settlement.Some? && SameSettlement(Replay(trace, load).settlement.value, trace.trade.value)
  {
    hide ReplayRecords, ReplayTail, CountRest, InitialState, AllReproduced, Near;
    var st := ReplayRecords(InitialState(trace, load), trace.records, load, trace.cfg);
    var tailed := ReplayTail(st, load, trace.cfg, trace.endId);
    TailKeepsReport(st, load, trace.cfg, trace.endId);
    CountKeepsReport(tailed, load, trace.endId);
    CleanRecordsWereReproduced(InitialState(trace, load), trace.records, load, trace.cfg);
  }
}
