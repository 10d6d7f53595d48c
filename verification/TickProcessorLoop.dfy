/** The price loop as the runtime runs it, local variable by local variable, against its specification. */
module TickProcessorLoop {
  import opened Common
  import opened Engine
  import opened Recovery
  import opened TickProcessor

  method CollectFrom(events: seq<Event>, id: int) returns (ahead: seq<Event>)
    ensures ahead == IdsFrom(events, id)
  {
    ahead := [];
    for i := 0 to |events|
      invariant IdsFrom(events, id) == ahead + IdsFrom(events[i..], id)
    {
      assert events[i..][0] == events[i] && events[i..][1..] == events[i + 1..];
      if events[i].id >= id { ahead := ahead + [events[i]]; }
    }
    assert events[|events|..] == [];
  }

  /** Looks for an exit at the confirmed levels before waiting for history. */
  method ProtectFirst(live: Live, e: Event, env: Env) returns (found: Option<Found>)
    ensures found == LookAhead(live, e, env)
  {
    if !(live.stream != Some(e.stream) && env.protectFirst) { return None; }
    var candidates := CollectFrom(env.batch, e.id);
    if env.latest.Some? && env.latest.value.id > (if candidates == [] then e.id else candidates[|candidates| - 1].id) {
      candidates := candidates + [env.latest.value];
    }
    found := FindExit(live.now.position, live.through, candidates, env.cfg);
  }

  /** Reads the loaded signals for one tick. */
  method ReadSignals(signals: seq<Signal>, baseline: int, lastClosed: int, e: Event, at: int, b: Basis, cfg: Config, start: Option<int>)
    returns (scan: Scan)
    ensures scan == ScanSignals(signals, baseline, lastClosed, e, at, b, cfg, start)
  {
    var signalAt, i := start, 0;
    while i < |signals|
      invariant i <= |signals|
      invariant ScanSignals(signals, baseline, lastClosed, e, at, b, cfg, start) ==
                ScanSignals(signals[i..], baseline, lastClosed, e, at, b, cfg, signalAt)
    {
      var signal := signals[i];
      assert signals[i..][0] == signal && signals[i..][1..] == signals[i + 1..];
      i := i + 1;
      if signal.openTime <= baseline { continue; }
      if signal.openTime > lastClosed || signal.availableAt > e.receivedAt { break; }
      signalAt := Some(signal.openTime);
      if signal.closedAt <= b.openedAt { continue; }
      if InvalidSignal(signal, b, at, cfg) { return BadSignal; }
      if signal.fires { return Scanned(signalAt, Some(signal)); }
    }
    return Scanned(signalAt, None);
  }

  lemma Unroll(l: Loop, events: seq<Event>, i: nat, env: Env, accept: nat -> bool, count: nat)
    requires i < |events| && !PreOpen(l.live, events[i]) && LookAhead(l.live, events[i], env).None?
    ensures var e := events[i];
            var run := Process(l, events[i..], env, accept, count);
            var flushed := if MustFlush(l, e, env) then Emit(l.pending) else [];
            var s := StepOn(l.live, e, env);
            if flushed != [] && !accept(count) then run == Run(flushed, Refused)
            else
              match s
              case RecoveryFailed => run == Run(flushed, RecoveryMissing)
              case SignalFailed => run == Run(flushed, SignalRejected)
              case Stepped(_, settlement, _, _, _) =>
                if settlement.Some? then run == Run(flushed + [TickCheckpoint(l, e, s)], Finished)
                else
                  var rest := Process(AfterStep(l, e, s), events[i + 1..], env, accept, count + |flushed|);
                  run == Run(flushed + rest.offered, rest.outcome)
  {
    hide StepOn, LookAhead, MustFlush, PreOpen;
    assert events[i..][0] == events[i] && events[i..][1..] == events[i + 1..];
  }

  lemma UnrollPreOpen(l: Loop, events: seq<Event>, i: nat, env: Env, accept: nat -> bool, count: nat)
    requires i < |events| && PreOpen(l.live, events[i])
    ensures Process(l, events[i..], env, accept, count) ==
            Process(l.(pending := Some(PreOpenCheckpoint(l, events[i]))), events[i + 1..], env, accept, count)
  {
    hide StepOn, LookAhead, MustFlush, PreOpen;
    assert events[i..][0] == events[i] && events[i..][1..] == events[i + 1..];
  }

  /** Price, holding limit, signals and protection of one tick, once its gap is closed. */
  method TakeOne(live: Live, event: Event, env: Env, gap: Option<GapNote>) returns (s: Step)
    ensures s == TakeTick(live, event, env, gap)
  {
    hide Advance, PriceExit, HoldingExit, Settle, ScanSignals, TickExit, LastClosed, Baseline;
    var now, signalAt, consulted := live.now, live.signalAt, false;
    var signalExit: Option<SignalNote> := None;
    var at := Max(event.observedAt, live.through);
    var settlement := TickExit(now.position, event.price, at, env.cfg);
    if settlement.None? && env.signals.Some? {
      var b := now.position.basis;
      var lastClosed := LastClosed(at, env.cfg.intervalMs);
      var baseline := Baseline(signalAt, b, env.cfg);
      if lastClosed > baseline {
        var scan := ReadSignals(env.signals.value, baseline, lastClosed, event, at, b, env.cfg, signalAt);
        if scan.BadSignal? { return SignalFailed; }
        consulted := true;
        signalAt := scan.signalAt;
        if scan.exit.Some? {
          var signal := scan.exit.value;
          signalExit := Some(SignalNote(signal.openTime, signal.closedAt, signal.availableAt, event.receivedAt,
                                        Max(0, event.receivedAt - signal.closedAt)));
          settlement := Some(Settle(now.position, event.price, at, SignalExit, env.cfg));
        }
      }
    }
    if settlement.None? { now := Advance(now, event.price, event.observedAt, env.cfg, env.policy); }
    s := Stepped(Live(now, at, Some(event.stream), event.price, Some(event.id), signalAt), settlement, signalExit, consulted, gap);
  }

  /** One tick after the opening: the held-back checkpoint is committed before history or signals are waited for. */
  method CommitAndStep(l: Loop, event: Event, env: Env, accept: nat -> bool, count: nat)
    returns (flushed: seq<Checkpoint>, refused: bool, s: Step)
    ensures flushed == if MustFlush(l, event, env) then Emit(l.pending) else []
    ensures refused == (flushed != [] && !accept(count))
    ensures !refused ==> s == StepOn(l.live, event, env)
  {
    hide Advance, PriceExit, HoldingExit, Settle, TakeTick, TickExit, LastClosed, Baseline;
    flushed, refused, s := [], false, RecoveryFailed;
    if StreamChanged(l.live, event) {
      if l.pending.Some? {
        flushed := [l.pending.value];
        if !accept(count) { return flushed, true, s; }
      }
      var result := env.recover(l.live.now, l.live.through, event.(observedAt := QuoteAt(l.live, event)), l.live.anchor);
      if result.Incomplete? { return; }
      var gap := Some(GapNote(if l.live.stream.None? then UnconfirmedStream else StreamChange, result.value.evidence));
      var recovered := l.live.(now := result.value.now);
      if result.value.settlement.Some? {
        s := Stepped(AfterTick(recovered, event, recovered.now, l.live.signalAt), result.value.settlement, None, false, gap);
      } else {
        s := TakeOne(recovered, event, env, gap);
      }
    } else {
      if l.pending.Some? && FirstConsultation(l, event, env) {
        flushed := [l.pending.value];
        if !accept(count) { return flushed, true, s; }
      }
      s := TakeOne(l.live, event, env, None);
    }
  }

  method ProcessRuntimePriceEvents(input: Live, events: seq<Event>, env: Env, accept: nat -> bool) returns (run: Run)
    ensures run == Process(Fresh(input), events, env, accept, 0)
  {
    hide StepOn, LookAhead, Process, MustFlush;
    var live, recovered, recovery, pending, loaded := input, false, None, None, false;
    var offered: seq<Checkpoint> := [];
    var i := 0;
    while i < |events|
      invariant i <= |events|
      invariant var rest := Process(Loop(live, recovered, recovery, pending, loaded), events[i..], env, accept, |offered|);
                Process(Fresh(input), events, env, accept, 0) == Run(offered + rest.offered, rest.outcome)
    {
      var event := events[i];
      var l := Loop(live, recovered, recovery, pending, loaded);
      if event.observedAt < live.now.position.basis.openedAt {
        UnrollPreOpen(l, events, i, env, accept, |offered|);
        pending := Some(Checkpoint(live.now, event, live.through, if live.stream.Some? then live.stream.value else event.stream,
                                   live.mark, None, recovered, recovery, live.signalAt, None, false));
        i := i + 1;
        continue;
      }
      var found := ProtectFirst(live, event, env);
      if found.Some? {
        FoundStops(l, events, i, env, accept, |offered|);
        return Run(offered + [LookAheadCheckpoint(l, found.value)], Finished);
      }
      Unroll(l, events, i, env, accept, |offered|);
      var flushed, refused, s := CommitAndStep(l, event, env, accept, |offered|);
      offered := offered + flushed;
      if refused { return Run(offered, Refused); }
      if s.RecoveryFailed? { return Run(offered, RecoveryMissing); }
      if s.SignalFailed? { return Run(offered, SignalRejected); }
      live := s.live;
      if s.gap.Some? { recovered, recovery := true, s.gap; }
      loaded := loaded || s.consulted;
      pending := Some(Checkpoint(live.now, event, live.through, event.stream, event.price, s.settlement, recovered, recovery,
                                 live.signalAt, s.signal, false));
      if s.settlement.Some? { return Run(offered + [pending.value], Finished); }
      i := i + 1;
    }
    assert events[i..] == [];
    ProcessNothing(Loop(live, recovered, recovery, pending, loaded), env, accept, |offered|);
    if pending.Some? { offered := offered + [pending.value]; }
    return Run(offered, Finished);
  }

  lemma ProcessNothing(l: Loop, env: Env, accept: nat -> bool, count: nat)
    ensures Process(l, [], env, accept, count) == Run(Emit(l.pending), Finished)
  {
  }

  lemma FoundStops(l: Loop, events: seq<Event>, i: nat, env: Env, accept: nat -> bool, count: nat)
    requires i < |events| && !PreOpen(l.live, events[i]) && LookAhead(l.live, events[i], env).Some?
    ensures Process(l, events[i..], env, accept, count) ==
            Run([LookAheadCheckpoint(l, LookAhead(l.live, events[i], env).value)], Finished)
  {
    hide StepOn, LookAhead, MustFlush, PreOpen;
  }
}
