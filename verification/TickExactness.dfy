/** What the tick loop does around a single tick: the gap before it, the protective look-ahead, and what a checkpoint notes. */
module TickExactness {
  import opened Common
  import opened Engine
  import opened Recovery
  import opened TickProcessor
  import opened TickProcessorLaws
  import opened SignalExactness

  // ---------------------------------------------------------------- the gap before a tick

  /** The tick with its time no earlier than the position's clock. */
  predicate NoEarlier(live: Live, e: Event, f: Event) {
    f == e.(observedAt := f.observedAt) && f.observedAt >= e.observedAt && f.observedAt >= live.through
    && (f.observedAt == e.observedAt || f.observedAt == live.through)
  }

  /**
   A tick of the confirmed stream is taken as it is. Any other first recovers the gap from the position's clock to the
   tick: without an answer nothing is taken; an exit closes the position at this tick, and no candle is read; otherwise
   the tick is taken from the recovered state. The gap is noted either way.
   */
  lemma StepOnExactly(live: Live, e: Event, f: Event, env: Env)
    requires NoEarlier(live, e, f)
    ensures var s := StepOn(live, e, env);
            if live.stream == Some(e.stream) then s == TakeTick(live, e, env, None)
            else
              var r := env.recover(live.now, live.through, f, live.anchor);
              if r.Incomplete? then s.RecoveryFailed?
              else
                var gap := Some(GapNote(if live.stream.Some? then StreamChange else UnconfirmedStream, r.value.evidence));
                if r.value.settlement.None? then s == TakeTick(live.(now := r.value.now), e, env, gap)
                else
                  && s.Stepped? && Noted(live, e, s.live) && s.live.now == r.value.now && s.live.signalAt == live.signalAt
                  && s.settlement == r.value.settlement && s.signal.None? && !s.consulted && s.gap == gap
  {
    hide TakeTick;
  }

  // ---------------------------------------------------------------- the protective look-ahead

  /** The tick is due for the position as confirmed and closes it, by its price or by the holding limit. */
  predicate Closes(p: Position, through: int, e: Event) {
    e.observedAt >= through && e.observedAt >= p.basis.openedAt && (Touched(p, e.price) || Overdue(p.basis, e.observedAt))
  }

  predicate FirstToClose(p: Position, through: int, events: seq<Event>, i: nat) {
    i < |events| && Closes(p, through, events[i]) && forall j :: 0 <= j < i ==> !Closes(p, through, events[j])
  }

  /** How such a tick closes the position. */
  predicate ClosesWith(p: Position, e: Event, settlement: Settlement, cfg: ConfigData) {
    if Touched(p, e.price) then PriceExit(p, e.price, e.observedAt, cfg) == Some(settlement)
    else settlement == Settle(p, e.price, e.observedAt, HoldingTimeout, cfg)
  }

  /** The scan finds the first tick that closes the position, if there is one. */
  lemma {:induction false} FirstExitExactly(p: Position, through: int, events: seq<Event>, cfg: Config)
    ensures var found := FirstExit(p, through, events, cfg);
            if found.None? then forall e :: e in events ==> !Closes(p, through, e)
            else exists i: nat :: FirstToClose(p, through, events, i) && found.value.event == events[i]
                                  && ClosesWith(p, events[i], found.value.settlement, cfg)
    decreases |events|
  {
    hide Touched, Settle;
    if events != [] {
      var found := FirstExit(p, through, events, cfg);
      if Closes(p, through, events[0]) {
        assert FirstToClose(p, through, events, 0);
      } else {
        FirstExitExactly(p, through, events[1..], cfg);
        assert forall e :: e in events <==> e == events[0] || e in events[1..];
        if found.Some? {
          var i: nat :| FirstToClose(p, through, events[1..], i) && found.value.event == events[1..][i]
                        && ClosesWith(p, events[1..][i], found.value.settlement, cfg);
          forall j | 0 <= j < i + 1 ensures !Closes(p, through, events[j]) { if j > 0 { assert events[j] == events[1..][j - 1]; } }
          assert FirstToClose(p, through, events, i + 1) && events[i + 1] == events[1..][i];
        }
      }
    }
  }

  /** What the look-ahead at a tick scans: this and later ticks of the batch in order, then the latest tick if it is newer than all of them. */
  ghost predicate Scans(e: Event, env: Env, events: seq<Event>) {
    && (forall i :: 0 < i < |events| ==> events[i - 1].id < events[i].id)
    && (forall x :: x in events <==>
          (x in env.batch && x.id >= e.id)
          || (env.latest == Some(x) && x.id > e.id && forall y :: y in env.batch && y.id >= e.id ==> x.id > y.id))
  }

  predicate Rising(events: seq<Event>) {
    forall i :: 0 < i < |events| ==> events[i - 1].id < events[i].id
  }

  lemma OneBefore(e: Event, rest: seq<Event>)
    requires Rising(rest) && forall x :: x in rest ==> x.id > e.id
    ensures Rising([e] + rest) && forall x :: x in [e] + rest <==> x == e || x in rest
  {
    var all := [e] + rest;
    forall i | 0 < i < |all| ensures all[i - 1].id < all[i].id {
      assert all[i] == rest[i - 1] && (i > 1 ==> all[i - 1] == rest[i - 2]);
    }
  }

  lemma {:induction false} IdsFromExactly(events: seq<Event>, id: int)
    requires Rising(events)
    ensures Rising(IdsFrom(events, id)) && forall x :: x in IdsFrom(events, id) <==> x in events && x.id >= id
    decreases |events|
  {
    hide Rising;
    if events == [] {
      NothingRises();
    } else {
      var e, rest := events[0], IdsFrom(events[1..], id);
      RisingTail(events);
      IdsFromExactly(events[1..], id);
      assert forall x :: x in events <==> x == e || x in events[1..];
      OneBefore(e, rest);
      assert [] + rest == rest;
    }
  }

  lemma NothingRises()
    ensures Rising([])
  {
  }

  lemma RisingTail(events: seq<Event>)
    requires Rising(events) && events != []
    ensures Rising(events[1..]) && forall x :: x in events[1..] ==> x.id > events[0].id
    decreases |events|
  {
    if |events| > 1 {
      assert Rising(events[1..]);
      RisingTail(events[1..]);
      assert forall x :: x in events[1..] <==> x == events[1] || x in events[1..][1..];
    }
  }

  lemma RisingLast(events: seq<Event>)
    requires Rising(events) && events != []
    ensures forall x :: x in events ==> x.id <= events[|events| - 1].id
    decreases |events|
  {
    RisingTail(events);
    if |events| > 1 {
      RisingLast(events[1..]);
      assert events[1..][|events| - 2] in events[1..];
    }
  }

  /** The look-ahead happens only where it is asked for and the stream changed, and then finds the first tick that closes. */
  lemma LookAheadExactly(live: Live, e: Event, env: Env) returns (events: seq<Event>)
    requires Rising(env.batch) && e in env.batch
    ensures Scans(e, env, events)
    ensures var found := LookAhead(live, e, env);
            if !env.protectFirst || live.stream == Some(e.stream) then found.None?
            else if found.None? then forall x :: x in events ==> !Closes(live.now.position, live.through, x)
            else exists i: nat :: FirstToClose(live.now.position, live.through, events, i) && found.value.event == events[i]
                                  && ClosesWith(live.now.position, events[i], found.value.settlement, env.cfg)
  {
    hide FirstExit, Closes, ClosesWith, FirstToClose, IdsFrom;
    events := Candidates(e, env);
    IdsFromExactly(env.batch, e.id);
    var ahead := IdsFrom(env.batch, e.id);
    assert e in ahead;
    RisingLast(ahead);
    assert ahead[|ahead| - 1] in ahead;
    FirstExitExactly(live.now.position, live.through, events, env.cfg);
  }

  // ---------------------------------------------------------------- what a checkpoint notes

  /** The checkpoint of a tick before the opening: the state as it is, named after this tick and, without one yet, its stream. */
  predicate HeldBack(l: Loop, e: Event, cp: Checkpoint) {
    && cp.now == l.live.now && cp.event == e && cp.through == l.live.through && cp.mark == l.live.mark && cp.signalAt == l.live.signalAt
    && cp.stream == (if l.live.stream.None? then e.stream else l.live.stream.value)
    && cp.settlement.None? && cp.signalExit.None? && cp.recovered == l.recovered && cp.recovery == l.recovery && !cp.historyIncomplete
  }

  /** The checkpoint of the look-ahead: closed at the levels confirmed before the gap, at the tick found, and its history incomplete. */
  predicate ProtectedAhead(l: Loop, found: Found, cp: Checkpoint) {
    var e := found.event;
    && cp.now == l.live.now && cp.event == e && cp.through == e.observedAt && cp.stream == e.stream && cp.mark == e.price
    && cp.settlement == Some(found.settlement) && cp.signalAt == l.live.signalAt && cp.signalExit.None?
    && cp.recovered && cp.historyIncomplete && cp.recovery.Some?
    && cp.recovery.value.reason == (if l.live.stream.Some? then StreamChange else UnconfirmedStream)
    && cp.recovery.value.evidence.fromAt == l.live.through && cp.recovery.value.evidence.toAt == e.observedAt
    && cp.recovery.value.evidence.source == JournalProtection && cp.recovery.value.evidence.quality == IncompleteHistory
    && cp.recovery.value.evidence.ambiguity == Some(UnreconstructedGap)
  }

  /** The checkpoint of a tick taken, and the last gap of the run so far. */
  predicate Taken(l: Loop, e: Event, s: Step, cp: Checkpoint)
    requires s.Stepped?
  {
    && cp.now == s.live.now && cp.event == e && cp.through == s.live.through && cp.stream == e.stream && cp.mark == e.price
    && cp.settlement == s.settlement && cp.signalAt == s.live.signalAt && cp.signalExit == s.signal && !cp.historyIncomplete
    && cp.recovery == (if s.gap.None? then l.recovery else s.gap) && (cp.recovered <==> l.recovered || s.gap.Some?)
  }

  /** History or candles must be waited for: the stream changes, or candles are needed for the first time. */
  predicate MustWait(l: Loop, e: Event, env: Env) {
    var b, ms, at := l.live.now.position.basis, env.cfg.intervalMs, QuoteAt(l.live, e);
    || l.live.stream != Some(e.stream)
    || (!l.loaded && env.signals.Some? && LeftToSignals(l.live, e)
        && at / ms * ms > (if l.live.signalAt.Some? then l.live.signalAt.value + ms else b.openedAt / ms * ms))
  }

  /** The loop after a tick that leaves the position open. */
  predicate GoesOn(l: Loop, e: Event, s: Step, next: Loop)
    requires s.Stepped?
  {
    && next.live == s.live && next.pending.Some? && Taken(l, e, s, next.pending.value)
    && next.recovered == next.pending.value.recovered && next.recovery == next.pending.value.recovery
    && (next.loaded <==> l.loaded || s.consulted)
  }

  /**
   One turn of the loop. Before the opening a checkpoint is only held back. A look-ahead that finds an exit ends the loop
   there. The checkpoint held back is offered before anything is waited for, and a refusal ends the loop; otherwise the
   next tick replaces it. A failure offers nothing more; an exit offers its own checkpoint and ends the loop.
   */
  lemma TurnExactly(l: Loop, events: seq<Event>, env: Env, accept: nat -> bool, count: nat)
    requires events != []
    ensures var e, rest, run := events[0], events[1..], Process(l, events, env, accept, count);
            if e.observedAt < l.live.now.position.basis.openedAt then
              exists cp :: HeldBack(l, e, cp) && run == Process(l.(pending := Some(cp)), rest, env, accept, count)
            else if LookAhead(l.live, e, env).Some? then
              exists cp :: ProtectedAhead(l, LookAhead(l.live, e, env).value, cp) && run == Run([cp], Finished)
            else
              var first := if l.pending.Some? && MustWait(l, e, env) then [l.pending.value] else [];
              if first != [] && !accept(count) then run == Run(first, Refused)
              else
                var s := StepOn(l.live, e, env);
                if s.RecoveryFailed? then run == Run(first, RecoveryMissing)
                else if s.SignalFailed? then run == Run(first, SignalRejected)
                else if s.settlement.Some? then exists cp :: Taken(l, e, s, cp) && run == Run(first + [cp], Finished)
                else exists next ::
                       GoesOn(l, e, s, next)
                       && var later := Process(next, rest, env, accept, count + |first|); run == Run(first + later.offered, later.outcome)
  {
    hide StepOn, LookAhead, Touched, Settle;
    var e := events[0];
    assert FlushIsWait(l, e, env);
    if PreOpen(l.live, e) {
      assert HeldBack(l, e, PreOpenCheckpoint(l, e));
    } else if LookAhead(l.live, e, env).Some? {
      assert ProtectedAhead(l, LookAhead(l.live, e, env).value, LookAheadCheckpoint(l, LookAhead(l.live, e, env).value));
    } else if StepOn(l.live, e, env).Stepped? {
      var s := StepOn(l.live, e, env);
      assert Taken(l, e, s, TickCheckpoint(l, e, s));
      assert GoesOn(l, e, s, AfterStep(l, e, s));
    }
  }

  predicate FlushIsWait(l: Loop, e: Event, env: Env) {
    MustFlush(l, e, env) <==> l.pending.Some? && MustWait(l, e, env)
  }

  /** At the end of the batch the checkpoint held back is offered. */
  lemma EndExactly(l: Loop, env: Env, accept: nat -> bool, count: nat)
    ensures Process(l, [], env, accept, count) == Run(if l.pending.Some? then [l.pending.value] else [], Finished)
  {
  }

  /** A run begins with no gap, no checkpoint and no candles. */
  lemma BeginsExactly(live: Live)
    ensures Fresh(live).live == live && Fresh(live).pending.None? && Fresh(live).recovery.None? && !Fresh(live).recovered && !Fresh(live).loaded
  {
  }
}
