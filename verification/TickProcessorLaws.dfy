/** The loop against the plain fold of single ticks: what is offered, in which order, and how batches compose. */
module TickProcessorLaws {
  import opened Common
  import opened Engine
  import opened EngineLaws
  import opened Recovery
  import opened TickProcessor

  /** How far a plain run of single ticks gets: `count` ticks taken, ending open, settled or stopped. */
  datatype Progress = Progress(count: nat, live: Live, settlement: Option<Settlement>, stopped: Option<Outcome>)

  function Fold(live: Live, events: seq<Event>, env: Env): Progress
    decreases |events|
  {
    if events == [] then Progress(0, live, None, None)
    else if PreOpen(live, events[0]) then
      var rest := Fold(live, events[1..], env);
      rest.(count := rest.count + 1)
    else
      match StepOn(live, events[0], env)
      case RecoveryFailed => Progress(0, live, None, Some(RecoveryMissing))
      case SignalFailed => Progress(0, live, None, Some(SignalRejected))
      case Stepped(next, settlement, _, _, _) =>
        if settlement.Some? then Progress(1, next, settlement, None)
        else
          var rest := Fold(next, events[1..], env);
          rest.(count := rest.count + 1)
  }

  predicate Ran(live: Live, events: seq<Event>, env: Env, end: Live) {
    Fold(live, events, env) == Progress(|events|, end, None, None)
  }

  /** The checkpoint records exactly this state, after this tick. */
  predicate Records(cp: Checkpoint, live: Live, settlement: Option<Settlement>, e: Event) {
    && cp.now == live.now && cp.through == live.through && cp.mark == live.mark && cp.signalAt == live.signalAt
    && cp.settlement == settlement && cp.event == e
    && cp.stream == if live.stream.Some? then live.stream.value else e.stream
  }

  ghost predicate AcceptsAll(accept: nat -> bool) {
    forall n :: accept(n)
  }

  /** Every recovery the loop can ask for keeps the basis and never loosens a level. */
  ghost predicate SafeRecover(env: Env) {
    forall now, since, e, anchor ::
      env.recover(now, since, e, anchor).Done? ==> Tighter(env.recover(now, since, e, anchor).value.now.position, now.position)
  }

  // ---------------------------------------------------------------- the fold

  lemma {:induction false} FoldAppend(live: Live, a: seq<Event>, b: seq<Event>, env: Env, mid: Live)
    requires Ran(live, a, env, mid)
    ensures var f := Fold(mid, b, env);
            Fold(live, a + b, env) == f.(count := f.count + |a|)
    decreases |a|
  {
    hide StepOn, PreOpen;
    if a == [] {
      assert a + b == b;
    } else {
      assert (a + b)[1..] == a[1..] + b && (a + b)[0] == a[0];
      if PreOpen(live, a[0]) {
        FoldAppend(live, a[1..], b, env, mid);
      } else {
        FoldAppend(StepOn(live, a[0], env).live, a[1..], b, env, mid);
      }
    }
  }

  lemma StepIsMonotone(live: Live, e: Event, env: Env)
    requires SafeRecover(env) && StepOn(live, e, env).Stepped?
    ensures var s := StepOn(live, e, env);
            s.live.through >= live.through && Tighter(s.live.now.position, live.now.position)
  {
    hide Advance, PriceExit, HoldingExit, Settle, ScanSignals;
    var start := live;
    if StreamChanged(live, e) {
      var r := env.recover(live.now, live.through, e.(observedAt := QuoteAt(live, e)), live.anchor);
      start := live.(now := r.value.now);
    }
    AdvanceTightens(start.now, e.price, e.observedAt, env.cfg, env.policy);
    TighterTransitive(Advance(start.now, e.price, e.observedAt, env.cfg, env.policy).position, start.now.position, live.now.position);
  }

  // ---------------------------------------------------------------- what a checkpoint is

  /** The held-back checkpoint is the state the loop is in. */
  predicate PendingIsCurrent(l: Loop, done: seq<Event>) {
    l.pending.Some? ==> done != [] && !l.pending.value.historyIncomplete && Records(l.pending.value, l.live, None, done[|done| - 1])
  }

  ghost predicate IsFoldOf(cp: Checkpoint, start: Live, events: seq<Event>, env: Env) {
    exists n | 0 < n <= |events| ::
      var f := Fold(start, events[..n], env);
      f.count == n && Records(cp, f.live, f.settlement, events[n - 1])
  }

  lemma FoldWitness(cp: Checkpoint, start: Live, events: seq<Event>, env: Env, n: nat, live: Live, settlement: Option<Settlement>)
    requires 0 < n <= |events|
    requires Fold(start, events[..n], env) == Progress(n, live, settlement, None)
    requires Records(cp, live, settlement, events[n - 1])
    ensures IsFoldOf(cp, start, events, env)
  {
  }

  lemma OneMore(start: Live, done: seq<Event>, e: Event, env: Env, live: Live)
    requires Ran(start, done, env, live)
    ensures PreOpen(live, e) ==> Ran(start, done + [e], env, live)
    ensures !PreOpen(live, e) && StepOn(live, e, env).Stepped? ==>
              Fold(start, done + [e], env) == Progress(|done| + 1, StepOn(live, e, env).live, StepOn(live, e, env).settlement, None)
  {
    hide StepOn, PreOpen;
    FoldAppend(start, done, [e], env, live);
    if !PreOpen(live, e) && StepOn(live, e, env).Stepped? {
      assert Fold(StepOn(live, e, env).live, [], env).count == 0;
    }
  }

  lemma PendingIsFold(start: Live, done: seq<Event>, l: Loop, events: seq<Event>, env: Env)
    requires Ran(start, done, env, l.live) && PendingIsCurrent(l, done)
    ensures forall cp :: cp in Emit(l.pending) ==> IsFoldOf(cp, start, done + events, env)
  {
    if l.pending.Some? {
      assert (done + events)[..|done|] == done;
      FoldWitness(l.pending.value, start, done + events, env, |done|, l.live, None);
    }
  }

  lemma PreOpenIsCurrent(start: Live, done: seq<Event>, l: Loop, e: Event, env: Env)
    requires Ran(start, done, env, l.live) && PendingIsCurrent(l, done) && PreOpen(l.live, e)
    ensures Ran(start, done + [e], env, l.live) && PendingIsCurrent(l.(pending := Some(PreOpenCheckpoint(l, e))), done + [e])
  {
    hide PreOpen;
    OneMore(start, done, e, env, l.live);
  }

  lemma TickIsFold(start: Live, done: seq<Event>, l: Loop, events: seq<Event>, env: Env)
    requires Ran(start, done, env, l.live) && events != [] && !PreOpen(l.live, events[0]) && StepOn(l.live, events[0], env).Stepped?
    ensures var e, s := events[0], StepOn(l.live, events[0], env);
            && IsFoldOf(TickCheckpoint(l, e, s), start, done + events, env)
            && (s.settlement.None? ==> Ran(start, done + [e], env, s.live) && PendingIsCurrent(AfterStep(l, e, s), done + [e]))
  {
    hide StepOn, PreOpen;
    var e, all, more := events[0], done + events, done + [events[0]];
    var s := StepOn(l.live, e, env);
    assert all[..|more|] == more;
    OneMore(start, done, e, env, l.live);
    StreamAfterStep(l.live, e, env);
    FoldWitness(TickCheckpoint(l, e, s), start, all, env, |more|, s.live, s.settlement);
  }

  /** Every checkpoint offered outside the look-ahead is the fold of some prefix of the ticks. */
  lemma {:induction false} OfferedAreFolds(start: Live, done: seq<Event>, l: Loop, events: seq<Event>, env: Env, accept: nat -> bool, count: nat)
    requires Ran(start, done, env, l.live) && PendingIsCurrent(l, done)
    ensures forall cp :: cp in Process(l, events, env, accept, count).offered && !cp.historyIncomplete ==>
              IsFoldOf(cp, start, done + events, env)
    decreases |events|
  {
    hide StepOn, PreOpen, LookAhead, MustFlush, IsFoldOf, Fold, PendingIsCurrent, PreOpenCheckpoint, TickCheckpoint;
    PendingIsFold(start, done, l, events, env);
    if events != [] {
      var e := events[0];
      assert (done + [e]) + events[1..] == done + events;
      if PreOpen(l.live, e) {
        PreOpenIsCurrent(start, done, l, e, env);
        OfferedAreFolds(start, done + [e], l.(pending := Some(PreOpenCheckpoint(l, e))), events[1..], env, accept, count);
      } else if StepOn(l.live, e, env).Stepped? {
        var s := StepOn(l.live, e, env);
        TickIsFold(start, done, l, events, env);
        if s.settlement.None? {
          var flushed := if MustFlush(l, e, env) then Emit(l.pending) else [];
          OfferedAreFolds(start, done + [e], AfterStep(l, e, s), events[1..], env, accept, count + |flushed|);
        }
      }
    }
  }

  lemma StreamAfterStep(live: Live, e: Event, env: Env)
    requires StepOn(live, e, env).Stepped?
    ensures StepOn(live, e, env).live.stream == Some(e.stream)
    ensures StepOn(live, e, env).live.anchor == Some(e.id) && StepOn(live, e, env).live.mark == e.price
  {
    hide Advance, PriceExit, HoldingExit, Settle, ScanSignals;
  }

  // ---------------------------------------------------------------- order, refusals and settlements

  /** From one position and clock to the next: never back, never looser. */
  predicate OnlyTightens(p: Position, through: int, offered: seq<Checkpoint>)
    decreases |offered|
  {
    offered != [] ==>
      && offered[0].through >= through && Tighter(offered[0].now.position, p)
      && OnlyTightens(offered[0].now.position, offered[0].through, offered[1..])
  }

  lemma TightensFrom(p: Position, through: int, q: Position, later: int, offered: seq<Checkpoint>)
    requires Tighter(q, p) && later >= through && OnlyTightens(q, later, offered)
    ensures OnlyTightens(p, through, offered)
  {
    if offered != [] { TighterTransitive(offered[0].now.position, q, p); }
  }

  lemma {:induction false} TightensPairwise(p: Position, through: int, offered: seq<Checkpoint>, i: nat, j: nat)
    requires OnlyTightens(p, through, offered) && i <= j < |offered|
    ensures offered[j].through >= offered[i].through && Tighter(offered[j].now.position, offered[i].now.position)
    decreases |offered|
  {
    if i > 0 {
      TightensPairwise(offered[0].now.position, offered[0].through, offered[1..], i - 1, j - 1);
    } else if j > 0 {
      TightensPairwise(offered[0].now.position, offered[0].through, offered[1..], 0, j - 1);
      var first := offered[0];
      assert Tighter(offered[1].now.position, first.now.position);
      TighterTransitive(offered[j].now.position, offered[1].now.position, first.now.position);
    }
  }

  /** The clock never runs back and no level weakens, from the start state through every checkpoint. */
  lemma PendingTightens(l: Loop)
    requires l.pending.Some? ==> l.pending.value.now == l.live.now && l.pending.value.through == l.live.through
    ensures OnlyTightens(l.live.now.position, l.live.through, [])
    ensures OnlyTightens(l.live.now.position, l.live.through, Emit(l.pending))
  {
    if l.pending.Some? { assert Emit(l.pending)[1..] == []; }
  }

  lemma LookAheadTightens(l: Loop, e: Event, env: Env)
    ensures var found := LookAhead(l.live, e, env);
            found.Some? ==> OnlyTightens(l.live.now.position, l.live.through, [LookAheadCheckpoint(l, found.value)])
  {
    hide FirstExit, Candidates;
    var found := LookAhead(l.live, e, env);
    if found.Some? {
      FoundIsAhead(l.live.now.position, l.live.through, Candidates(e, env), env.cfg);
      assert [LookAheadCheckpoint(l, found.value)][1..] == [];
    }
  }

  lemma {:induction false} OfferedOnlyTighten(l: Loop, events: seq<Event>, env: Env, accept: nat -> bool, count: nat)
    requires SafeRecover(env)
    requires l.pending.Some? ==> l.pending.value.now == l.live.now && l.pending.value.through == l.live.through
    ensures OnlyTightens(l.live.now.position, l.live.through, Process(l, events, env, accept, count).offered)
    decreases |events|
  {
    hide StepOn, PreOpen, MustFlush, LookAhead, LookAheadCheckpoint, SafeRecover, Tighter, OnlyTightens;
    var p, through := l.live.now.position, l.live.through;
    PendingTightens(l);
    if events != [] {
      var e := events[0];
      if PreOpen(l.live, e) {
        OfferedOnlyTighten(l.(pending := Some(PreOpenCheckpoint(l, e))), events[1..], env, accept, count);
      } else if LookAhead(l.live, e, env).Some? {
        LookAheadTightens(l, e, env);
      } else if StepOn(l.live, e, env).Stepped? {
        var s := StepOn(l.live, e, env);
        var flushed := if MustFlush(l, e, env) then Emit(l.pending) else [];
        StepIsMonotone(l.live, e, env);
        if s.settlement.None? {
          var rest := Process(AfterStep(l, e, s), events[1..], env, accept, count + |flushed|).offered;
          OfferedOnlyTighten(AfterStep(l, e, s), events[1..], env, accept, count + |flushed|);
          TightensFrom(p, through, s.live.now.position, s.live.through, rest);
          TightensAfterFlush(l, flushed, rest);
        } else {
          TightensAfterFlush(l, flushed, [TickCheckpoint(l, e, s)]);
        }
      }
    }
  }

  lemma TightensAfterFlush(l: Loop, flushed: seq<Checkpoint>, rest: seq<Checkpoint>)
    requires flushed == [] || flushed == Emit(l.pending)
    requires l.pending.Some? ==> l.pending.value.now == l.live.now && l.pending.value.through == l.live.through
    requires OnlyTightens(l.live.now.position, l.live.through, rest)
      || (|rest| == 1 && rest[0].through >= l.live.through && Tighter(rest[0].now.position, l.live.now.position))
    ensures OnlyTightens(l.live.now.position, l.live.through, flushed + rest)
  {
    if |rest| == 1 { assert rest[1..] == []; }
    if flushed == [] { assert flushed + rest == rest; } else { assert (flushed + rest)[1..] == rest; }
  }

  lemma {:induction false} FoundIsAhead(p: Position, through: int, events: seq<Event>, cfg: Config)
    ensures var found := FirstExit(p, through, events, cfg);
            found.Some? ==> found.value.event in events && found.value.event.observedAt >= through
    decreases |events|
  {
    hide TickExit;
    if events != [] { FoundIsAhead(p, through, events[1..], cfg); }
  }

  /** A held-back checkpoint is never silently dropped outside the look-ahead and a rejected signal. */
  lemma {:induction false} PendingComesOut(l: Loop, events: seq<Event>, env: Env, accept: nat -> bool, count: nat)
    ensures var run := Process(l, events, env, accept, count);
            l.pending.Some? && run.outcome != SignalRejected ==> run.offered != []
    decreases |events|
  {
    hide StepOn, PreOpen, LookAhead;
    if events != [] {
      var e := events[0];
      if PreOpen(l.live, e) {
        PendingComesOut(l.(pending := Some(PreOpenCheckpoint(l, e))), events[1..], env, accept, count);
      } else if StepOn(l.live, e, env).Stepped? && StepOn(l.live, e, env).settlement.None? {
        var flushed := if MustFlush(l, e, env) then Emit(l.pending) else [];
        PendingComesOut(AfterStep(l, e, StepOn(l.live, e, env)), events[1..], env, accept, count + |flushed|);
      } else if StepOn(l.live, e, env).RecoveryFailed? {
        OnlyGapsFail(l.live, e, env);
      }
    }
  }

  /** Every checkpoint but the last was accepted and settles nothing; a refusal ends the loop, a failure closes nothing. */
  predicate InOrder(run: Run, accept: nat -> bool, count: nat)
    decreases |run.offered|
  {
    if run.offered == [] then run.outcome != Refused
    else
      && (run.outcome != Finished ==> run.offered[0].settlement.None?)
      && (|run.offered| == 1 ==> (run.outcome == Refused ==> !accept(count)))
      && (|run.offered| > 1 ==>
            accept(count) && run.offered[0].settlement.None? && InOrder(Run(run.offered[1..], run.outcome), accept, count + 1))
  }

  lemma {:induction false} OfferedInOrder(l: Loop, events: seq<Event>, env: Env, accept: nat -> bool, count: nat)
    requires l.pending.Some? ==> l.pending.value.settlement.None?
    ensures InOrder(Process(l, events, env, accept, count), accept, count)
    decreases |events|
  {
    hide StepOn, PreOpen, MustFlush, LookAhead;
    if events != [] {
      var e := events[0];
      if PreOpen(l.live, e) {
        OfferedInOrder(l.(pending := Some(PreOpenCheckpoint(l, e))), events[1..], env, accept, count);
      } else if LookAhead(l.live, e, env).None? && StepOn(l.live, e, env).Stepped? {
        var s := StepOn(l.live, e, env);
        var flushed := if MustFlush(l, e, env) then Emit(l.pending) else [];
        var rest := if s.settlement.Some? then Run([TickCheckpoint(l, e, s)], Finished)
                    else Process(AfterStep(l, e, s), events[1..], env, accept, count + |flushed|);
        if s.settlement.None? {
          OfferedInOrder(AfterStep(l, e, s), events[1..], env, accept, count + |flushed|);
          PendingComesOut(AfterStep(l, e, s), events[1..], env, accept, count + |flushed|);
        }
        assert flushed != [] ==> (flushed + rest.offered)[1..] == rest.offered;
        assert flushed == [] ==> flushed + rest.offered == rest.offered;
      }
    }
  }

  lemma OnlyGapsFail(live: Live, e: Event, env: Env)
    requires StepOn(live, e, env).RecoveryFailed?
    ensures StreamChanged(live, e)
  {
    hide Advance, PriceExit, HoldingExit, Settle, ScanSignals;
  }
}
