/** Where a batch ends does not matter: processing two batches is processing their concatenation. */
module BatchLaws {
  import opened Common
  import opened Engine
  import opened Recovery
  import opened TickProcessor
  import opened TickProcessorLaws

  /** The look-ahead closes nothing at any gap the run meets. */
  predicate QuietAhead(live: Live, events: seq<Event>, env: Env)
    decreases |events|
  {
    events != [] ==>
      if PreOpen(live, events[0]) then QuietAhead(live, events[1..], env)
      else
        && LookAhead(live, events[0], env).None?
        && var s := StepOn(live, events[0], env);
           (s.Stepped? && s.settlement.None? ==> QuietAhead(s.live, events[1..], env))
  }

  /** The signal candles are the position's own, closed on the interval, and available no earlier than they close. */
  predicate SignalsWellFormed(env: Env, b: Basis) {
    env.signals.Some? ==>
      forall s :: s in env.signals.value ==>
        s.symbol == b.symbol && s.closedAt == s.openTime + env.cfg.intervalMs && s.availableAt >= s.closedAt
  }

  lemma LastClosedIsClosed(at: int, intervalMs: int)
    requires intervalMs > 0
    ensures LastClosed(at, intervalMs) + intervalMs <= at
  {
    assert at == at / intervalMs * intervalMs + at % intervalMs;
  }

  lemma {:induction false} ScanNeverFails(signals: seq<Signal>, baseline: int, lastClosed: int, e: Event, at: int, b: Basis, cfg: Config, signalAt: Option<int>)
    requires forall s :: s in signals ==> s.symbol == b.symbol && s.closedAt == s.openTime + cfg.intervalMs && s.availableAt >= s.closedAt
    requires lastClosed + cfg.intervalMs <= at
    ensures ScanSignals(signals, baseline, lastClosed, e, at, b, cfg, signalAt).Scanned?
    decreases |signals|
  {
    if signals != [] {
      assert signals[0] in signals;
      forall s | s in signals[1..] ensures s in signals { }
      ScanNeverFails(signals[1..], baseline, lastClosed, e, at, b, cfg, signalAt);
      ScanNeverFails(signals[1..], baseline, lastClosed, e, at, b, cfg, Some(signals[0].openTime));
    }
  }

  lemma StepNeverRejectsSignals(live: Live, e: Event, env: Env)
    requires SignalsWellFormed(env, live.now.position.basis) && SafeRecover(env)
    ensures !StepOn(live, e, env).SignalFailed?
  {
    hide Advance, PriceExit, HoldingExit, Settle, ScanSignals, LastClosed;
    var at, b := QuoteAt(live, e), live.now.position.basis;
    LastClosedIsClosed(at, env.cfg.intervalMs);
    if env.signals.Some? {
      ScanNeverFails(env.signals.value, Baseline(live.signalAt, b, env.cfg), LastClosed(at, env.cfg.intervalMs), e, at, b, env.cfg, live.signalAt);
    }
  }

  function Last<T>(s: seq<T>): T
    requires s != []
  {
    s[|s| - 1]
  }

  /** The run records where the fold ends. */
  predicate EndsAsFold(run: Run, f: Progress, pending: Option<Checkpoint>, events: seq<Event>) {
    && run.outcome == (if f.stopped.Some? then f.stopped.value else Finished)
    && f.count <= |events|
    && (f.count == 0 ==> run.offered == Emit(pending))
    && (f.count > 0 ==> run.offered != [] && Records(Last(run.offered), f.live, f.settlement, events[f.count - 1]))
  }

  /** One tick is taken, and the rest of the run is known. */
  lemma FinalAfterStep(l: Loop, events: seq<Event>, env: Env, accept: nat -> bool, count: nat)
    requires events != [] && !PreOpen(l.live, events[0]) && LookAhead(l.live, events[0], env).None? && AcceptsAll(accept)
    requires var s := StepOn(l.live, events[0], env);
             && s.Stepped? && s.settlement.None?
             && var flushed := if MustFlush(l, events[0], env) then Emit(l.pending) else [];
                EndsAsFold(Process(AfterStep(l, events[0], s), events[1..], env, accept, count + |flushed|),
                           Fold(s.live, events[1..], env), AfterStep(l, events[0], s).pending, events[1..])
    ensures EndsAsFold(Process(l, events, env, accept, count), Fold(l.live, events, env), l.pending, events)
  {
    hide StepOn, PreOpen, LookAhead, FirstConsultation;
    var e, s := events[0], StepOn(l.live, events[0], env);
    StreamAfterStep(l.live, e, env);
    if Fold(s.live, events[1..], env).count == 0 { NoTicksTaken(s.live, events[1..], env); }
  }

  lemma FinalAfterPreOpen(l: Loop, events: seq<Event>, env: Env, accept: nat -> bool, count: nat)
    requires events != [] && PreOpen(l.live, events[0])
    requires var held := Some(PreOpenCheckpoint(l, events[0]));
             EndsAsFold(Process(l.(pending := held), events[1..], env, accept, count), Fold(l.live, events[1..], env), held, events[1..])
    ensures EndsAsFold(Process(l, events, env, accept, count), Fold(l.live, events, env), l.pending, events)
  {
    hide StepOn, PreOpen;
    if Fold(l.live, events[1..], env).count == 0 { NoTicksTaken(l.live, events[1..], env); }
  }

  /** The last tick taken settles, or asks for a recovery that is missing. */
  lemma FinalAtEnd(l: Loop, events: seq<Event>, env: Env, accept: nat -> bool, count: nat)
    requires events != [] && !PreOpen(l.live, events[0]) && LookAhead(l.live, events[0], env).None? && AcceptsAll(accept)
    requires var s := StepOn(l.live, events[0], env); s.RecoveryFailed? || (s.Stepped? && s.settlement.Some?)
    ensures EndsAsFold(Process(l, events, env, accept, count), Fold(l.live, events, env), l.pending, events)
  {
    hide StepOn, PreOpen, LookAhead, FirstConsultation;
    if StepOn(l.live, events[0], env).Stepped? { StreamAfterStep(l.live, events[0], env); }
    else { OnlyGapsFail(l.live, events[0], env); }
  }

  lemma NoTicksTaken(live: Live, events: seq<Event>, env: Env)
    requires Fold(live, events, env).count == 0
    ensures Fold(live, events, env).live == live && Fold(live, events, env).settlement.None?
  {
    hide StepOn;
  }

  lemma FinalOfNothing(l: Loop, env: Env, accept: nat -> bool, count: nat)
    ensures EndsAsFold(Process(l, [], env, accept, count), Fold(l.live, [], env), l.pending, [])
  {
  }

  lemma {:induction false} FinalIsFold(l: Loop, events: seq<Event>, env: Env, accept: nat -> bool, count: nat)
    requires AcceptsAll(accept) && SafeRecover(env) && SignalsWellFormed(env, l.live.now.position.basis)
    requires QuietAhead(l.live, events, env)
    ensures EndsAsFold(Process(l, events, env, accept, count), Fold(l.live, events, env), l.pending, events)
    decreases |events|
  {
    hide EndsAsFold, Process, Fold, StepOn, PreOpen, LookAhead, MustFlush, SafeRecover, SignalsWellFormed;
    if events == [] {
      FinalOfNothing(l, env, accept, count);
    } else {
      var e := events[0];
      if PreOpen(l.live, e) {
        FinalIsFold(l.(pending := Some(PreOpenCheckpoint(l, e))), events[1..], env, accept, count);
        FinalAfterPreOpen(l, events, env, accept, count);
      } else {
        var s := StepOn(l.live, e, env);
        StepNeverRejectsSignals(l.live, e, env);
        if s.Stepped? && s.settlement.None? {
          StepIsMonotone(l.live, e, env);
          var flushed := if MustFlush(l, e, env) then Emit(l.pending) else [];
          FinalIsFold(AfterStep(l, e, s), events[1..], env, accept, count + |flushed|);
          FinalAfterStep(l, events, env, accept, count);
        } else {
          FinalAtEnd(l, events, env, accept, count);
        }
      }
    }
  }

  /** With every checkpoint accepted, the last one offered is where the plain fold ends. */
  lemma FinalCheckpoint(l: Loop, events: seq<Event>, env: Env, accept: nat -> bool, count: nat)
    requires AcceptsAll(accept) && SafeRecover(env) && SignalsWellFormed(env, l.live.now.position.basis)
    requires QuietAhead(l.live, events, env)
    ensures var run, f := Process(l, events, env, accept, count), Fold(l.live, events, env);
            && run.outcome == (if f.stopped.Some? then f.stopped.value else Finished)
            && f.count <= |events|
            && (f.count == 0 ==> run.offered == Emit(l.pending))
            && (f.count > 0 ==> run.offered != [] && Records(Last(run.offered), f.live, f.settlement, events[f.count - 1]))
  {
    hide Process, Fold, SafeRecover, SignalsWellFormed, QuietAhead;
    FinalIsFold(l, events, env, accept, count);
  }

  // ---------------------------------------------------------------- resuming from a checkpoint

  function Resume(cp: Checkpoint): Live {
    Live(cp.now, cp.through, Some(cp.stream), cp.mark, Some(cp.event.id), cp.signalAt)
  }

  predicate SameState(c: Checkpoint, d: Checkpoint) {
    && c.now == d.now && c.through == d.through && c.stream == d.stream && c.mark == d.mark
    && c.signalAt == d.signalAt && c.settlement == d.settlement && c.event == d.event
  }

  /** The rules by which ticks are judged, without the look-ahead's own inputs. */
  ghost predicate SameRules(env: Env, env': Env) {
    env' == env.(protectFirst := env'.protectFirst, latest := env'.latest, batch := env'.batch)
  }

  lemma StepSameRules(live: Live, e: Event, env: Env, env': Env)
    requires SameRules(env, env')
    ensures StepOn(live, e, env) == StepOn(live, e, env')
  {
    hide Advance, PriceExit, HoldingExit, Settle, ScanSignals;
  }

  lemma {:induction false} FoldSameRules(live: Live, events: seq<Event>, env: Env, env': Env)
    requires SameRules(env, env')
    ensures Fold(live, events, env) == Fold(live, events, env')
    decreases |events|
  {
    hide StepOn, PreOpen;
    if events != [] {
      StepSameRules(live, events[0], env, env');
      if PreOpen(live, events[0]) { FoldSameRules(live, events[1..], env, env'); }
      else if StepOn(live, events[0], env).Stepped? { FoldSameRules(StepOn(live, events[0], env).live, events[1..], env, env'); }
    }
  }

  /** Recovery does not read the id of the last processed tick. */
  ghost predicate AnchorFree(env: Env) {
    forall now, since, e, x, y :: env.recover(now, since, e, x) == env.recover(now, since, e, y)
  }

  lemma TickAnchorFree(live: Live, anchor: Option<int>, e: Event, env: Env, gap: Option<GapNote>)
    ensures TakeTick(live.(anchor := anchor), e, env, gap) == TakeTick(live, e, env, gap)
  {
    hide Advance, PriceExit, HoldingExit, Settle, ScanSignals, LastClosed;
  }

  lemma StepAnchorFree(live: Live, anchor: Option<int>, e: Event, env: Env)
    requires AnchorFree(env)
    ensures StepOn(live.(anchor := anchor), e, env) == StepOn(live, e, env)
  {
    hide TakeTick;
    var at := e.(observedAt := QuoteAt(live, e));
    assert env.recover(live.now, live.through, at, anchor) == env.recover(live.now, live.through, at, live.anchor);
    TickAnchorFree(live, anchor, e, env, None);
    if StreamChanged(live, e) && env.recover(live.now, live.through, at, anchor).Done? {
      var r := env.recover(live.now, live.through, at, anchor).value;
      TickAnchorFree(live.(now := r.now), anchor, e, env, Some(GapNote(if live.stream.None? then UnconfirmedStream else StreamChange, r.evidence)));
    }
  }

  predicate SameUpToAnchor(f: Progress, g: Progress) {
    f == g.(live := g.live.(anchor := f.live.anchor))
  }

  /** Two steps fail alike, or end in the same state with the same settlement. */
  predicate SameJudgement(s: Step, t: Step) {
    if s.Stepped? then t.Stepped? && s.live == t.live && s.settlement == t.settlement else s == t
  }

  /** A checkpoint at the tick describes the state: it names its stream, and its id as the last one alters no judgement. */
  ghost predicate Described(mid: Live, e: Event, env: Env) {
    mid.stream.Some? && forall x :: !PreOpen(mid, x) ==> SameJudgement(StepOn(mid, x, env), StepOn(mid.(anchor := Some(e.id)), x, env))
  }

  lemma {:induction false} FoldDescribed(mid: Live, e: Event, events: seq<Event>, env: Env)
    requires Described(mid, e, env)
    ensures SameUpToAnchor(Fold(mid.(anchor := Some(e.id)), events, env), Fold(mid, events, env))
    decreases |events|
  {
    hide StepOn;
    if events != [] && PreOpen(mid, events[0]) { FoldDescribed(mid, e, events[1..], env); }
  }

  /** A batch that ends with a tick after the opening ends with its stream and its id. */
  lemma {:induction false} PostOpenIsNamed(live: Live, batch: seq<Event>, env: Env, mid: Live)
    requires batch != [] && Ran(live, batch, env, mid) && SafeRecover(env)
    requires !PreOpen(live, Last(batch))
    ensures mid.anchor == Some(Last(batch).id) && mid.stream == Some(Last(batch).stream)
    decreases |batch|
  {
    hide StepOn, SafeRecover;
    var e := batch[0];
    if |batch| == 1 {
      StreamAfterStep(live, e, env);
      assert Fold(StepOn(live, e, env).live, [], env).live == StepOn(live, e, env).live;
      assert batch[1..] == [];
    } else if PreOpen(live, e) {
      PostOpenIsNamed(live, batch[1..], env, mid);
    } else {
      StepIsMonotone(live, e, env);
      PostOpenIsNamed(StepOn(live, e, env).live, batch[1..], env, mid);
    }
  }

  /** The stream is confirmed before the batch, or by a tick of it: one after the opening. */
  ghost predicate Confirmed(live: Live, batch: seq<Event>) {
    live.stream.Some? || exists e :: e in batch && !PreOpen(live, e)
  }

  /** A stream is confirmed after a batch exactly in these cases. */
  lemma {:induction false} ConfirmedExactly(live: Live, batch: seq<Event>, env: Env, mid: Live)
    requires Ran(live, batch, env, mid) && SafeRecover(env)
    ensures mid.stream.Some? <==> Confirmed(live, batch)
    ensures mid.now.position.basis == live.now.position.basis
    decreases |batch|
  {
    hide StepOn, SafeRecover;
    if batch != [] {
      var e, rest := batch[0], batch[1..];
      assert e in batch && forall x :: x in batch <==> x == e || x in rest;
      if PreOpen(live, e) {
        ConfirmedExactly(live, rest, env, mid);
      } else {
        StreamAfterStep(live, e, env);
        StepIsMonotone(live, e, env);
        ConfirmedExactly(StepOn(live, e, env).live, rest, env, mid);
      }
    }
  }

  predicate Ended(f: Progress) { f.settlement.Some? || f.stopped.Some? }

  lemma {:induction false} SettledPrefix(live: Live, a: seq<Event>, b: seq<Event>, env: Env)
    requires Ended(Fold(live, a, env))
    ensures Fold(live, a + b, env) == Fold(live, a, env)
    decreases |a|
  {
    hide StepOn, PreOpen;
    assert a != [] && (a + b)[0] == a[0] && (a + b)[1..] == a[1..] + b;
    if PreOpen(live, a[0]) { SettledPrefix(live, a[1..], b, env); }
    else if StepOn(live, a[0], env).Stepped? && StepOn(live, a[0], env).settlement.None? {
      SettledPrefix(StepOn(live, a[0], env).live, a[1..], b, env);
    }
  }

  lemma {:induction false} OpenFoldRan(live: Live, a: seq<Event>, env: Env)
    requires !Ended(Fold(live, a, env))
    ensures Ran(live, a, env, Fold(live, a, env).live)
    decreases |a|
  {
    hide StepOn, PreOpen;
    if a != [] {
      if PreOpen(live, a[0]) { OpenFoldRan(live, a[1..], env); }
      else { OpenFoldRan(StepOn(live, a[0], env).live, a[1..], env); }
    }
  }

  /**
   The last checkpoint and the outcome are the same whether the ticks arrive in one batch or in two, the second resumed
   from the first one's last checkpoint.
   */
  ghost predicate SplitAgrees(live: Live, a: seq<Event>, b: seq<Event>, whole: Env, first: Env, second: Env, accept: nat -> bool) {
    var one := Process(Fresh(live), a, first, accept, 0).offered;
    one != [] &&
    (QuietAhead(Resume(Last(one)), b, second) ==>
       var all := Process(Fresh(live), a + b, whole, accept, 0);
       var two := Process(Fresh(Resume(Last(one))), b, second, accept, 0);
       && all.offered != []
       && if Ended(Fold(live, a, whole)) then SameState(Last(all.offered), Last(one))
          else all.outcome == two.outcome
               && SameState(Last(all.offered), if two.offered == [] then Last(one) else Last(two.offered)))
  }

  /** Batch-split invariance, for every first batch that its last checkpoint describes. */
  lemma BatchesCompose(live: Live, a: seq<Event>, b: seq<Event>, whole: Env, first: Env, second: Env, accept: nat -> bool)
    requires a != [] && AcceptsAll(accept) && SafeRecover(whole) && SignalsWellFormed(whole, live.now.position.basis)
    requires SameRules(whole, first) && SameRules(whole, second)
    requires QuietAhead(live, a + b, whole) && QuietAhead(live, a, first)
    requires !Ended(Fold(live, a, whole)) ==> Described(Fold(live, a, whole).live, Last(a), whole)
    requires Fold(live, a, whole).count > 0
    ensures SplitAgrees(live, a, b, whole, first, second, accept)
  {
    hide Fold, Process, QuietAhead, SafeRecover, SignalsWellFormed, Described;
    var fa := Fold(live, a, whole);
    RulesCarry(whole, first, live.now.position.basis);
    RulesCarry(whole, second, live.now.position.basis);
    FoldSameRules(live, a, whole, first);
    FinalCheckpoint(Fresh(live), a, first, accept, 0);
    FinalCheckpoint(Fresh(live), a + b, whole, accept, 0);
    var cp := Last(Process(Fresh(live), a, first, accept, 0).offered);
    if Ended(fa) {
      SettledPrefix(live, a, b, whole);
      assert (a + b)[fa.count - 1] == a[fa.count - 1];
    } else if QuietAhead(Resume(cp), b, second) {
      OpenFoldRan(live, a, whole);
      FoldAppend(live, a, b, whole, fa.live);
      FoldSameRules(Resume(cp), b, whole, second);
      FinalIsWithin(live, a, whole);
      FinalCheckpoint(Fresh(Resume(cp)), b, second, accept, 0);
      DescribedStream(fa.live, Last(a), whole);
      assert Resume(cp) == fa.live.(anchor := Some(Last(a).id));
      FoldDescribed(fa.live, Last(a), b, whole);
      var fb := Fold(fa.live, b, whole);
      if fb.count > 0 { assert (a + b)[fb.count + |a| - 1] == b[fb.count - 1]; }
      else { assert (a + b)[|a| - 1] == a[|a| - 1]; NoTicksTaken(fa.live, b, whole); }
    }
  }

  lemma DescribedStream(mid: Live, e: Event, env: Env)
    requires Described(mid, e, env)
    ensures mid.stream.Some?
  {
  }

  lemma RulesCarry(env: Env, env': Env, b: Basis)
    requires SameRules(env, env')
    ensures SafeRecover(env) ==> SafeRecover(env')
    ensures SignalsWellFormed(env, b) ==> SignalsWellFormed(env', b)
  {
  }

  /** The basis survives a run, so what was assumed of it still holds when the run is resumed. */
  lemma {:induction false} FinalIsWithin(live: Live, a: seq<Event>, env: Env)
    requires SafeRecover(env)
    ensures Fold(live, a, env).live.now.position.basis == live.now.position.basis
    decreases |a|
  {
    hide StepOn, SafeRecover;
    if a != [] {
      if PreOpen(live, a[0]) { FinalIsWithin(live, a[1..], env); }
      else if StepOn(live, a[0], env).Stepped? {
        StepIsMonotone(live, a[0], env);
        FinalIsWithin(StepOn(live, a[0], env).live, a[1..], env);
      }
    }
  }

  lemma {:induction false} QuietWhenOff(live: Live, events: seq<Event>, env: Env)
    requires !env.protectFirst
    ensures QuietAhead(live, events, env)
    decreases |events|
  {
    hide StepOn, PreOpen;
    if events != [] {
      if PreOpen(live, events[0]) { QuietWhenOff(live, events[1..], env); }
      else if StepOn(live, events[0], env).Stepped? { QuietWhenOff(StepOn(live, events[0], env).live, events[1..], env); }
    }
  }

  // ---------------------------------------------------------------- why the last tick must be resumable

  lemma {:induction false} PreOpenTicksChangeNothing(live: Live, a: seq<Event>, env: Env)
    requires forall e :: e in a ==> PreOpen(live, e)
    ensures Ran(live, a, env, live)
    decreases |a|
  {
    hide StepOn;
    if a != [] {
      assert a[0] in a;
      PreOpenTicksChangeNothing(live, a[1..], env);
    }
  }

  lemma FoldOne(live: Live, x: Event, env: Env)
    ensures PreOpen(live, x) ==> Fold(live, [x], env) == Progress(1, live, None, None)
    ensures !PreOpen(live, x) ==> match StepOn(live, x, env) {
              case RecoveryFailed => Fold(live, [x], env) == Progress(0, live, None, Some(RecoveryMissing))
              case SignalFailed => Fold(live, [x], env) == Progress(0, live, None, Some(SignalRejected))
              case Stepped(next, settlement, _, _, _) => Fold(live, [x], env) == Progress(1, next, settlement, None)
            }
  {
    hide StepOn, PreOpen;
    assert [x][1..] == [];
    assert forall l: Live :: Fold(l, [x][1..], env) == Progress(0, l, None, None);
  }

  /** One more tick after the cut, in one run and in two. */
  lemma OneTickLater(live: Live, a: seq<Event>, mid: Live, x: Event, env: Env, accept: nat -> bool)
    requires a != [] && Ran(live, a, env, mid)
    requires AcceptsAll(accept) && !env.protectFirst && SafeRecover(env) && SignalsWellFormed(env, live.now.position.basis)
    ensures var one := Process(Fresh(live), a, env, accept, 0).offered;
            one != [] && Records(Last(one), mid, None, Last(a)) &&
            var all, two := Process(Fresh(live), a + [x], env, accept, 0), Process(Fresh(Resume(Last(one))), [x], env, accept, 0);
            var f, g := Fold(mid, [x], env), Fold(Resume(Last(one)), [x], env);
            && all.outcome == (if f.stopped.Some? then f.stopped.value else Finished)
            && two.outcome == (if g.stopped.Some? then g.stopped.value else Finished)
            && (f.count > 0 ==> all.offered != [] && Records(Last(all.offered), f.live, f.settlement, x))
            && (g.count > 0 ==> two.offered != [] && Records(Last(two.offered), g.live, g.settlement, x))
  {
    hide Fold, Process, QuietAhead, SafeRecover, SignalsWellFormed;
    QuietWhenOff(live, a, env);
    QuietWhenOff(live, a + [x], env);
    FinalCheckpoint(Fresh(live), a, env, accept, 0);
    FinalCheckpoint(Fresh(live), a + [x], env, accept, 0);
    FoldAppend(live, a, [x], env, mid);
    var cp := Last(Process(Fresh(live), a, env, accept, 0).offered);
    QuietWhenOff(Resume(cp), [x], env);
    FinalIsWithin(live, a, env);
    FinalCheckpoint(Fresh(Resume(cp)), [x], env, accept, 0);
    assert (a + [x])[|a|] == x;
  }

  /** An unconfirmed stream: one more tick before the opening, on another stream, is recorded under either name. */
  lemma UnconfirmedMatters(live: Live, a: seq<Event>, mid: Live, env: Env, accept: nat -> bool)
    requires a != [] && Ran(live, a, env, mid) && mid.stream.None?
    requires AcceptsAll(accept) && !env.protectFirst && SafeRecover(env) && SignalsWellFormed(env, live.now.position.basis)
    ensures exists b :: !SplitAgrees(live, a, b, env, env, env, accept)
  {
    hide Fold, Process, QuietAhead, SafeRecover, SignalsWellFormed;
    var openedAt := mid.now.position.basis.openedAt;
    var x := Event(Last(a).id + 1, 1.0, openedAt - 1, openedAt - 1, Last(a).stream + 1);
    OneTickLater(live, a, mid, x, env, accept);
    var resumed := Resume(Last(Process(Fresh(live), a, env, accept, 0).offered));
    FoldOne(mid, x, env);
    FoldOne(resumed, x, env);
    QuietWhenOff(resumed, [x], env);
    assert !SplitAgrees(live, a, [x], env, env, env, accept);
  }

  /** A judgement that the last id alters, on the very next tick. */
  lemma JudgementMatters(live: Live, a: seq<Event>, mid: Live, x: Event, env: Env, accept: nat -> bool)
    requires a != [] && Ran(live, a, env, mid) && mid.stream.Some? && !PreOpen(mid, x)
    requires !SameJudgement(StepOn(mid, x, env), StepOn(mid.(anchor := Some(Last(a).id)), x, env))
    requires AcceptsAll(accept) && !env.protectFirst && SafeRecover(env) && SignalsWellFormed(env, live.now.position.basis)
    ensures !SplitAgrees(live, a, [x], env, env, env, accept)
  {
    hide Fold, Process, QuietAhead, SafeRecover, SignalsWellFormed, StepOn;
    OneTickLater(live, a, mid, x, env, accept);
    var resumed := Resume(Last(Process(Fresh(live), a, env, accept, 0).offered));
    assert resumed == mid.(anchor := Some(Last(a).id));
    FoldOne(mid, x, env);
    FoldOne(resumed, x, env);
    QuietWhenOff(resumed, [x], env);
    FinalIsWithin(live, a, env);
    StepNeverRejectsSignals(mid, x, env);
    StepNeverRejectsSignals(resumed, x, env);
    if StepOn(mid, x, env).Stepped? { StreamAfterStep(mid, x, env); }
    if StepOn(resumed, x, env).Stepped? { StreamAfterStep(resumed, x, env); }
  }

  lemma DescribedExactly(live: Live, a: seq<Event>, mid: Live, env: Env, accept: nat -> bool)
    requires a != [] && Ran(live, a, env, mid)
    requires AcceptsAll(accept) && !env.protectFirst && SafeRecover(env) && SignalsWellFormed(env, live.now.position.basis)
    ensures (forall b :: SplitAgrees(live, a, b, env, env, env, accept)) <==> Described(mid, Last(a), env)
  {
    hide Fold, Process, QuietAhead, SafeRecover, SignalsWellFormed, StepOn, SplitAgrees, SameJudgement;
    if Described(mid, Last(a), env) {
      forall b ensures SplitAgrees(live, a, b, env, env, env, accept) {
        QuietWhenOff(live, a, env);
        QuietWhenOff(live, a + b, env);
        BatchesCompose(live, a, b, env, env, env, accept);
      }
    } else if mid.stream.None? {
      UnconfirmedMatters(live, a, mid, env, accept);
    } else {
      var x :| !PreOpen(mid, x) && !SameJudgement(StepOn(mid, x, env), StepOn(mid.(anchor := Some(Last(a).id)), x, env));
      JudgementMatters(live, a, mid, x, env, accept);
    }
  }

  /** A tick of another stream, whenever it comes, is judged alike whether recovery is told the last processed id or this one. */
  ghost predicate RecoversAlike(mid: Live, id: int, env: Env) {
    forall x :: !PreOpen(mid, x) && StreamChanged(mid, x) ==> SameJudgement(StepOn(mid, x, env), StepOn(mid.(anchor := Some(id)), x, env))
  }

  lemma SameStreamReadsNoId(mid: Live, id: int, x: Event, env: Env)
    requires !StreamChanged(mid, x)
    ensures StepOn(mid.(anchor := Some(id)), x, env) == StepOn(mid, x, env)
  {
    hide TakeTick;
    TickAnchorFree(mid, Some(id), x, env, None);
  }

  /** Whether the last checkpoint describes the state can be told from the batch itself and from what recovery reads. */
  lemma DescribedByInputs(live: Live, a: seq<Event>, mid: Live, env: Env)
    requires a != [] && Ran(live, a, env, mid) && SafeRecover(env)
    ensures Described(mid, Last(a), env) <==> Confirmed(live, a) && (!PreOpen(live, Last(a)) || RecoversAlike(mid, Last(a).id, env))
  {
    hide Fold, SafeRecover, StepOn, Confirmed;
    ConfirmedExactly(live, a, env, mid);
    if !PreOpen(live, Last(a)) {
      PostOpenIsNamed(live, a, env, mid);
      assert mid.(anchor := Some(Last(a).id)) == mid;
    } else if RecoversAlike(mid, Last(a).id, env) {
      forall x | !PreOpen(mid, x) ensures SameJudgement(StepOn(mid, x, env), StepOn(mid.(anchor := Some(Last(a).id)), x, env)) {
        if !StreamChanged(mid, x) { SameStreamReadsNoId(mid, Last(a).id, x, env); }
      }
    }
  }

  /**
   Where a batch may end: the continuation is the same for every further batch if and only if the stream was confirmed
   before the batch or has a tick after the opening in it, and the batch ends with a tick after the opening, or recovery
   from its end does not tell the last processed id from the last one seen.
   */
  lemma SplitsExactly(live: Live, a: seq<Event>, mid: Live, env: Env, accept: nat -> bool)
    requires a != [] && Ran(live, a, env, mid)
    requires AcceptsAll(accept) && !env.protectFirst && SafeRecover(env) && SignalsWellFormed(env, live.now.position.basis)
    ensures (forall b :: SplitAgrees(live, a, b, env, env, env, accept)) <==>
              Confirmed(live, a) && (!PreOpen(live, Last(a)) || RecoversAlike(mid, Last(a).id, env))
  {
    hide Fold, SafeRecover, SignalsWellFormed, SplitAgrees, Confirmed, Described, RecoversAlike;
    DescribedExactly(live, a, mid, env, accept);
    DescribedByInputs(live, a, mid, env);
  }

  /** For a recovery that reads no id, what is known before the batch is taken decides: whether its stream is, or will be, confirmed. */
  lemma SplitsExactlyWithoutIds(live: Live, a: seq<Event>, mid: Live, env: Env, accept: nat -> bool)
    requires a != [] && Ran(live, a, env, mid) && AnchorFree(env)
    requires AcceptsAll(accept) && !env.protectFirst && SafeRecover(env) && SignalsWellFormed(env, live.now.position.basis)
    ensures (forall b :: SplitAgrees(live, a, b, env, env, env, accept)) <==> Confirmed(live, a)
  {
    hide Fold, SafeRecover, SignalsWellFormed, StepOn, SplitAgrees, Confirmed, AnchorFree;
    SplitsExactly(live, a, mid, env, accept);
    forall x ensures StepOn(mid.(anchor := Some(Last(a).id)), x, env) == StepOn(mid, x, env) {
      StepAnchorFree(mid, Some(Last(a).id), x, env);
    }
  }

  lemma RecoveryIsRecorded(l: Loop, e: Event, env: Env, accept: nat -> bool, count: nat)
    requires !PreOpen(l.live, e) && AcceptsAll(accept) && !env.protectFirst
    requires SafeRecover(env) && SignalsWellFormed(env, l.live.now.position.basis) && !l.recovered
    requires StreamChanged(l.live, e) ==>
               env.recover(l.live.now, l.live.through, e.(observedAt := QuoteAt(l.live, e)), l.live.anchor).Done?
    ensures var offered := Process(l, [e], env, accept, count).offered;
            offered != [] && (Last(offered).recovered <==> StreamChanged(l.live, e))
  {
    hide Advance, PriceExit, HoldingExit, Settle, ScanSignals, SafeRecover, SignalsWellFormed, Candidates, FirstExit;
    StepNeverRejectsSignals(l.live, e, env);
    var s := StepOn(l.live, e, env);
    assert [e][1..] == [];
    assert Process(AfterStep(l, e, s), [], env, accept, count).offered == [TickCheckpoint(l, e, s)];
    var flushed := if MustFlush(l, e, env) then Emit(l.pending) else [];
    assert Process(AfterStep(l, e, s), [], env, accept, count + |flushed|).offered == [TickCheckpoint(l, e, s)];
  }

  /**
   From an unconfirmed stream, ticks before the opening leave the loop unconfirmed but their checkpoint
   names a stream: ending the batch there makes the next tick skip the recovery that one batch performs.
   */
  lemma UnconfirmedSplitSkipsRecovery(live: Live, a: seq<Event>, e: Event, env: Env, accept: nat -> bool)
    requires live.stream.None? && a != [] && (forall x :: x in a ==> PreOpen(live, x))
    requires !PreOpen(live, e) && e.stream == Last(a).stream
    requires AcceptsAll(accept) && !env.protectFirst && SafeRecover(env) && SignalsWellFormed(env, live.now.position.basis)
    requires env.recover(live.now, live.through, e.(observedAt := QuoteAt(live, e)), live.anchor).Done?
    ensures var whole := Process(Fresh(live), a + [e], env, accept, 0).offered;
            var one := Process(Fresh(live), a, env, accept, 0).offered;
            whole != [] && Last(whole).recovered && one != [] &&
            var two := Process(Fresh(Resume(Last(one))), [e], env, accept, 0).offered;
            two != [] && !Last(two).recovered
  {
    hide Process, Fold, SafeRecover, SignalsWellFormed, StepOn, QuietAhead;
    PreOpenTicksChangeNothing(live, a, env);
    QuietWhenOff(live, a, env);
    FinalCheckpoint(Fresh(live), a, env, accept, 0);
    AfterPreOpen(Fresh(live), a, e, env, accept, 0);
    RecoveryIsRecorded(Fresh(Resume(Last(Process(Fresh(live), a, env, accept, 0).offered))), e, env, accept, 0);
  }

  lemma {:induction false} AfterPreOpen(l: Loop, a: seq<Event>, e: Event, env: Env, accept: nat -> bool, count: nat)
    requires forall x :: x in a ==> PreOpen(l.live, x)
    requires !PreOpen(l.live, e) && AcceptsAll(accept) && !env.protectFirst && l.live.stream.None?
    requires SafeRecover(env) && SignalsWellFormed(env, l.live.now.position.basis) && !l.recovered
    requires env.recover(l.live.now, l.live.through, e.(observedAt := QuoteAt(l.live, e)), l.live.anchor).Done?
    ensures var offered := Process(l, a + [e], env, accept, count).offered;
            offered != [] && Last(offered).recovered
    decreases |a|
  {
    hide StepOn, SafeRecover, SignalsWellFormed;
    if a == [] {
      assert a + [e] == [e];
      RecoveryIsRecorded(l, e, env, accept, count);
    } else {
      assert a[0] in a;
      assert (a + [e])[1..] == a[1..] + [e] && (a + [e])[0] == a[0];
      AfterPreOpen(l.(pending := Some(PreOpenCheckpoint(l, a[0]))), a[1..], e, env, accept, count);
    }
  }
}
