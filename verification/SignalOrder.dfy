/** When a closed candle may be used as a signal: not before everything its indicators were computed from. */
module SignalOrder {
  import opened Common
  import opened Engine
  import opened TickProcessor

  datatype Finality = Finality(openTime: int, finalizedAt: Option<int>, revisedAt: Option<int>)

  /** The time at which one candle itself is final. */
  function OwnTime(c: Finality, intervalMs: int, unknownAvailableAt: int): int {
    Max(Max(if c.finalizedAt.Some? then c.finalizedAt.value else unknownAvailableAt, if c.revisedAt.Some? then c.revisedAt.value else 0),
        c.openTime + intervalMs)
  }

  /** The time is that of one of the candles up to the i-th. */
  predicate IsOwnTime(history: seq<Finality>, i: nat, time: int, intervalMs: int, unknownAvailableAt: int) {
    exists j :: 0 <= j <= i && j < |history| && time == OwnTime(history[j], intervalMs, unknownAvailableAt)
  }

  /** Each candle is available once it and all candles before it are final, and no later than that. */
  method SignalAvailabilityTimes(history: seq<Finality>, intervalMs: int, unknownAvailableAt: int) returns (times: seq<int>)
    ensures |times| == |history|
    ensures forall i, j :: 0 <= j <= i < |history| ==> times[i] >= OwnTime(history[j], intervalMs, unknownAvailableAt) && times[i] >= times[j] >= 0
    ensures forall i :: 0 <= i < |history| ==> times[i] == 0 || IsOwnTime(history, i, times[i], intervalMs, unknownAvailableAt)
  {
    hide OwnTime, IsOwnTime;
    var availableAfter := 0;
    times := [];
    while |times| < |history|
      invariant |times| <= |history|
      invariant availableAfter == if times == [] then 0 else times[|times| - 1]
      invariant forall i, j :: 0 <= j <= i < |times| ==>
                  times[i] >= OwnTime(history[j], intervalMs, unknownAvailableAt) && times[i] >= times[j] >= 0
      invariant forall i :: 0 <= i < |times| ==> times[i] == 0 || IsOwnTime(history, i, times[i], intervalMs, unknownAvailableAt)
    {
      ghost var last := |times|;
      availableAfter := Max(availableAfter, OwnTime(history[|times|], intervalMs, unknownAvailableAt));
      OwnTimeStays(history, last, availableAfter, intervalMs, unknownAvailableAt);
      times := times + [availableAfter];
    }
  }

  /** A candle is final once it has ended, was finalised, at an unknown time as late as assumed, and was last revised. */
  lemma OwnTimeExactly(c: Finality, intervalMs: int, unknownAvailableAt: int, at: int)
    requires at >= 0
    ensures at >= OwnTime(c, intervalMs, unknownAvailableAt) <==>
              && at - intervalMs >= c.openTime && (c.revisedAt.Some? ==> at >= c.revisedAt.value)
              && (if c.finalizedAt.None? then at >= unknownAvailableAt else at >= c.finalizedAt.value)
  {
  }

  lemma OwnTimeStays(history: seq<Finality>, i: nat, time: int, intervalMs: int, unknownAvailableAt: int)
    ensures i > 0 && IsOwnTime(history, i - 1, time, intervalMs, unknownAvailableAt) ==> IsOwnTime(history, i, time, intervalMs, unknownAvailableAt)
    ensures i < |history| && time == OwnTime(history[i], intervalMs, unknownAvailableAt) ==> IsOwnTime(history, i, time, intervalMs, unknownAvailableAt)
  {
    hide OwnTime;
  }

  // ---------------------------------------------------------------- why the scan may stop early

  /** Signals in order of opening whose availability never decreases. */
  predicate InAvailabilityOrder(signals: seq<Signal>) {
    forall i, j :: 0 <= i < j < |signals| ==> signals[i].openTime < signals[j].openTime && signals[i].availableAt <= signals[j].availableAt
  }

  predicate Usable(s: Signal, lastClosed: int, e: Event) {
    s.openTime <= lastClosed && s.availableAt <= e.receivedAt
  }

  function UsableOnly(signals: seq<Signal>, lastClosed: int, e: Event): seq<Signal> {
    if signals == [] then [] else (if Usable(signals[0], lastClosed, e) then [signals[0]] else []) + UsableOnly(signals[1..], lastClosed, e)
  }

  lemma {:induction false} NoneUsable(signals: seq<Signal>, lastClosed: int, e: Event)
    requires forall s :: s in signals ==> !Usable(s, lastClosed, e)
    ensures UsableOnly(signals, lastClosed, e) == []
    decreases |signals|
  {
    if signals != [] {
      assert signals[0] in signals;
      NoneUsable(signals[1..], lastClosed, e);
    }
  }

  /** Past the baseline the scan stops at the first signal it cannot use, and yet it misses none that it could. */
  lemma {:induction false} ScanMissesNothing(signals: seq<Signal>, baseline: int, lastClosed: int, e: Event, at: int, b: Basis, cfg: Config,
                                             signalAt: Option<int>)
    requires InAvailabilityOrder(signals) && baseline <= lastClosed
    ensures ScanSignals(signals, baseline, lastClosed, e, at, b, cfg, signalAt)
         == ScanSignals(UsableOnly(signals, lastClosed, e), baseline, lastClosed, e, at, b, cfg, signalAt)
    decreases |signals|
  {
    hide InvalidSignal;
    if signals != [] {
      var s, rest := signals[0], signals[1..];
      assert s in signals;
      assert InAvailabilityOrder(rest) by { assert forall i :: 0 <= i < |rest| ==> rest[i] == signals[i + 1]; }
      assert forall x :: x in rest ==> x in signals;
      if Usable(s, lastClosed, e) {
        assert UsableOnly(signals, lastClosed, e)[0] == s && UsableOnly(signals, lastClosed, e)[1..] == UsableOnly(rest, lastClosed, e);
        ScanMissesNothing(rest, baseline, lastClosed, e, at, b, cfg, signalAt);
        ScanMissesNothing(rest, baseline, lastClosed, e, at, b, cfg, Some(s.openTime));
      } else {
        forall x | x in rest ensures !Usable(x, lastClosed, e) {
          var k :| 0 <= k < |rest| && rest[k] == x;
          assert signals[k + 1] == x;
        }
        NoneUsable(rest, lastClosed, e);
        ScanMissesNothing(rest, baseline, lastClosed, e, at, b, cfg, signalAt);
      }
    }
  }

  // ---------------------------------------------------------------- a signal exit knows nothing of the future

  /** The signal was closed and available when the tick was received, is newer than the last one read, and fires. */
  predicate KnownAt(s: Signal, baseline: int, e: Event, b: Basis) {
    s.fires && s.openTime > baseline && s.availableAt <= e.receivedAt && s.closedAt > b.openedAt
  }

  lemma {:induction false} ScanFindsKnown(signals: seq<Signal>, baseline: int, lastClosed: int, e: Event, at: int, b: Basis, cfg: Config,
                                          signalAt: Option<int>)
    ensures var scan := ScanSignals(signals, baseline, lastClosed, e, at, b, cfg, signalAt);
            scan.Scanned? && scan.exit.Some? ==>
              scan.exit.value in signals && KnownAt(scan.exit.value, baseline, e, b)
              && !InvalidSignal(scan.exit.value, b, at, cfg) && scan.signalAt == Some(scan.exit.value.openTime)
    decreases |signals|
  {
    hide InvalidSignal;
    if signals != [] {
      ScanFindsKnown(signals[1..], baseline, lastClosed, e, at, b, cfg, signalAt);
      ScanFindsKnown(signals[1..], baseline, lastClosed, e, at, b, cfg, Some(signals[0].openTime));
    }
  }

  /** A signal closes a position only when no price or holding exit does, and only a signal known at that tick. */
  lemma SignalExitsAreCausal(live: Live, e: Event, env: Env, gap: Option<GapNote>)
    requires TakeTick(live, e, env, gap).Stepped? && TakeTick(live, e, env, gap).signal.Some?
    ensures env.signals.Some? && !Touched(live.now.position, e.price)
    ensures HoldingDeadline(live.now.position.basis).Some? ==> QuoteAt(live, e) < HoldingDeadline(live.now.position.basis).value
    ensures var s, b := TakeTick(live, e, env, gap), live.now.position.basis;
            exists x :: x in env.signals.value && KnownAt(x, Baseline(live.signalAt, b, env.cfg), e, b)
                        && s.signal.value.candleAt == x.openTime && s.live.signalAt == Some(x.openTime)
                        && s.settlement == Some(Settle(live.now.position, e.price, QuoteAt(live, e), SignalExit, env.cfg))
  {
    hide Advance, Settle, ScanSignals, Touched, Baseline, LastClosed;
    var at, b := QuoteAt(live, e), live.now.position.basis;
    if env.signals.Some? {
      ScanFindsKnown(env.signals.value, Baseline(live.signalAt, b, env.cfg), LastClosed(at, env.cfg.intervalMs), e, at, b, env.cfg, live.signalAt);
    }
  }
}
