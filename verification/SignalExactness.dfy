/** What one tick does, in every case: exit by price, by the holding limit or by a signal candle, or protection. */
module SignalExactness {
  import opened Common
  import opened Engine
  import opened TickProcessor
  import opened SignalOrder

  // ---------------------------------------------------------------- the candle that decides

  /** The candle is newer than the last one read, or without one belongs to the interval of the opening or a later one. */
  predicate Unread(s: Signal, signalAt: Option<int>, b: Basis, cfg: Config) {
    if signalAt.Some? then s.openTime > signalAt.value
    else s.openTime + cfg.intervalMs > b.openedAt / cfg.intervalMs * cfg.intervalMs
  }

  /** The tick may read the candle: it is unread, its interval had ended, and it was available when the tick was received. */
  predicate Readable(s: Signal, signalAt: Option<int>, e: Event, at: int, b: Basis, cfg: Config) {
    Unread(s, signalAt, b, cfg) && s.openTime + cfg.intervalMs <= at / cfg.intervalMs * cfg.intervalMs && s.availableAt <= e.receivedAt
  }

  /** A position with a pinned exit policy accepts only candles of its own symbol and interval, closed by now. */
  predicate Proper(s: Signal, b: Basis, at: int, cfg: Config) {
    b.exitPlan.Some? ==> s.symbol == b.symbol && s.openTime + cfg.intervalMs == s.closedAt && s.closedAt <= s.availableAt && s.closedAt <= at
  }

  /** A readable candle that closed after the opening and fires, or is not one the position accepts. */
  predicate Decides(s: Signal, signalAt: Option<int>, e: Event, at: int, b: Basis, cfg: Config) {
    Readable(s, signalAt, e, at, b, cfg) && s.closedAt > b.openedAt && (s.fires || !Proper(s, b, at, cfg))
  }

  predicate FirstToDecide(signals: seq<Signal>, i: nat, signalAt: Option<int>, e: Event, at: int, b: Basis, cfg: Config) {
    && i < |signals| && Decides(signals[i], signalAt, e, at, b, cfg)
    && forall j :: 0 <= j < i ==> !Decides(signals[j], signalAt, e, at, b, cfg)
  }

  predicate NoneDecides(signals: seq<Signal>, signalAt: Option<int>, e: Event, at: int, b: Basis, cfg: Config) {
    forall s :: s in signals ==> !Decides(s, signalAt, e, at, b, cfg)
  }

  /** The candle last read: the latest readable one, or the one from before if none is readable. */
  predicate LastRead(signals: seq<Signal>, before: Option<int>, signalAt: Option<int>, e: Event, at: int, b: Basis, cfg: Config, after: Option<int>) {
    if exists s :: s in signals && Readable(s, signalAt, e, at, b, cfg)
    then exists s :: s in signals && Readable(s, signalAt, e, at, b, cfg) && after == Some(s.openTime)
                     && forall x :: x in signals && Readable(x, signalAt, e, at, b, cfg) ==> x.openTime <= s.openTime
    else after == before
  }

  // ---------------------------------------------------------------- the scan

  lemma Shifted(signals: seq<Signal>, signalAt: Option<int>, e: Event, at: int, b: Basis, cfg: Config)
    requires signals != [] && !Decides(signals[0], signalAt, e, at, b, cfg)
    ensures forall i: nat :: FirstToDecide(signals[1..], i, signalAt, e, at, b, cfg) ==> FirstToDecide(signals, i + 1, signalAt, e, at, b, cfg)
    ensures NoneDecides(signals[1..], signalAt, e, at, b, cfg) <==> NoneDecides(signals, signalAt, e, at, b, cfg)
  {
    hide Decides;
    assert forall s :: s in signals <==> s == signals[0] || s in signals[1..];
    forall i: nat | FirstToDecide(signals[1..], i, signalAt, e, at, b, cfg) ensures FirstToDecide(signals, i + 1, signalAt, e, at, b, cfg) {
      forall j | 0 <= j < i + 1 ensures !Decides(signals[j], signalAt, e, at, b, cfg) {
        if j > 0 { assert signals[j] == signals[1..][j - 1]; }
      }
    }
  }

  lemma LastReadOnward(signals: seq<Signal>, before: Option<int>, signalAt: Option<int>, e: Event, at: int, b: Basis, cfg: Config, after: Option<int>)
    requires signals != [] && InAvailabilityOrder(signals)
    requires var read := if Readable(signals[0], signalAt, e, at, b, cfg) then Some(signals[0].openTime) else before;
             LastRead(signals[1..], read, signalAt, e, at, b, cfg, after)
    ensures LastRead(signals, before, signalAt, e, at, b, cfg, after)
  {
    hide Readable;
    assert forall s :: s in signals <==> s == signals[0] || s in signals[1..];
    forall s | s in signals[1..] ensures s.openTime > signals[0].openTime {
      var k :| 0 <= k < |signals[1..]| && signals[1..][k] == s;
      assert signals[k + 1] == s;
    }
  }

  /** What a scan answers, given which candle decides. */
  ghost predicate Answers(scan: Scan, signals: seq<Signal>, before: Option<int>, signalAt: Option<int>, e: Event, at: int, b: Basis, cfg: Config) {
    if NoneDecides(signals, signalAt, e, at, b, cfg) then scan.Scanned? && scan.exit.None? && LastRead(signals, before, signalAt, e, at, b, cfg, scan.signalAt)
    else exists i: nat :: i < |signals| && FirstToDecide(signals, i, signalAt, e, at, b, cfg) && Concludes(scan, signals[i], b, at, cfg)
  }

  predicate Concludes(scan: Scan, s: Signal, b: Basis, at: int, cfg: Config) {
    if Proper(s, b, at, cfg) then scan == Scanned(Some(s.openTime), Some(s)) else scan == BadSignal
  }

  lemma NothingReadable(signals: seq<Signal>, before: Option<int>, signalAt: Option<int>, e: Event, at: int, b: Basis, cfg: Config)
    requires forall s :: s in signals ==> !Readable(s, signalAt, e, at, b, cfg)
    ensures NoneDecides(signals, signalAt, e, at, b, cfg) && LastRead(signals, before, signalAt, e, at, b, cfg, before)
  {
  }

  lemma {:induction false} ScanAnswers(signals: seq<Signal>, e: Event, at: int, b: Basis, cfg: Config, signalAt: Option<int>, before: Option<int>)
    requires InAvailabilityOrder(signals)
    ensures Answers(ScanSignals(signals, Baseline(signalAt, b, cfg), LastClosed(at, cfg.intervalMs), e, at, b, cfg, before),
                    signals, before, signalAt, e, at, b, cfg)
    decreases |signals|
  {
    hide FirstToDecide, NoneDecides, LastRead, Proper, Readable, Decides;
    var baseline, lastClosed := Baseline(signalAt, b, cfg), LastClosed(at, cfg.intervalMs);
    if signals == [] {
      NothingReadable(signals, before, signalAt, e, at, b, cfg);
    } else {
      var s, rest := signals[0], signals[1..];
      assert InAvailabilityOrder(rest) by { assert forall i :: 0 <= i < |rest| ==> rest[i] == signals[i + 1]; }
      OneCandle(s, signalAt, e, at, b, cfg);
      if s.openTime > baseline && !Readable(s, signalAt, e, at, b, cfg) {
        forall x | x in signals ensures !Readable(x, signalAt, e, at, b, cfg) {
          OneCandle(x, signalAt, e, at, b, cfg);
        }
        NothingReadable(signals, before, signalAt, e, at, b, cfg);
      } else if Decides(s, signalAt, e, at, b, cfg) {
        DecidedAtOnce(signals, signalAt, e, at, b, cfg);
      } else {
        var read := if Readable(s, signalAt, e, at, b, cfg) then Some(s.openTime) else before;
        ScanAnswers(rest, e, at, b, cfg, signalAt, read);
        GoesOn(signals, ScanSignals(rest, baseline, lastClosed, e, at, b, cfg, read), before, signalAt, e, at, b, cfg);
      }
    }
  }

  /** The scan's own guards, for one candle. */
  lemma OneCandle(s: Signal, signalAt: Option<int>, e: Event, at: int, b: Basis, cfg: Config)
    ensures var baseline, lastClosed := Baseline(signalAt, b, cfg), LastClosed(at, cfg.intervalMs);
            && (Readable(s, signalAt, e, at, b, cfg) <==> s.openTime > baseline && s.openTime <= lastClosed && s.availableAt <= e.receivedAt)
            && (Decides(s, signalAt, e, at, b, cfg) <==>
                  Readable(s, signalAt, e, at, b, cfg) && s.closedAt > b.openedAt && (s.fires || InvalidSignal(s, b, at, cfg)))
            && (Proper(s, b, at, cfg) <==> !InvalidSignal(s, b, at, cfg))
  {
  }

  lemma DecidedAtOnce(signals: seq<Signal>, signalAt: Option<int>, e: Event, at: int, b: Basis, cfg: Config)
    requires signals != [] && Decides(signals[0], signalAt, e, at, b, cfg)
    ensures !NoneDecides(signals, signalAt, e, at, b, cfg) && FirstToDecide(signals, 0, signalAt, e, at, b, cfg)
  {
    hide Decides;
    assert signals[0] in signals;
  }

  lemma GoesOn(signals: seq<Signal>, scan: Scan, before: Option<int>, signalAt: Option<int>, e: Event, at: int, b: Basis, cfg: Config)
    requires signals != [] && InAvailabilityOrder(signals) && !Decides(signals[0], signalAt, e, at, b, cfg)
    requires Answers(scan, signals[1..], if Readable(signals[0], signalAt, e, at, b, cfg) then Some(signals[0].openTime) else before, signalAt, e, at, b, cfg)
    ensures Answers(scan, signals, before, signalAt, e, at, b, cfg)
  {
    hide Decides, FirstToDecide, LastRead, Readable, Concludes, NoneDecides;
    Shifted(signals, signalAt, e, at, b, cfg);
    if NoneDecides(signals, signalAt, e, at, b, cfg) {
      LastReadOnward(signals, before, signalAt, e, at, b, cfg, scan.signalAt);
    } else {
      var i: nat :| i < |signals[1..]| && FirstToDecide(signals[1..], i, signalAt, e, at, b, cfg) && Concludes(scan, signals[1..][i], b, at, cfg);
      assert FirstToDecide(signals, i + 1, signalAt, e, at, b, cfg);
      assert Concludes(scan, signals[i + 1], b, at, cfg);
    }
  }

  // ---------------------------------------------------------------- the tick

  /** The step moves the clock forward, never back, and notes the tick. */
  predicate Noted(live: Live, e: Event, next: Live) {
    && next.through >= e.observedAt && next.through >= live.through && (next.through == e.observedAt || next.through == live.through)
    && next.stream == Some(e.stream) && next.mark == e.price && next.anchor == Some(e.id)
  }

  predicate Closed(live: Live, next: Live, settlement: Option<Settlement>, price: real, reason: ExitReason, cfg: Config) {
    settlement == Some(Settle(live.now.position, price, next.through, reason, cfg)) && next.now == live.now
  }

  predicate Overdue(b: Basis, at: int) {
    b.exitPlan.Some? && b.exitPlan.value.maxHoldingMs.Some? && at - b.openedAt >= b.exitPlan.value.maxHoldingMs.value
  }

  /** Neither the price nor the holding limit closes the position at this tick. */
  predicate LeftToSignals(live: Live, e: Event) {
    !Touched(live.now.position, e.price) && !Overdue(live.now.position.basis, QuoteAt(live, e))
  }

  /** A price that exits decides first, at no other time than the tick's; after it the holding limit. Neither reads a candle. */
  lemma PriceThenHoldingLimit(live: Live, e: Event, env: Env, gap: Option<GapNote>)
    requires !LeftToSignals(live, e)
    ensures var s := TakeTick(live, e, env, gap);
            && s.Stepped? && Noted(live, e, s.live) && s.live.now == live.now && s.live.signalAt == live.signalAt
            && s.signal.None? && !s.consulted && s.gap == gap
            && s.settlement == (if Touched(live.now.position, e.price) then PriceExit(live.now.position, e.price, s.live.through, env.cfg)
                                else Some(Settle(live.now.position, e.price, s.live.through, HoldingTimeout, env.cfg)))
  {
    hide Advance, Settle, Touched, ScanSignals;
  }

  lemma NoSignalsProtect(live: Live, e: Event, env: Env, gap: Option<GapNote>)
    requires LeftToSignals(live, e) && env.signals.None?
    ensures var s := TakeTick(live, e, env, gap);
            && s.Stepped? && Noted(live, e, s.live) && s.live.now == Advance(live.now, e.price, e.observedAt, env.cfg, env.policy)
            && s.live.signalAt == live.signalAt && s.settlement.None? && s.signal.None? && !s.consulted && s.gap == gap
  {
    hide Advance, Settle, Touched, ScanSignals;
  }

  /** The first candle that decides closes the position at the tick, or is rejected if the position does not accept it. */
  ghost predicate SignalCloses(live: Live, e: Event, env: Env, s: Step, x: Signal) {
    if !Proper(x, live.now.position.basis, QuoteAt(live, e), env.cfg) then s.SignalFailed?
    else
      && s.Stepped? && Noted(live, e, s.live) && Closed(live, s.live, s.settlement, e.price, SignalExit, env.cfg)
      && s.live.signalAt == Some(x.openTime) && s.consulted
      && s.signal == Some(SignalNote(x.openTime, x.closedAt, x.availableAt, e.receivedAt, if e.receivedAt > x.closedAt then e.receivedAt - x.closedAt else 0))
  }

  /**
   Where neither price nor holding limit exits, the position closes if and only if a readable candle decides: the first
   one closes it, unless the position does not accept that candle. Otherwise the price protects, and the last readable
   candle counts as read.
   */
  lemma SignalsDecide(live: Live, e: Event, env: Env, gap: Option<GapNote>)
    requires LeftToSignals(live, e) && env.signals.Some? && InAvailabilityOrder(env.signals.value)
    ensures var s, signals, b, at := TakeTick(live, e, env, gap), env.signals.value, live.now.position.basis, QuoteAt(live, e);
            && (s.Stepped? ==> s.gap == gap)
            && if NoneDecides(signals, live.signalAt, e, at, b, env.cfg) then
                 && s.Stepped? && Noted(live, e, s.live) && s.live.now == Advance(live.now, e.price, e.observedAt, env.cfg, env.policy)
                 && s.settlement.None? && s.signal.None?
                 && LastRead(signals, live.signalAt, live.signalAt, e, at, b, env.cfg, s.live.signalAt)
               else exists i: nat :: i < |signals| && FirstToDecide(signals, i, live.signalAt, e, at, b, env.cfg) && SignalCloses(live, e, env, s, signals[i])
  {
    hide Advance, Settle, Touched, ScanSignals, FirstToDecide, NoneDecides, LastRead, Proper, LastClosed, Baseline;
    var signals, b, at := env.signals.value, live.now.position.basis, QuoteAt(live, e);
    var scan := ScanSignals(signals, Baseline(live.signalAt, b, env.cfg), LastClosed(at, env.cfg.intervalMs), e, at, b, env.cfg, live.signalAt);
    ScanAnswers(signals, e, at, b, env.cfg, live.signalAt, live.signalAt);
    if !SignalDue(live, e, env) {
      NothingIsDue(live, e, env);
      NothingReadable(signals, live.signalAt, live.signalAt, e, at, b, env.cfg);
    } else if !NoneDecides(signals, live.signalAt, e, at, b, env.cfg) {
      var i: nat :| i < |signals| && FirstToDecide(signals, i, live.signalAt, e, at, b, env.cfg) && Concludes(scan, signals[i], b, at, env.cfg);
      assert SignalCloses(live, e, env, TakeTick(live, e, env, gap), signals[i]);
    }
  }

  lemma NothingIsDue(live: Live, e: Event, env: Env)
    requires env.signals.Some? && !SignalDue(live, e, env)
    ensures forall s :: s in env.signals.value ==> !Readable(s, live.signalAt, e, QuoteAt(live, e), live.now.position.basis, env.cfg)
  {
    hide Readable;
    forall s | s in env.signals.value ensures !Readable(s, live.signalAt, e, QuoteAt(live, e), live.now.position.basis, env.cfg) {
      OneCandle(s, live.signalAt, e, QuoteAt(live, e), live.now.position.basis, env.cfg);
    }
  }

  /** Candles are consulted exactly if neither exit applies and an interval has ended after the one last read. */
  lemma ConsultedExactly(live: Live, e: Event, env: Env, gap: Option<GapNote>)
    requires TakeTick(live, e, env, gap).Stepped?
    ensures var b, ms, at := live.now.position.basis, env.cfg.intervalMs, QuoteAt(live, e);
            TakeTick(live, e, env, gap).consulted <==>
              && LeftToSignals(live, e) && env.signals.Some?
              && at / ms * ms > (if live.signalAt.Some? then live.signalAt.value + ms else b.openedAt / ms * ms)
  {
    hide Advance, Settle, Touched, ScanSignals;
  }
}
