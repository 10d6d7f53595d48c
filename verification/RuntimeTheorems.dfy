/** The loop, the gap and the path of prices together. */
module RuntimeTheorems {
  import opened Common
  import opened Engine
  import opened EngineLaws
  import opened Recovery
  import opened TradeRecoveryLaws
  import opened MinuteRecoveryLaws
  import opened RecoveryTheorems
  import opened TickProcessor
  import opened TickProcessorLaws
  import opened BatchLaws
  import opened SignalOrder

  function TicksIn(events: seq<Event>): seq<Tick> {
    seq(|events|, i requires 0 <= i < |events| => Tick(events[i].price, events[i].observedAt))
  }

  // ---------------------------------------------------------------- an uninterrupted stretch

  /** Ticks of the position's own stream, all after the opening. */
  predicate OneStream(live: Live, events: seq<Event>) {
    live.stream.Some? && forall e :: e in events ==> Some(e.stream) == live.stream && !PreOpen(live, e)
  }

  /** At none of these ticks a candle is known that is newer than the last one read and asks for an exit. */
  predicate Silent(live: Live, events: seq<Event>, env: Env) {
    var b := live.now.position.basis;
    && SignalsWellFormed(env, b)
    && (env.signals.Some? ==>
          forall s, e :: s in env.signals.value && e in events ==> !KnownAt(s, Baseline(live.signalAt, b, env.cfg), e, b))
  }

  /** How many ticks come before the position's clock reaches the deadline. */
  function BeforeDeadline(events: seq<Event>, through: int, deadline: Option<int>): (n: nat)
    ensures n <= |events|
    decreases |events|
  {
    if events == [] then 0
    else
      var at := Max(events[0].observedAt, through);
      if deadline.Some? && at >= deadline.value then 0 else 1 + BeforeDeadline(events[1..], at, deadline)
  }

  /** All of them do, exactly if the deadline is later than the clock and than each of them. */
  lemma {:induction false} AllBeforeDeadline(events: seq<Event>, through: int, deadline: Option<int>)
    ensures BeforeDeadline(events, through, deadline) == |events| <==>
              events == [] || deadline.None? || (through < deadline.value && forall e :: e in events ==> e.observedAt < deadline.value)
    decreases |events|
  {
    if events != [] {
      assert forall e :: e in events <==> e == events[0] || e in events[1..];
      AllBeforeDeadline(events[1..], Max(events[0].observedAt, through), deadline);
    }
  }

  lemma {:induction false} ScanReadsForward(signals: seq<Signal>, baseline: int, lastClosed: int, e: Event, at: int, b: Basis, cfg: Config, signalAt: Option<int>)
    requires signalAt.Some? ==> signalAt.value >= baseline
    ensures var scan := ScanSignals(signals, baseline, lastClosed, e, at, b, cfg, signalAt);
            scan.Scanned? ==> scan.signalAt == signalAt || (scan.signalAt.Some? && scan.signalAt.value >= baseline)
    decreases |signals|
  {
    hide InvalidSignal;
    if signals != [] {
      ScanReadsForward(signals[1..], baseline, lastClosed, e, at, b, cfg, signalAt);
      if signals[0].openTime > baseline {
        ScanReadsForward(signals[1..], baseline, lastClosed, e, at, b, cfg, Some(signals[0].openTime));
      }
    }
  }

  /** Without a candle that asks for an exit a tick either exits by price or holding limit, or protects. */
  lemma SilentTick(live: Live, e: Event, env: Env)
    requires OneStream(live, [e]) && Silent(live, [e], env)
    ensures var s, exit := StepOn(live, e, env), TickExit(live.now.position, e.price, QuoteAt(live, e), env.cfg);
            && s.Stepped? && s.settlement == exit
            && s.live.now == (if exit.Some? then live.now else Advance(live.now, e.price, e.observedAt, env.cfg, env.policy))
            && s.live.through == QuoteAt(live, e) && s.live.stream == live.stream
            && Baseline(s.live.signalAt, live.now.position.basis, env.cfg) >= Baseline(live.signalAt, live.now.position.basis, env.cfg)
  {
    hide Advance, TickExit, ScanSignals, LastClosed, KnownAt;
    var at, b := QuoteAt(live, e), live.now.position.basis;
    assert e in [e];
    LastClosedIsClosed(at, env.cfg.intervalMs);
    if env.signals.Some? {
      var baseline, last := Baseline(live.signalAt, b, env.cfg), LastClosed(at, env.cfg.intervalMs);
      ScanNeverFails(env.signals.value, baseline, last, e, at, b, env.cfg, live.signalAt);
      ScanFindsKnown(env.signals.value, baseline, last, e, at, b, env.cfg, live.signalAt);
      ScanReadsForward(env.signals.value, baseline, last, e, at, b, env.cfg, live.signalAt);
    }
  }

  lemma StretchGoesOn(live: Live, events: seq<Event>, env: Env, next: Live)
    requires events != [] && OneStream(live, events) && Silent(live, events, env)
    requires next.stream == live.stream && next.now.position.basis == live.now.position.basis
    requires Baseline(next.signalAt, live.now.position.basis, env.cfg) >= Baseline(live.signalAt, live.now.position.basis, env.cfg)
    ensures OneStream(live, [events[0]]) && Silent(live, [events[0]], env)
    ensures OneStream(next, events[1..]) && Silent(next, events[1..], env)
  {
    hide Baseline, SignalsWellFormed;
    assert events[0] in events && forall e :: e in events[1..] ==> e in events;
  }

  lemma TickExitReason(p: Position, price: Price, at: int, cfg: Config)
    ensures TickExit(p, price, at, cfg).Some? <==> Touched(p, price) || (HoldingDeadline(p.basis).Some? && at >= HoldingDeadline(p.basis).value)
    ensures TickExit(p, price, at, cfg).Some? ==> (TickExit(p, price, at, cfg).value.reason == HoldingTimeout <==> !Touched(p, price))
  {
  }

  /** Where the loop stands after a stretch, given the path of prices over the ticks before the deadline. */
  predicate FollowsTo(f: Progress, walk: Walk, events: seq<Event>, late: nat)
    requires late <= |events|
  {
    match walk
    case Exited(i) => f.settlement.Some? && f.settlement.value.reason != HoldingTimeout && f.count == i + 1
    case Open(now) =>
      f.live.now == now &&
      if late == |events| then !Ended(f)
      else f.settlement.Some? && f.count == late + 1 && (f.settlement.value.reason == HoldingTimeout <==> !Touched(now.position, events[late].price))
  }

  /**
   On one stream, without signals, the loop is the path of prices up to the holding limit: same exits, same positions;
   and the first tick at which the clock reaches the limit closes a position that no earlier price has closed.
   */
  lemma {:induction false} LoopFollowsPrices(live: Live, events: seq<Event>, env: Env)
    requires OneStream(live, events) && Silent(live, events, env)
    ensures var late := BeforeDeadline(events, live.through, HoldingDeadline(live.now.position.basis));
            FollowsTo(Fold(live, events, env), Follow(live.now, TicksIn(events[..late]), env.cfg, env.policy), events, late)
    decreases |events|
  {
    hide Advance, Settle, Touched, TickExit, StepOn, Silent, OneStream;
    var deadline := HoldingDeadline(live.now.position.basis);
    var late := BeforeDeadline(events, live.through, deadline);
    if events != [] {
      var e := events[0];
      StretchGoesOn(live, events, env, live);
      SilentTick(live, e, env);
      OneStreamMeans(live, e);
      TickExitReason(live.now.position, e.price, QuoteAt(live, e), env.cfg);
      var next := StepOn(live, e, env).live;
      AdvanceTightens(live.now, e.price, e.observedAt, env.cfg, env.policy);
      if late > 0 {
        var ticks := TicksIn(events[..late]);
        assert ticks[0] == Tick(e.price, e.observedAt) && ticks[1..] == TicksIn(events[1..][..late - 1]);
        if !Touched(live.now.position, e.price) {
          StretchGoesOn(live, events, env, next);
          LoopFollowsPrices(next, events[1..], env);
        }
      }
    }
  }

  /** A tick at or after the holding deadline closes the position, if nothing before it has. */
  lemma LateTickCloses(live: Live, events: seq<Event>, env: Env, e: Event)
    requires OneStream(live, events) && Silent(live, events, env) && e in events
    requires HoldingDeadline(live.now.position.basis).Some? && e.observedAt >= HoldingDeadline(live.now.position.basis).value
    ensures Fold(live, events, env).settlement.Some?
  {
    hide Fold, Follow, OneStream, Silent, BeforeDeadline;
    AllBeforeDeadline(events, live.through, HoldingDeadline(live.now.position.basis));
    LoopFollowsPrices(live, events, env);
  }

  lemma OneStreamMeans(live: Live, e: Event)
    requires OneStream(live, [e])
    ensures !PreOpen(live, e)
  {
    assert e in [e];
  }

  // ---------------------------------------------------------------- what was missed

  /** The ticks of a path, as events of the position's stream from the end of what it has processed. */
  predicate Missed(gap: Gap, ticks: seq<Tick>, live: Live, events: seq<Event>, env: Env) {
    && live.now == gap.start && live.through == gap.since && TicksIn(events) == ticks
    && OneStream(live, events) && Silent(live, events, env)
  }

  /**
   Where the path of prices does not exit, the loop does not either before the holding limit: it ends in the position
   of the path, or closes by that limit at the first tick that reaches it.
   */
  predicate OnlyTimeCloses(live: Live, events: seq<Event>, env: Env) {
    var f, late := Fold(live, events, env), BeforeDeadline(events, live.through, HoldingDeadline(live.now.position.basis));
    if late == |events| then !Ended(f)
    else f.settlement.Some? && f.settlement.value.reason == HoldingTimeout && f.count == late + 1
  }

  lemma {:induction false} OpenPrefix(q: Protected, ticks: seq<Tick>, n: nat, cfg: ConfigData, policy: Option<Policy>)
    requires n <= |ticks| && Follow(q, ticks, cfg, policy).Open?
    ensures var part := Follow(q, ticks[..n], cfg, policy);
            part.Open? && (n < |ticks| ==> !Touched(part.now.position, ticks[n].price))
    decreases n
  {
    hide Advance, Touched;
    if n > 0 {
      assert ticks[..n][1..] == ticks[1..][..n - 1];
      OpenPrefix(Advance(q, ticks[0].price, ticks[0].at, cfg, policy), ticks[1..], n - 1, cfg, policy);
    }
  }

  lemma WalkAtTheLoop(live: Live, events: seq<Event>, env: Env)
    requires OneStream(live, events) && Silent(live, events, env)
    requires Follow(live.now, TicksIn(events), env.cfg, env.policy).Open?
    ensures OnlyTimeCloses(live, events, env)
    ensures !Ended(Fold(live, events, env)) ==> Fold(live, events, env).live.now == Follow(live.now, TicksIn(events), env.cfg, env.policy).now
  {
    hide Advance, Touched, Follow, Fold, Silent, OneStream;
    var late := BeforeDeadline(events, live.through, HoldingDeadline(live.now.position.basis));
    LoopFollowsPrices(live, events, env);
    assert TicksIn(events)[..late] == TicksIn(events[..late]);
    OpenPrefix(live.now, TicksIn(events), late, env.cfg, env.policy);
    if late == |events| { assert events[..late] == events; }
  }

  /**
   What was missed changes nothing but the holding limit: if strict recovery of a gap does not exit, the loop, had it
   received any ticks inside the same bars, would hold the same stop and trailing level, unless one of those ticks had
   reached the limit; then, and only then, it would have closed, at the first such tick and for that reason.
   */
  lemma MissedTicksChangeNothing(gap: Gap, path: Path, live: Live, events: seq<Event>, env: Env)
    requires gap.inputs.strict && SelectTrades(gap).None? && gap.start.position.basis.openedAt <= gap.since
    requires PeaksBeforeTake(gap.start) && !SplitsBar(gap.since, gap.quote.at, env.policy)
    requires FitsFrom(gap, path, MinuteOf(gap.since))
    requires CausalRecovery(gap, env.cfg, env.policy).Done? && CausalRecovery(gap, env.cfg, env.policy).value.settlement.None?
    requires Missed(gap, Ticks(path, MinuteOf(gap.since), gap.quote.at), live, events, env)
    ensures OnlyTimeCloses(live, events, env)
    ensures !Ended(Fold(live, events, env)) ==>
              SameLevels(Fold(live, events, env).live.now.position, CausalRecovery(gap, env.cfg, env.policy).value.now.position)
  {
    hide CausalRecovery, Follow, Fold, FitsFrom, OneStream, Silent, OnlyTimeCloses;
    StrictMinutesAreSound(gap, path, env.cfg, env.policy);
    WalkAtTheLoop(live, events, env);
  }

  /** The same of the earlier recovery, while the additional policy is off until the quote. */
  lemma MissedTicksOfEarlierRecovery(gap: Gap, path: Path, live: Live, events: seq<Event>, env: Env)
    requires gap.since < gap.quote.at && gap.start.position.basis.openedAt <= gap.since
    requires PeaksBeforeTake(gap.start) && (env.policy.None? || env.policy.value.enabledAt >= gap.quote.at)
    requires FitsFrom(gap, path, MinuteOf(gap.since))
    requires LegacyRecovery(gap, env.cfg).Done? && LegacyRecovery(gap, env.cfg).value.settlement.None?
    requires Missed(gap, Ticks(path, MinuteOf(gap.since), gap.quote.at), live, events, env)
    ensures OnlyTimeCloses(live, events, env)
    ensures !Ended(Fold(live, events, env)) ==>
              SameLevels(Fold(live, events, env).live.now.position, LegacyRecovery(gap, env.cfg).value.now.position)
  {
    hide LegacyRecovery, Follow, Fold, FitsFrom, OneStream, Silent, OnlyTimeCloses;
    LegacyMinutesAreSound(gap, path, env.cfg, env.policy);
    WalkAtTheLoop(live, events, env);
  }

  /**
   The same of public trades, in any order inside a millisecond and down to the whole position: the loop stays open if
   and only if the last trade comes before the holding limit, and then ends exactly where recovery does.
   */
  lemma MissedTradesChangeNothing(gap: Gap, order: seq<Trade>, live: Live, events: seq<Event>, env: Env)
    requires gap.quote.at >= gap.since && SelectTrades(gap).Some?
    requires ByTime(order) && multiset(order) == Inside(gap.inputs.recent.value, gap.since, gap.quote.at) && Priced(order)
    requires CausalRecovery(gap, env.cfg, env.policy).Done? && CausalRecovery(gap, env.cfg, env.policy).value.settlement.None?
    requires Missed(gap, TicksOf(order), live, events, env)
    ensures var f, deadline := Fold(live, events, env), HoldingDeadline(gap.start.position.basis);
            && OnlyTimeCloses(live, events, env)
            && (!Ended(f) <==> order == [] || deadline.None? || Last(order).at < deadline.value)
            && (!Ended(f) ==> f.live.now == CausalRecovery(gap, env.cfg, env.policy).value.now)
  {
    hide CausalRecovery, Follow, Fold, OneStream, Silent, SelectTrades, Inside;
    PublicTradesInAnyOrder(gap, order, env.cfg, env.policy);
    WalkAtTheLoop(live, events, env);
    var deadline := HoldingDeadline(gap.start.position.basis);
    AllBeforeDeadline(events, live.through, deadline);
    GapHasTrades(gap);
    InsideIsAfter(gap.inputs.recent.value, gap.since, gap.quote.at);
    if deadline.Some? { TradesAsEvents(order, events, gap.since, deadline.value); }
  }

  lemma {:induction false} InsideIsAfter(trades: seq<Trade>, since: int, until: int)
    ensures forall t :: t in Inside(trades, since, until) ==> since < t.at < until
    decreases |trades|
  {
    if trades != [] { InsideIsAfter(trades[1..], since, until); }
  }

  lemma GapHasTrades(gap: Gap)
    requires SelectTrades(gap).Some?
    ensures gap.inputs.recent.Some?
  {
  }

  /** The latest of the events is the last trade, and all of them come after the start of the gap. */
  lemma TradesAsEvents(order: seq<Trade>, events: seq<Event>, since: int, deadline: int)
    requires Priced(order) && ByTime(order) && TicksIn(events) == TicksOf(order)
    requires forall t :: t in multiset(order) ==> since < t.at
    ensures |events| == |order|
    ensures order != [] ==> since < Last(order).at
    ensures order != [] ==> (Last(order).at < deadline <==> forall e :: e in events ==> e.observedAt < deadline)
  {
    assert |TicksIn(events)| == |TicksOf(order)|;
    if order != [] {
      forall i | 0 <= i < |events| ensures events[i].observedAt == order[i].at <= Last(order).at {
        assert TicksIn(events)[i] == TicksOf(order)[i];
      }
      assert events[|events| - 1] in events && Last(order) in multiset(order);
    }
  }

  // ---------------------------------------------------------------- the recovery of the worker

  /** The recovery the runtime supplies: the causal recovery over whatever inputs were fetched for the tick and the last one processed. */
  function RuntimeRecover(cfg: Config, policy: Option<Policy>, fetch: (int, int, Option<int>) -> Inputs): Recover {
    (now: Protected, since: int, e: Event, anchor: Option<int>) =>
      CausalRecovery(Gap(now, since, Quote(now.position.basis.symbol, e.price, e.observedAt), fetch(e.id, since, anchor)), cfg, policy)
  }

  lemma RuntimeRecoverIsSafe(env: Env, fetch: (int, int, Option<int>) -> Inputs)
    requires env.recover == RuntimeRecover(env.cfg, env.policy, fetch)
    ensures SafeRecover(env)
  {
    hide CausalRecovery;
    forall now, since, e, anchor | env.recover(now, since, e, anchor).Done?
      ensures Tighter(env.recover(now, since, e, anchor).value.now.position, now.position)
    {
      RecoveryNeverLoosens(Gap(now, since, Quote(now.position.basis.symbol, e.price, e.observedAt), fetch(e.id, since, anchor)), env.cfg, env.policy);
    }
  }
}
