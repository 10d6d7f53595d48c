/** In every run, as long as the position is open, none of its peaks has reached the take price. */
module PeakInvariant {
  import opened Common
  import opened Engine
  import opened EngineLaws
  import opened Recovery
  import opened TradeRecoveryLaws
  import opened MinuteRecoveryLaws
  import opened RecoveryTheorems
  import opened TickProcessor
  import opened TickProcessorLaws
  import opened BatchLaws
  import opened RuntimeTheorems

  /** A position begins with its entry price as its peak and no policy state. */
  lemma OpensBeforeTake(b: Basis, pinned: bool, stop: real)
    ensures PeaksBeforeTake(Protected(Position(b, pinned, b.entryPrice, stop, None), None))
  {
  }

  /** A price that does not exit is a step that keeps it so. */
  lemma StepKeepsPeaks(q: Protected, price: Price, at: int, cfg: ConfigData, policy: Option<Policy>)
    requires PeaksBeforeTake(q) && !Touched(q.position, price)
    ensures PeaksBeforeTake(Advance(q, price, at, cfg, policy))
  {
    hide Advance, StopTouched;
    PeaksStayBeforeTake(q, price, at, cfg, policy);
  }

  lemma {:induction false} WalkKeepsPeaks(q: Protected, ticks: seq<Tick>, cfg: ConfigData, policy: Option<Policy>)
    requires PeaksBeforeTake(q) && Follow(q, ticks, cfg, policy).Open?
    ensures PeaksBeforeTake(Follow(q, ticks, cfg, policy).now)
    decreases |ticks|
  {
    hide Advance, Touched, PeaksBeforeTake;
    if ticks != [] {
      StepKeepsPeaks(q, ticks[0].price, ticks[0].at, cfg, policy);
      WalkKeepsPeaks(Advance(q, ticks[0].price, ticks[0].at, cfg, policy), ticks[1..], cfg, policy);
    }
  }

  // ---------------------------------------------------------------- recovery

  predicate QuietEnd(r: Result) {
    r.Done? && r.value.settlement.None?
  }

  lemma {:induction false} TradesKeepPeaks(gap: Gap, now: Protected, trades: seq<Trade>, cfg: ConfigData, policy: Option<Policy>)
    requires Priced(trades) && PeaksBeforeTake(now) && QuietEnd(FromTrades(gap, now, trades, cfg, policy))
    ensures PeaksBeforeTake(FromTrades(gap, now, trades, cfg, policy).value.now)
    decreases |trades|
  {
    hide Advance, PeaksBeforeTake, FromTrades, AnyTouched;
    if trades == [] {
      NoTrades(gap, now, cfg, policy);
    } else {
      QuietInstant(gap, now, trades, cfg, policy);
      var group := FirstOf(trades);
      var best := BestPrice(now.position.basis.side, group);
      var top :| top in group && top.price == best;
      NoneTouched(now.position, group, top);
      StepKeepsPeaks(now, best, group[0].at, cfg, policy);
      TradesKeepPeaks(gap, AfterInstant(now, group, cfg, policy), RestOf(trades), cfg, policy);
    }
  }

  /** A bar that exits nothing is a step to its extreme and, if it is complete, one to its close. */
  lemma BarKeepsPeaks(q: Protected, c: Candle, end: int, cfg: ConfigData, during: Option<Policy>)
    requires PeaksBeforeTake(q) && ValidCandle(c) && !TakeTouched(q.position, Favourable(q.position.basis.side, c))
    ensures var u := Advance(q, Favourable(q.position.basis.side, c), end, cfg, during);
            PeaksBeforeTake(u) && PeaksBeforeTake(Advance(u, c.close, end, cfg, during))
  {
    hide Advance, StopTouched;
    var top: Price := Favourable(q.position.basis.side, c);
    var u := Advance(q, top, end, cfg, during);
    AdvanceTightens(q, top, end, cfg, during);
    PeaksStayBeforeTake(q, top, end, cfg, during);
    PeaksStayBeforeTake(u, c.close, end, cfg, during);
  }

  lemma {:induction false} MinutesKeepPeaks(gap: Gap, now: Protected, time: int, quality: Quality, cfg: Config, policy: Option<Policy>)
    requires PeaksBeforeTake(now) && QuietEnd(FromMinutes(gap, now, time, quality, cfg, policy))
    ensures PeaksBeforeTake(FromMinutes(gap, now, time, quality, cfg, policy).value.now)
    decreases gap.quote.at - time
  {
    hide Advance, PeaksBeforeTake, FromMinutes, StopTouched, TakeTouched, SameLevels;
    if time < gap.quote.at {
      QuietStep(gap, now, time, quality, cfg, policy);
      var c, during, end := gap.inputs.minutes[time], PolicyThroughout(policy, time), time + MINUTE;
      BarKeepsPeaks(now, c, end, cfg, during);
      if time < gap.since {
        MinutesKeepPeaks(gap, now, end, BoundedMinutes, cfg, policy);
      } else {
        var u := Advance(now, Favourable(now.position.basis.side, c), end, cfg, during);
        MinutesKeepPeaks(gap, Advance(u, c.close, end, cfg, during), end, quality, cfg, policy);
      }
    } else {
      NoMinutesLeft(gap, now, time, quality, cfg, policy);
    }
  }

  lemma NoMinutesLeft(gap: Gap, now: Protected, time: int, quality: Quality, cfg: ConfigData, policy: Option<Policy>)
    requires time >= gap.quote.at
    ensures FromMinutes(gap, now, time, quality, cfg, policy).Done? && FromMinutes(gap, now, time, quality, cfg, policy).value.now == now
  {
  }

  lemma {:induction false} LegacyKeepsPeaks(gap: Gap, now: Position, time: int, last: int, evidence: Evidence, cfg: Config)
    requires MinutesPresent(gap.inputs.minutes, time, last) && PeaksBeforeTake(Protected(now, gap.start.state))
    requires LegacyFrom(gap, now, time, last, evidence, cfg).settlement.None?
    ensures PeaksBeforeTake(LegacyFrom(gap, now, time, last, evidence, cfg).now)
    decreases last - time
  {
    hide Advance, UpdateProtection, PeaksBeforeTake, LegacyFrom, StopTouched, TakeTouched, SameLevels;
    if time <= last {
      QuietLegacyStep(gap, now, time, last, evidence, cfg);
      var c, q := gap.inputs.minutes[time], Protected(now, gap.start.state);
      BarKeepsPeaks(q, c, time + MINUTE, cfg, None);
      OwnStep(q, Favourable(now.basis.side, c), time + MINUTE, cfg);
      LegacyKeepsPeaks(gap, if Complete(gap, time) then UpdateProtection(now, Favourable(now.basis.side, c), cfg, cfg.exit) else now,
                       time + MINUTE, last, evidence, cfg);
    } else {
      NoLegacyLeft(gap, now, time, last, evidence, cfg);
    }
  }

  lemma NoLegacyLeft(gap: Gap, now: Position, time: int, last: int, evidence: Evidence, cfg: ConfigData)
    requires time > last
    ensures LegacyFrom(gap, now, time, last, evidence, cfg).now == Protected(now, gap.start.state)
  {
  }

  lemma LegacyUnpinnedKeepsPeaks(gap: Gap, cfg: Config)
    requires PeaksBeforeTake(gap.start) && QuietEnd(LegacyUnpinned(gap, cfg))
    ensures PeaksBeforeTake(LegacyUnpinned(gap, cfg).value.now)
  {
    hide LegacyFrom, MinutesPresent, PeaksBeforeTake;
    if gap.quote.at != gap.since {
      var range := RuntimeRecoveryMinuteRange(gap.since, gap.quote.at);
      var quality := if gap.since % MINUTE == 0 && gap.quote.at % MINUTE == 0 then CompleteMinutes else BoundedMinutes;
      LegacyKeepsPeaks(gap, gap.start.position, range.start, MinuteOf(range.end), Evidence(gap.since, gap.quote.at, MinuteOhlc, quality, None), cfg);
    }
  }

  lemma LegacyRecoveryKeepsPeaks(gap: Gap, cfg: Config)
    requires PeaksBeforeTake(gap.start) && QuietEnd(LegacyRecovery(gap, cfg))
    ensures PeaksBeforeTake(LegacyRecovery(gap, cfg).value.now)
  {
    hide LegacyUnpinned, Settle;
    if gap.start.position.exitPinned {
      LegacyUnpinnedKeepsPeaks(gap.(start := gap.start.(position := Unpinned(gap.start.position))), cfg);
    } else {
      LegacyUnpinnedKeepsPeaks(gap, cfg);
    }
  }

  /** Whatever a recovery reads, if it does not exit, the peaks that it adopts have not reached the take price. */
  lemma RecoveryKeepsPeaks(gap: Gap, cfg: Config, policy: Option<Policy>)
    requires PeaksBeforeTake(gap.start) && QuietEnd(CausalRecovery(gap, cfg, policy))
    ensures PeaksBeforeTake(CausalRecovery(gap, cfg, policy).value.now)
  {
    hide FromMinutes, FromTrades, LegacyRecovery, Settle, PeaksBeforeTake, SelectTrades;
    SelectedArePriced(gap);
    if SelectTrades(gap).Some? {
      TradesKeepPeaks(gap, gap.start, SelectTrades(gap).value, cfg, policy);
    } else if gap.quote.at != gap.since && gap.inputs.strict {
      MinutesKeepPeaks(gap, gap.start, MinuteOf(gap.since), CompleteMinutes, cfg, policy);
    } else if gap.quote.at != gap.since {
      LegacyRecoveryKeepsPeaks(gap, cfg);
    }
  }

  // ---------------------------------------------------------------- the loop

  /** Every recovery the loop can ask for keeps it so unless it closes the position. */
  ghost predicate PeakSafe(env: Env) {
    forall now, since, e, anchor ::
      PeaksBeforeTake(now) && QuietEnd(env.recover(now, since, e, anchor)) ==> PeaksBeforeTake(env.recover(now, since, e, anchor).value.now)
  }

  lemma RuntimeRecoverIsPeakSafe(env: Env, fetch: (int, int, Option<int>) -> Inputs)
    requires env.recover == RuntimeRecover(env.cfg, env.policy, fetch)
    ensures PeakSafe(env)
  {
    hide CausalRecovery, PeaksBeforeTake;
    forall now, since, e, anchor | PeaksBeforeTake(now) && QuietEnd(env.recover(now, since, e, anchor))
      ensures PeaksBeforeTake(env.recover(now, since, e, anchor).value.now)
    {
      RecoveryKeepsPeaks(Gap(now, since, Quote(now.position.basis.symbol, e.price, e.observedAt), fetch(e.id, since, anchor)), env.cfg, env.policy);
    }
  }

  lemma TickKeepsPeaks(live: Live, e: Event, env: Env, gap: Option<GapNote>)
    requires PeaksBeforeTake(live.now)
    ensures var s := TakeTick(live, e, env, gap); s.Stepped? && s.settlement.None? ==> PeaksBeforeTake(s.live.now)
  {
    hide Advance, Settle, ScanSignals, HoldingExit, Touched, PeaksBeforeTake;
    if !Touched(live.now.position, e.price) { StepKeepsPeaks(live.now, e.price, e.observedAt, env.cfg, env.policy); }
  }

  /** Over every run of the loop, recoveries of gaps included, as long as it ends open. */
  lemma {:induction false} RunKeepsPeaks(live: Live, events: seq<Event>, env: Env)
    requires PeaksBeforeTake(live.now) && PeakSafe(env)
    ensures !Ended(Fold(live, events, env)) ==> PeaksBeforeTake(Fold(live, events, env).live.now)
    decreases |events|
  {
    hide StepOn, PreOpen, PeaksBeforeTake, PeakSafe;
    if events != [] {
      if PreOpen(live, events[0]) {
        RunKeepsPeaks(live, events[1..], env);
      } else {
        StepOnKeepsPeaks(live, events[0], env);
        var s := StepOn(live, events[0], env);
        if s.Stepped? && s.settlement.None? { RunKeepsPeaks(s.live, events[1..], env); }
      }
    }
  }

  lemma StepOnKeepsPeaks(live: Live, e: Event, env: Env)
    requires PeaksBeforeTake(live.now) && PeakSafe(env)
    ensures var s := StepOn(live, e, env); s.Stepped? && s.settlement.None? ==> PeaksBeforeTake(s.live.now)
  {
    hide TakeTick, PeaksBeforeTake;
    TickKeepsPeaks(live, e, env, None);
    if StreamChanged(live, e) {
      var r := env.recover(live.now, live.through, e.(observedAt := QuoteAt(live, e)), live.anchor);
      if QuietEnd(r) {
        TickKeepsPeaks(live.(now := r.value.now), e, env,
                       Some(GapNote(if live.stream.None? then UnconfirmedStream else StreamChange, r.value.evidence)));
      }
    }
  }
}
