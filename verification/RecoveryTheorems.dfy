/** What a recovery promises to the rest of the runtime. */
module RecoveryTheorems {
  import opened Common
  import opened Engine
  import opened EngineLaws
  import opened Recovery
  import opened TradeRecoveryLaws
  import opened MinuteRecoveryLaws

  lemma InStepWithItself(q: Protected, cfg: ConfigData, policy: Option<Policy>, on: bool)
    requires on ==> policy.Some?
    ensures InStep(q, q, cfg, policy, on)
  {
    hide HoldsOwn, HoldsExtra;
  }

  /**
   Strict minutes: if recovery neither exits nor fails and no bar of the gap is split by the policy's switch, no price
   path inside the bars exits tick by tick, and every such path ends with exactly the recovered stop and trailing level.
   */
  lemma StrictMinutesAreSound(gap: Gap, path: Path, cfg: Config, policy: Option<Policy>)
    requires gap.inputs.strict && SelectTrades(gap).None?
    requires gap.start.position.basis.openedAt <= gap.since
    requires PeaksBeforeTake(gap.start)
    requires !SplitsBar(gap.since, gap.quote.at, policy)
    requires FitsFrom(gap, path, MinuteOf(gap.since))
    requires CausalRecovery(gap, cfg, policy).Done? && CausalRecovery(gap, cfg, policy).value.settlement.None?
    ensures var walk := Follow(gap.start, Ticks(path, MinuteOf(gap.since), gap.quote.at), cfg, policy);
            walk.Open? && SameLevels(CausalRecovery(gap, cfg, policy).value.now.position, walk.now.position)
  {
    hide Advance, FromMinutes, FromTrades, LegacyRecovery, Follow, FitsFrom, SelectTrades;
    InStepWithItself(gap.start, cfg, policy, OnFrom(policy, MinuteOf(gap.since)));
    MinutesAreSound(gap, gap.start, gap.start, MinuteOf(gap.since), CompleteMinutes, path, cfg, policy);
  }

  /**
   The earlier minute recovery, partial bars included: while the additional policy is off until the quote, no path
   inside the bars exits or moves a level that was not adopted, although the peak of a partial bar is discarded.
   The recovery itself never reads the policy.
   */
  lemma LegacyMinutesAreSound(gap: Gap, path: Path, cfg: Config, policy: Option<Policy>)
    requires gap.since < gap.quote.at
    requires gap.start.position.basis.openedAt <= gap.since
    requires PeaksBeforeTake(gap.start)
    requires policy.None? || policy.value.enabledAt >= gap.quote.at
    requires FitsFrom(gap, path, MinuteOf(gap.since))
    requires LegacyRecovery(gap, cfg).Done? && LegacyRecovery(gap, cfg).value.settlement.None?
    ensures var walk := Follow(gap.start, Ticks(path, MinuteOf(gap.since), gap.quote.at), cfg, policy);
            walk.Open? && SameLevels(LegacyRecovery(gap, cfg).value.now.position, walk.now.position)
  {
    hide Follow, LegacyFrom, MinutesPresent, Settle, FitsFrom;
    var loose := gap.(start := gap.start.(position := Unpinned(gap.start.position)));
    SameFit(gap, loose, path, MinuteOf(gap.since));
    UnpinnedInStep(gap.start, cfg);
    var quality := if gap.since % MINUTE == 0 && gap.quote.at % MINUTE == 0 then CompleteMinutes else BoundedMinutes;
    LegacyIsSound(loose, loose.start, gap.start, MinuteOf(gap.since),
                  Evidence(gap.since, gap.quote.at, MinuteOhlc, quality, None), path, cfg);
    TicksInGap(gap, path, MinuteOf(gap.since));
    InactiveChangesNothing(gap.start, Ticks(path, MinuteOf(gap.since), gap.quote.at), cfg, policy);
  }

  predicate AllWithin(ticks: seq<Tick>, since: int, end: int) {
    forall i :: 0 <= i < |ticks| ==> since <= ticks[i].at < end
  }

  /** Where every minute is present, the ticks of a fitting path lie in the gap. */
  lemma {:induction false} TicksInGap(gap: Gap, path: Path, time: int)
    requires FitsFrom(gap, path, time) && MinutesPresent(gap.inputs.minutes, time, MinuteOf(gap.quote.at - 1)) && time % MINUTE == 0
    ensures AllWithin(Ticks(path, time, gap.quote.at), gap.since, gap.quote.at)
    decreases gap.quote.at - time
  {
    if time < gap.quote.at {
      assert time <= MinuteOf(gap.quote.at - 1);
      assert FitsMinute(gap, path(time), time);
      TicksInGap(gap, path, time + MINUTE);
    }
  }

  lemma {:induction false} InactiveChangesNothing(q: Protected, ticks: seq<Tick>, cfg: ConfigData, policy: Option<Policy>)
    requires forall i :: 0 <= i < |ticks| ==> !PolicyActive(q.position.basis, policy, ticks[i].at)
    ensures Follow(q, ticks, cfg, policy) == Follow(q, ticks, cfg, None)
    decreases |ticks|
  {
    hide StrategyStop, StrategyTrailing, Touched;
    if ticks != [] && !Touched(q.position, ticks[0].price) {
      var next := Advance(q, ticks[0].price, ticks[0].at, cfg, policy);
      assert next == Advance(q, ticks[0].price, ticks[0].at, cfg, None);
      AdvanceTightens(q, ticks[0].price, ticks[0].at, cfg, policy);
      InactiveChangesNothing(next, ticks[1..], cfg, policy);
    }
  }

  lemma UnpinnedInStep(q: Protected, cfg: ConfigData)
    ensures InStep(q.(position := Unpinned(q.position)), q, cfg, None, false)
  {
  }

  lemma SameFit(gap: Gap, loose: Gap, path: Path, time: int)
    requires loose == gap.(start := loose.start) && loose.start.position.basis == gap.start.position.basis
    ensures FitsFrom(loose, path, time) == FitsFrom(gap, path, time)
    decreases gap.quote.at - time
  {
    if time < gap.quote.at { SameFit(gap, loose, path, time + MINUTE); }
  }

  // ---------------------------------------------------------------- what is read, what is kept

  /** No data after the last closed minute can influence the strict result. */
  lemma {:induction false} OnlyClosedMinutes(gap: Gap, other: Gap, now: Protected, time: int, quality: Quality, cfg: ConfigData, policy: Option<Policy>)
    requires other == gap.(inputs := other.inputs)
    requires forall t :: t + MINUTE <= gap.quote.at ==>
               (t in gap.inputs.minutes <==> t in other.inputs.minutes)
               && (t in gap.inputs.minutes ==> gap.inputs.minutes[t] == other.inputs.minutes[t])
    ensures FromMinutes(gap, now, time, quality, cfg, policy) == FromMinutes(other, now, time, quality, cfg, policy)
    decreases gap.quote.at - time
  {
    hide Advance, CandleExit, Settle, Touched;
    if time < gap.quote.at && time + MINUTE <= gap.quote.at && time in gap.inputs.minutes {
      var c, during := gap.inputs.minutes[time], PolicyThroughout(policy, time);
      if ValidCandle(c) {
        var updated := Advance(now, Favourable(now.position.basis.side, c), time + MINUTE, cfg, during);
        OnlyClosedMinutes(gap, other, now, time + MINUTE, BoundedMinutes, cfg, policy);
        OnlyClosedMinutes(gap, other, Advance(updated, c.close, time + MINUTE, cfg, during), time + MINUTE, quality, cfg, policy);
      }
    }
  }

  lemma StrictReadsOnlyClosedMinutes(gap: Gap, minutes: map<int, Candle>, cfg: ConfigData, policy: Option<Policy>)
    requires gap.inputs.strict && SelectTrades(gap).None?
    requires forall t :: t + MINUTE <= gap.quote.at ==>
               (t in gap.inputs.minutes <==> t in minutes) && (t in minutes ==> gap.inputs.minutes[t] == minutes[t])
    ensures CausalRecovery(gap, cfg, policy) == CausalRecovery(gap.(inputs := gap.inputs.(minutes := minutes)), cfg, policy)
  {
    hide FromMinutes, FromTrades;
    var other := gap.(inputs := gap.inputs.(minutes := minutes));
    assert SelectTrades(other) == SelectTrades(gap);
    OnlyClosedMinutes(gap, other, gap.start, MinuteOf(gap.since), CompleteMinutes, cfg, policy);
  }

  lemma {:induction false} TradesNeverLoosen(gap: Gap, now: Protected, trades: seq<Trade>, cfg: ConfigData, policy: Option<Policy>)
    requires Priced(trades)
    ensures FromTrades(gap, now, trades, cfg, policy).Done? && Tighter(FromTrades(gap, now, trades, cfg, policy).value.now.position, now.position)
    decreases |trades|
  {
    hide Advance, Settle, Touched, RunLength;
    if trades != [] {
      var n := RunLength(trades);
      var next := AfterInstant(now, trades[..n], cfg, policy);
      AdvanceTightens(now, BestPrice(now.position.basis.side, trades[..n]), trades[0].at, cfg, policy);
      TradesNeverLoosen(gap, next, trades[n..], cfg, policy);
    }
  }

  lemma {:induction false} MinutesNeverLoosen(gap: Gap, now: Protected, time: int, quality: Quality, cfg: ConfigData, policy: Option<Policy>)
    ensures FromMinutes(gap, now, time, quality, cfg, policy).Done? ==>
              Tighter(FromMinutes(gap, now, time, quality, cfg, policy).value.now.position, now.position)
    decreases gap.quote.at - time
  {
    hide Advance, Settle, Touched, CandleExit;
    if time < gap.quote.at && time in gap.inputs.minutes && ValidCandle(gap.inputs.minutes[time]) {
      var c, during := gap.inputs.minutes[time], PolicyThroughout(policy, time);
      var top := Favourable(now.position.basis.side, c);
      var updated := Advance(now, top, time + MINUTE, cfg, during);
      var closed := Advance(updated, c.close, time + MINUTE, cfg, during);
      AdvanceTightens(now, top, time + MINUTE, cfg, during);
      AdvanceTightens(updated, c.close, time + MINUTE, cfg, during);
      MinutesNeverLoosen(gap, now, time + MINUTE, BoundedMinutes, cfg, policy);
      MinutesNeverLoosen(gap, closed, time + MINUTE, quality, cfg, policy);
    }
  }

  lemma {:induction false} LegacyNeverLoosens(gap: Gap, now: Position, time: int, last: int, evidence: Evidence, cfg: ConfigData)
    requires MinutesPresent(gap.inputs.minutes, time, last)
    ensures Tighter(LegacyFrom(gap, now, time, last, evidence, cfg).now.position, now)
    decreases last - time
  {
    hide Advance, UpdateProtection, Settle, Touched, CandleExit;
    if time <= last {
      var c := gap.inputs.minutes[time];
      var top := Favourable(now.basis.side, c);
      OwnStep(Protected(now, None), top, time, cfg);
      AdvanceTightens(Protected(now, None), top, time, cfg, None);
      LegacyNeverLoosens(gap, UpdateProtection(now, top, cfg, cfg.exit), time + MINUTE, last, evidence, cfg);
      LegacyNeverLoosens(gap, now, time + MINUTE, last, evidence, cfg);
    }
  }

  lemma LegacyRecoveryNeverLoosens(gap: Gap, cfg: ConfigData)
    requires LegacyRecovery(gap, cfg).Done?
    ensures Tighter(LegacyRecovery(gap, cfg).value.now.position, gap.start.position)
  {
    hide LegacyUnpinned, Settle;
    LegacyUnpinnedNeverLoosens(gap, cfg);
    LegacyUnpinnedNeverLoosens(gap.(start := gap.start.(position := Unpinned(gap.start.position))), cfg);
  }

  /** No recovery ever weakens a level, whatever it was given and whether or not it exits. */
  lemma RecoveryNeverLoosens(gap: Gap, cfg: ConfigData, policy: Option<Policy>)
    requires CausalRecovery(gap, cfg, policy).Done?
    ensures Tighter(CausalRecovery(gap, cfg, policy).value.now.position, gap.start.position)
  {
    hide FromMinutes, FromTrades, LegacyRecovery, Settle;
    SelectedArePriced(gap);
    if SelectTrades(gap).Some? {
      TradesNeverLoosen(gap, gap.start, SelectTrades(gap).value, cfg, policy);
    } else if gap.inputs.strict {
      MinutesNeverLoosen(gap, gap.start, MinuteOf(gap.since), CompleteMinutes, cfg, policy);
    } else if gap.quote.at != gap.since {
      LegacyRecoveryNeverLoosens(gap, cfg);
    }
  }

  lemma LegacyUnpinnedNeverLoosens(gap: Gap, cfg: ConfigData)
    ensures LegacyUnpinned(gap, cfg).Done? ==> Tighter(LegacyUnpinned(gap, cfg).value.now.position, gap.start.position)
  {
    hide LegacyFrom, Settle;
    var range := RuntimeRecoveryMinuteRange(gap.since, gap.quote.at);
    if MinutesPresent(gap.inputs.minutes, range.start, MinuteOf(range.end)) {
      forall quality {
        LegacyNeverLoosens(gap, gap.start.position, range.start, MinuteOf(range.end),
                           Evidence(gap.since, gap.quote.at, MinuteOhlc, quality, None), cfg);
      }
    }
  }
}
