/** What one minute bar decides in either recovery, and which recovery is chosen, told from the prices inside the bar. */
module MinuteExactness {
  import opened Common
  import opened Engine
  import opened EngineLaws
  import opened Recovery

  // ---------------------------------------------------------------- a bar against a position

  predicate Within(c: Candle, x: real) {
    c.low <= x <= c.high
  }

  /** A bar makes sense if its prices are positive and lie between its low and its high. */
  lemma SenseExactly(c: Candle)
    ensures ValidCandle(c) <==> c.low > 0.0 && Within(c, c.open) && Within(c, c.close)
  {
  }

  /** Some price inside the bar exits the position. */
  ghost predicate BarTouches(p: Position, c: Candle) {
    exists x :: Within(c, x) && Touched(p, x)
  }

  /** The bar closed on the wrong side of the pinned breakout level, after the opening, and such exits are enabled. */
  predicate LosesBreakout(p: Position, c: Candle, openTime: int, cfg: ConfigData) {
    && p.basis.signalExitEnabled && p.basis.exitPlan.Some? && p.basis.exitPlan.value.breakoutLevel.Some?
    && openTime + cfg.intervalMs > p.basis.openedAt
    && var level := p.basis.exitPlan.value.breakoutLevel.value; if p.basis.side.Long? then c.close <= level else c.close >= level
  }

  /** The extremes of a bar decide for all its prices. */
  lemma ExtremesDecide(p: Position, c: Candle)
    requires ValidCandle(c)
    ensures BarTouches(p, c) <==> StopTouched(p, Adverse(p.basis.side, c)) || TakeTouched(p, Favourable(p.basis.side, c))
  {
    hide NearestLevel;
    assert Within(c, Adverse(p.basis.side, c)) && Within(c, Favourable(p.basis.side, c));
    forall x | Within(c, x) && Touched(p, x) ensures StopTouched(p, Adverse(p.basis.side, c)) || TakeTouched(p, Favourable(p.basis.side, c)) { }
  }

  /**
   A bar exits a position if and only if one of its prices does or its close loses the breakout level. It settles at the
   opening price if that one exits, otherwise at the protective level the bar reaches, otherwise at the take price, and
   only then at the close.
   */
  lemma CandleExitExactly(p: Position, c: Candle, openTime: int, cfg: ConfigData)
    requires ValidCandle(c)
    ensures var r, level := CandleExit(p, c, openTime, cfg), NearestLevel(p);
            && (r.Some? <==> BarTouches(p, c) || LosesBreakout(p, c, openTime, cfg))
            && (r.Some? ==>
                  if Touched(p, c.open) then r == PriceExit(p, c.open, openTime, cfg)
                  else if exists x :: Within(c, x) && StopTouched(p, x) then r.value == Settle(p, level.price, openTime, level.reason, cfg)
                  else if BarTouches(p, c) then r.value == Settle(p, p.basis.takePrice, openTime, TakeProfit, cfg)
                  else r.value == Settle(p, c.close, openTime + cfg.intervalMs, SignalExit, cfg))
  {
    hide NearestLevel, Settle;
    ExtremesDecide(p, c);
    assert Within(c, Adverse(p.basis.side, c)) && Within(c, c.open);
    forall x | Within(c, x) && StopTouched(p, x) ensures StopTouched(p, Adverse(p.basis.side, c)) { }
  }

  /** The level that is nearer to the price, and which of the two it is. */
  lemma NearestExactly(p: Position)
    ensures var level := NearestLevel(p);
            && Favours(p.basis.side, level.price, p.stop) && (p.trailing.Some? ==> Favours(p.basis.side, level.price, p.trailing.value))
            && (level.reason == TrailingStop || level.reason == StopLoss)
            && (level.reason == StopLoss ==> level.price == p.stop)
            && (level.reason == TrailingStop <==> p.trailing.Some? && Behind(p.basis.side, p.stop, p.trailing.value))
            && (level.reason == TrailingStop ==> Some(level.price) == p.trailing)
  {
  }

  // ---------------------------------------------------------------- strict minutes

  /** Closed at the quote, in doubt, as the position stands. */
  predicate ClosedInDoubt(r: Result, gap: Gap, now: Protected, source: Source, ambiguity: Ambiguity, cfg: ConfigData) {
    && r.Done? && r.value.now == now
    && r.value.settlement == Some(Settle(now.position, gap.quote.price, gap.quote.at, RecoveryExit, cfg))
    && r.value.evidence == Evidence(gap.since, gap.quote.at, source, Ambiguous, Some(ambiguity))
  }

  /** The bar of a minute is there, of the position's symbol, and makes sense. */
  predicate Readable(gap: Gap, now: Protected, time: int) {
    time in gap.inputs.minutes && gap.inputs.minutes[time].symbol == now.position.basis.symbol && ValidCandle(gap.inputs.minutes[time])
  }

  predicate LevelsMove(p: Position, q: Position) {
    !(p.stop == q.stop && p.trailing == q.trailing)
  }

  /** The policy counts for a bar only if it was enabled by the bar's beginning. */
  predicate PolicyForBar(policy: Option<Policy>, time: int, during: Option<Policy>) {
    if policy.Some? && policy.value.enabledAt <= time then during == policy else during == None
  }

  /** At and after the quote strict recovery is over, and nothing is settled. */
  lemma StrictEnds(gap: Gap, now: Protected, time: int, quality: Quality, cfg: ConfigData, policy: Option<Policy>)
    requires time >= gap.quote.at
    ensures FromMinutes(gap, now, time, quality, cfg, policy)
         == Done(Recovered(now, None, Evidence(gap.since, gap.quote.at, MinuteOhlc, quality, None)))
  {
  }

  /**
   What strict recovery does with one minute. One that the quote has not closed leaves a doubt; an unreadable one, no
   answer. A readable one leaves a doubt if a price inside it exits, or exits the position as the bar's best price has
   protected it; and before the gap's start also if that price moves a level. Otherwise the bar's best price and its
   close protect, unless the bar began before the gap.
   */
  lemma StrictMinute(gap: Gap, now: Protected, time: int, quality: Quality, cfg: Config, policy: Option<Policy>, during: Option<Policy>)
    requires time < gap.quote.at && PolicyForBar(policy, time, during)
    ensures var r := FromMinutes(gap, now, time, quality, cfg, policy);
            if time + 60000 > gap.quote.at then ClosedInDoubt(r, gap, now, MinuteOhlc, UnobservedMinute, cfg)
            else if !Readable(gap, now, time) then r.Incomplete?
            else
              var c := gap.inputs.minutes[time];
              var best: Price := if now.position.basis.side.Long? then c.high else c.low;
              var top := Advance(now, best, time + 60000, cfg, during);
              if BarTouches(now.position, c) || LosesBreakout(now.position, c, time, cfg)
              then ClosedInDoubt(r, gap, now, MinuteOhlc, if time < gap.since then PartialTouch else HistoricalTrigger, cfg)
              else if time < gap.since && LevelsMove(top.position, now.position) then ClosedInDoubt(r, gap, now, MinuteOhlc, PartialChange, cfg)
              else if time < gap.since then r == FromMinutes(gap, now, time + 60000, BoundedMinutes, cfg, policy)
              else if BarTouches(top.position, c) then ClosedInDoubt(r, gap, now, MinuteOhlc, IntrabarOrder, cfg)
              else r == FromMinutes(gap, Advance(top, c.close, time + 60000, cfg, during), time + 60000, quality, cfg, policy)
  {
    hide Advance, Settle, BarTouches, LosesBreakout, NearestLevel, CandleExit, Touched;
    if Readable(gap, now, time) {
      var c := gap.inputs.minutes[time];
      var best: Price := Favourable(now.position.basis.side, c);
      var top := Advance(now, best, time + 60000, cfg, during);
      UnpinnedTouches(now.position, c, time, cfg);
      CandleExitExactly(Unpinned(now.position), c, time, cfg);
      if !BarTouches(now.position, c) { TopTouches(now, best, time + 60000, cfg, during, c); }
    }
  }

  lemma UnpinnedTouches(p: Position, c: Candle, time: int, cfg: ConfigData)
    ensures BarTouches(Unpinned(p), c) <==> BarTouches(p, c)
    ensures LosesBreakout(Unpinned(p), c, time, cfg) <==> LosesBreakout(p, c, time, cfg)
  {
    assert forall x :: Touched(Unpinned(p), x) <==> Touched(p, x);
  }

  /** Once no price of the bar exits the position, the worst one decides whether any exits it as protected by the best one. */
  lemma TopTouches(q: Protected, best: Price, at: int, cfg: ConfigData, policy: Option<Policy>, c: Candle)
    requires ValidCandle(c) && !BarTouches(q.position, c)
    ensures BarTouches(Advance(q, best, at, cfg, policy).position, c) <==>
              Touched(Advance(q, best, at, cfg, policy).position, Adverse(q.position.basis.side, c))
  {
    hide Advance, NearestLevel;
    AdvanceTightens(q, best, at, cfg, policy);
    var top := Advance(q, best, at, cfg, policy).position;
    ExtremesDecide(q.position, c);
    ExtremesDecide(top, c);
    assert Within(c, Adverse(q.position.basis.side, c));
  }

  // ---------------------------------------------------------------- the earlier minute recovery

  /** The bar lies wholly inside the gap. */
  predicate Inside(gap: Gap, time: int) {
    gap.since <= time && time + 60000 <= gap.quote.at
  }

  lemma LegacyEnds(gap: Gap, now: Position, time: int, last: int, evidence: Evidence, cfg: ConfigData)
    requires time > last
    ensures LegacyFrom(gap, now, time, last, evidence, cfg) == Recovered(Protected(now, gap.start.state), None, evidence)
  {
  }

  /** Closed at the quote with an ambiguity noted. */
  predicate DoubtfulAtQuote(r: Recovered, gap: Gap, now: Position, evidence: Evidence, ambiguity: Ambiguity, cfg: ConfigData) {
    && r.now == Protected(now, gap.start.state) && r.settlement == Some(Settle(now, gap.quote.price, gap.quote.at, RecoveryExit, cfg))
    && r.evidence == evidence.(quality := Ambiguous, ambiguity := Some(ambiguity))
  }

  /**
   What the earlier recovery does with one minute: an exit inside a bar of the gap settles at the bar's own exit, at its
   end; one inside a partial bar, or a partial bar whose best price moves a level, or an order inside the bar that is
   unknown, at the quote. Only a bar wholly inside the gap protects, with its best price and by the strategy alone.
   */
  lemma LegacyMinute(gap: Gap, now: Position, time: int, last: int, evidence: Evidence, cfg: Config)
    requires time <= last && MinutesPresent(gap.inputs.minutes, time, last)
    ensures var r, c := LegacyFrom(gap, now, time, last, evidence, cfg), gap.inputs.minutes[time];
            var best: Price := if now.basis.side.Long? then c.high else c.low;
            var top := Advance(Protected(now, None), best, time + 60000, cfg, None).position;
            if BarTouches(now, c) || LosesBreakout(now, c, time, cfg) then
              if Inside(gap, time)
              then r == Recovered(Protected(now, gap.start.state), Some(CandleExit(now, c, time, cfg).value.(closedAt := time + 60000)), evidence)
              else DoubtfulAtQuote(r, gap, now, evidence, PartialTouch, cfg)
            else if !Inside(gap, time) && LevelsMove(top, now) then DoubtfulAtQuote(r, gap, now, evidence, PartialChange, cfg)
            else if BarTouches(top, c) then DoubtfulAtQuote(r, gap, top, evidence, IntrabarOrder, cfg)
            else r == LegacyFrom(gap, if Inside(gap, time) then top else now, time + 60000, last, evidence, cfg)
  {
    hide Settle, BarTouches, LosesBreakout, NearestLevel, CandleExit, Touched, StrategyStop, StrategyTrailing, Tighten;
    var c := gap.inputs.minutes[time];
    var best: Price := Favourable(now.basis.side, c);
    CandleExitExactly(now, c, time, cfg);
    if !BarTouches(now, c) { TopTouches(Protected(now, None), best, time + 60000, cfg, None, c); }
  }

  /** Every minute from the one of the gap's start to the one before the quote has a bar that makes sense. */
  ghost predicate AllPresent(gap: Gap) {
    forall k :: gap.since / 60000 <= k && k * 60000 < gap.quote.at ==>
      k * 60000 in gap.inputs.minutes && ValidCandle(gap.inputs.minutes[k * 60000])
  }

  lemma {:induction false} PresentIs(minutes: map<int, Candle>, m: int, last: int)
    ensures MinutesPresent(minutes, m * 60000, last * 60000) <==>
              forall k :: m <= k <= last ==> k * 60000 in minutes && ValidCandle(minutes[k * 60000])
    decreases last - m
  {
    hide ValidCandle;
    if m <= last {
      assert (m + 1) * 60000 == m * 60000 + MINUTE;
      PresentIs(minutes, m + 1, last);
    }
  }

  lemma LegacyPresent(gap: Gap)
    requires gap.since < gap.quote.at
    ensures var range := RuntimeRecoveryMinuteRange(gap.since, gap.quote.at);
            MinutesPresent(gap.inputs.minutes, range.start, MinuteOf(range.end)) <==> AllPresent(gap)
  {
    hide MinutesPresent, ValidCandle;
    var m, last := gap.since / 60000, (gap.quote.at - 1) / 60000;
    PresentIs(gap.inputs.minutes, m, last);
    assert forall k :: k <= last <==> k * 60000 < gap.quote.at;
  }

  predicate OnMinute(t: int) {
    t % 60000 == 0
  }

  /** Where the earlier recovery begins and what it notes; without a bar it gives no answer, and over no time it changes nothing. */
  lemma LegacyBegins(gap: Gap, cfg: ConfigData)
    requires !gap.start.position.exitPinned
    ensures var r := LegacyRecovery(gap, cfg);
            var quality := if OnMinute(gap.since) && OnMinute(gap.quote.at) then CompleteMinutes else BoundedMinutes;
            var evidence := Evidence(gap.since, gap.quote.at, MinuteOhlc, quality, None);
            if gap.quote.at < gap.since then r.Incomplete?
            else if gap.quote.at == gap.since then r == Done(Recovered(gap.start, None, evidence))
            else if !AllPresent(gap) then r.Incomplete?
            else
              var first, last := gap.since / 60000 * 60000, (gap.quote.at - 1) / 60000 * 60000;
              MinutesPresent(gap.inputs.minutes, first, last) && r == Done(LegacyFrom(gap, gap.start.position, first, last, evidence, cfg))
  {
    hide LegacyFrom, AllPresent, MinutesPresent;
    if gap.since < gap.quote.at { LegacyPresent(gap); }
  }

  /** With a pinned exit policy the earlier recovery answers as without it, but settles only at the quote, as an unknown order. */
  lemma LegacyPinned(gap: Gap, cfg: ConfigData)
    requires gap.start.position.exitPinned
    ensures var r, plain := LegacyRecovery(gap, cfg), LegacyRecovery(gap.(start := gap.start.(position := gap.start.position.(exitPinned := false))), cfg);
            && (r.Done? <==> plain.Done?)
            && (r.Done? ==>
                  var now := plain.value.now.(position := plain.value.now.position.(exitPinned := true));
                  && r.value.now == now && (r.value.settlement.Some? <==> plain.value.settlement.Some?)
                  && if r.value.settlement.None? then r.value.evidence == plain.value.evidence
                     else
                       && r.value.settlement == Some(Settle(now.position, gap.quote.price, gap.quote.at, RecoveryExit, cfg))
                       && r.value.evidence == plain.value.evidence.(quality := Ambiguous, ambiguity := Some(IntrabarOrder)))
  {
    hide LegacyUnpinned, Settle;
  }

  // ---------------------------------------------------------------- the choice

  /** Which recovery answers for a gap that no trades cover, and what a quote at the gap's very start means. */
  lemma WithoutTrades(gap: Gap, cfg: Config, policy: Option<Policy>)
    requires SelectTrades(gap).None?
    ensures var r := CausalRecovery(gap, cfg, policy);
            if gap.quote.at < gap.since then r.Incomplete?
            else if gap.inputs.strict && gap.quote.at == gap.since then ClosedInDoubt(r, gap, gap.start, MinuteOhlc, SameTimestamp, cfg)
            else if gap.inputs.strict then r == FromMinutes(gap, gap.start, gap.since / 60000 * 60000, CompleteMinutes, cfg, policy)
            else if gap.quote.at == gap.since then r == Done(Recovered(gap.start, None, Evidence(gap.since, gap.quote.at, MinuteOhlc, CompleteMinutes, None)))
            else r == LegacyRecovery(gap, cfg)
  {
    hide FromMinutes, LegacyRecovery, Settle, SelectTrades;
  }
}
