/**
 Laws of the protection step: levels are joins of monotone functions of the peak, so a step never
 loosens them, absorbs less favourable prices, and can only bring exits nearer.
 */
module EngineLaws {
  import opened Common
  import opened Engine

  /** The last tick strictly behind a price, in whole ticks: the tightest trailing level the price could justify. */
  function LastTick(side: Side, price: real, tick: Price): int {
    if side.Long? then CeilUnits(price, tick) - 1 else FloorUnits(price, tick) + 1
  }

  /**
   The price has not reached the take price. With pinned limits that keeps every level behind it inside them, because
   the take price itself was checked when the position was opened; without them there is nothing to keep.
   */
  predicate BeforeTake(b: Basis, price: real) {
    b.rules.Some? ==> Behind(b.side, price, b.takePrice)
  }

  predicate PeaksBeforeTake(q: Protected) {
    BeforeTake(q.position.basis, q.position.best)
    && (q.state.Some? ==> BeforeTake(q.position.basis, q.state.value.best))
  }

  /** The last tick behind a price that has not reached the take price is within the instrument's limit. */
  lemma LastTickWithin(b: Basis, price: real, edge: real)
    requires b.rules.Some? && BeforeTake(b, price) && edge == LastTick(b.side, price, b.rules.value.tick) as real * b.rules.value.tick
    ensures if b.side.Long? then edge <= b.rules.value.maxPrice else edge >= b.rules.value.minPrice
  {
    hide CeilUnits, FloorUnits, RoundStep;
    var tick, max, min := b.rules.value.tick, b.rules.value.maxPrice, b.rules.value.minPrice;
    assert min <= b.takePrice <= max;
    if b.side.Long? {
      CeilUnitsBounds(price, tick);
      assert edge < price < b.takePrice;
    } else {
      FloorUnitsBounds(price, tick);
      assert edge > price > b.takePrice;
    }
  }

  /** Same position, levels and peaks at least as tight. */
  predicate Tighter(p: Position, q: Position) {
    && p.basis == q.basis
    && Favours(p.basis.side, p.best, q.best)
    && Favours(p.basis.side, p.stop, q.stop)
    && FavoursOpt(p.basis.side, p.trailing, q.trailing)
  }

  // ---------------------------------------------------------------- what a price exit settles

  lemma SlipsAgainst(b: Basis, price: Price, raw: real, cfg: ConfigData)
    requires Favours(b.side, price, raw)
    ensures Favours(b.side, price, SlippedPrice(b, raw, cfg))
  {
    hide FloorUnits, CeilUnits;
    var share, slipped := SlipShare(b.side, cfg), Slipped(b.side, raw, cfg);
    if b.side.Long? {
      if raw > 0.0 { MulOrder(share, 1.0, raw); } else { MulOrder(raw, 0.0, share); }
    } else {
      MulOrder(1.0, share, raw);
    }
    assert Favours(b.side, price, slipped);
    if b.rules.Some? {
      FloorUnitsBounds(slipped, b.rules.value.tick);
      CeilUnitsBounds(slipped, b.rules.value.tick);
    }
  }

  /**
   A price exits at a protective level whenever it has reached one, the trailing level being the reason exactly if it is
   the tighter one; it takes profit only beyond both, at the take price unless the exit policy is pinned. No exit is
   better than the price that caused it.
   */
  lemma PriceExitSettles(p: Position, price: Price, at: int, cfg: ConfigData)
    ensures var side, r := p.basis.side, PriceExit(p, price, at, cfg);
            var stop := Favours(side, p.stop, price);
            var trail := p.trailing.Some? && Favours(side, p.trailing.value, price);
            && (r.Some? <==> stop || trail || Favours(side, price, p.basis.takePrice))
            && (r.Some? ==>
                  && r.value.closedAt == at
                  && (r.value.reason == TakeProfit <==> !stop && !trail)
                  && (r.value.reason == TrailingStop <==> trail && Behind(side, p.stop, p.trailing.value))
                  && (r.value.reason == StopLoss <==> stop && (p.trailing.Some? ==> !Behind(side, p.stop, p.trailing.value)))
                  && r.value.exitPrice == SlippedPrice(p.basis, if stop || trail || p.exitPinned then price else p.basis.takePrice, cfg)
                  && Favours(side, price, r.value.exitPrice))
  {
    hide SlippedPrice;
    SlipsAgainst(p.basis, price, price, cfg);
    if Favours(p.basis.side, price, p.basis.takePrice) { SlipsAgainst(p.basis, price, p.basis.takePrice, cfg); }
  }

  // ---------------------------------------------------------------- monotone levels

  /** On the tick grid a normalised trailing level is the nearer of the rounded level and the last tick behind the peak. */
  function GridUnits(v: real, peak: Price, side: Side, tick: Price): int {
    if side.Long? then Min(CeilUnits(v, tick), LastTick(side, peak, tick))
    else Max(FloorUnits(v, tick), LastTick(side, peak, tick))
  }

  lemma BehindPeakUnits(v: real, peak: Price, side: Side, tick: Price)
    ensures BehindPeak(v, peak, side, tick) == GridUnits(v, peak, side, tick) as real * tick
    ensures Behind(side, BehindPeak(v, peak, side, tick), peak)
  {
    hide BehindPeak, GridUnits;
    if side.Long? { BehindPeakLong(v, peak, tick); } else { BehindPeakShort(v, peak, tick); }
  }

  lemma BehindPeakLong(v: real, peak: Price, tick: Price)
    ensures BehindPeak(v, peak, Long, tick) == GridUnits(v, peak, Long, tick) as real * tick < peak
  {
    hide CeilUnits, FloorUnits;
    var near, top := CeilUnits(v, tick), CeilUnits(peak, tick);
    UnitsAreExtreme(peak, tick, near);
    UnitsAreExtreme(peak, tick, top - 1);
    UnitsAdjoin(peak, tick);
    StepBack(top, tick);
  }

  lemma BehindPeakShort(v: real, peak: Price, tick: Price)
    ensures BehindPeak(v, peak, Short, tick) == GridUnits(v, peak, Short, tick) as real * tick > peak
  {
    hide CeilUnits, FloorUnits;
    var near, bottom := FloorUnits(v, tick), FloorUnits(peak, tick);
    UnitsAreExtreme(peak, tick, near);
    UnitsAreExtreme(peak, tick, bottom + 1);
    UnitsAdjoin(peak, tick);
    StepBack(bottom + 1, tick);
  }

  lemma StepBack(k: int, tick: Price)
    ensures (k - 1) as real * tick == k as real * tick - tick
  {
    var x := k as real;
    assert (k - 1) as real == x - 1.0;
    assert (x - 1.0) * tick == x * tick - tick;
  }

  lemma NormalizeOnGrid(v: real, peak: Price, side: Side, rules: Rules)
    ensures var level := BehindPeak(v, peak, side, rules.tick);
            NormalizeTrailing(v, peak, side, rules) ==
            if v > 0.0 && Behind(side, v, peak) && rules.minPrice <= level <= rules.maxPrice
            then Some(level) else None
  {
    hide BehindPeak, RoundStep, GridUnits;
    BehindPeakUnits(v, peak, side, rules.tick);
    GridValue(BehindPeak(v, peak, side, rules.tick), GridUnits(v, peak, side, rules.tick), rules.tick);
  }

  lemma GridUnitsMonotone(v: real, peak: Price, w: real, top: Price, side: Side, tick: Price)
    requires Favours(side, w, v) && Favours(side, top, peak)
    ensures side.Long? ==> GridUnits(v, peak, side, tick) <= GridUnits(w, top, side, tick)
    ensures side.Short? ==> GridUnits(w, top, side, tick) <= GridUnits(v, peak, side, tick)
  {
    if side.Long? {
      UnitsMonotone(v, w, tick);
      UnitsMonotone(peak, top, tick);
    } else {
      UnitsMonotone(w, v, tick);
      UnitsMonotone(top, peak, tick);
    }
  }

  lemma BehindPeakMonotone(v: real, peak: Price, w: real, top: Price, side: Side, tick: Price)
    requires Favours(side, w, v) && Favours(side, top, peak)
    ensures Favours(side, BehindPeak(w, top, side, tick), BehindPeak(v, peak, side, tick))
  {
    hide BehindPeak, FloorUnits, CeilUnits;
    BehindPeakUnits(v, peak, side, tick);
    BehindPeakUnits(w, top, side, tick);
    GridUnitsMonotone(v, peak, w, top, side, tick);
    var x, y := BehindPeak(v, peak, side, tick), BehindPeak(w, top, side, tick);
    var k, m := GridUnits(v, peak, side, tick), GridUnits(w, top, side, tick);
    if side.Long? { GridOrder(x, k, y, m, tick); } else { GridOrder(y, m, x, k, tick); }
  }

  lemma NormalizeMonotone(v: real, peak: Price, w: real, top: Price, b: Basis)
    requires b.rules.Some?
    requires Favours(b.side, w, v) && Favours(b.side, top, peak) && BeforeTake(b, top)
    requires Behind(b.side, w, top) && w > 0.0
    ensures FavoursOpt(b.side, NormalizeTrailing(w, top, b.side, b.rules.value), NormalizeTrailing(v, peak, b.side, b.rules.value))
  {
    hide NormalizeTrailing, BehindPeak, GridUnits, LastTick;
    var rules := b.rules.value;
    NormalizeOnGrid(v, peak, b.side, rules);
    NormalizeOnGrid(w, top, b.side, rules);
    BehindPeakMonotone(v, peak, w, top, b.side, rules.tick);
    WithinLastTick(w, top, b.side, rules.tick);
    LastTickWithin(b, top, LastTick(b.side, top, rules.tick) as real * rules.tick);
  }

  /** A level behind its peak never passes the last tick behind it. */
  lemma WithinLastTick(v: real, peak: Price, side: Side, tick: Price)
    ensures Favours(side, LastTick(side, peak, tick) as real * tick, BehindPeak(v, peak, side, tick))
  {
    hide BehindPeak, CeilUnits, FloorUnits;
    BehindPeakUnits(v, peak, side, tick);
    var k, m := GridUnits(v, peak, side, tick), LastTick(side, peak, tick);
    if side.Long? { GridOrder(k as real * tick, k, m as real * tick, m, tick); }
    else { GridOrder(m as real * tick, m, k as real * tick, k, tick); }
  }

  lemma ReachedMonotone(b: Basis, cfg: ConfigData, peak: Price, top: Price, r: real)
    requires Favours(b.side, top, peak) && Reached(b, cfg, peak, r)
    ensures Reached(b, cfg, top, r)
  {
    var risk := InitialRisk(b, cfg);
    var near, far := Gain(b.side, b.entryPrice, peak), Gain(b.side, b.entryPrice, top);
    assert near <= far;
    if b.rules.None? && risk > 0.0 {
      QuotientOrder(far, risk, near / risk);
      QuotientOrder(near, risk, near / risk);
    }
  }

  lemma StrategyStopMonotone(b: Basis, cfg: ConfigData, exit: ExitParams, peak: Price, top: Price)
    requires Favours(b.side, top, peak)
    ensures FavoursOpt(b.side, StrategyStop(b, cfg, exit, top), StrategyStop(b, cfg, exit, peak))
  {
    if Reached(b, cfg, peak, exit.breakEvenR) {
      ReachedMonotone(b, cfg, peak, top, exit.breakEvenR);
    }
  }

  lemma ScaledMonotone(x: real, y: real, k: real)
    requires k >= 0.0 && x <= y
    ensures x * k <= y * k
  {
  }

  lemma StrategyTrailingMonotone(b: Basis, cfg: Config, peak: Price, top: Price)
    requires Favours(b.side, top, peak) && BeforeTake(b, top)
    ensures FavoursOpt(b.side, StrategyTrailing(b, cfg, cfg.exit, top), StrategyTrailing(b, cfg, cfg.exit, peak))
  {
    hide NormalizeTrailing, Reached, Trailed;
    if StrategyTrailing(b, cfg, cfg.exit, peak).Some? {
      if Reached(b, cfg, peak, cfg.exit.trailingR) {
        ReachedMonotone(b, cfg, peak, top, cfg.exit.trailingR);
      }
      TrailedMonotone(b, cfg.exit.trailingPercent, peak, top);
    }
  }

  lemma TrailedBehind(side: Side, percent: real, peak: Price, top: Price)
    requires Favours(side, top, peak) && 0.0 < percent <= 100.0
    ensures Favours(side, Trailed(side, top, percent), Trailed(side, peak, percent))
    ensures Behind(side, Trailed(side, top, percent), top)
    ensures Trailed(side, peak, percent) > 0.0 ==> Trailed(side, top, percent) > 0.0
  {
    var k := 1.0 - Dir(side) * percent / 100.0;
    if side.Long? { ScaledMonotone(peak, top, k); } else { ScaledMonotone(top, peak, k); }
    MulOrder(k, 1.0, top);
    MulOrder(1.0, k, top);
    MulOrder(0.0, k, top);
    MulOrder(0.0, k, peak);
  }

  /** A fixed share behind the peak. */
  lemma TrailedMonotone(b: Basis, percent: real, peak: Price, top: Price)
    requires Favours(b.side, top, peak) && BeforeTake(b, top) && 0.0 < percent <= 100.0
    ensures Favours(b.side, Trailed(b.side, top, percent), Trailed(b.side, peak, percent))
    ensures b.rules.Some? ==>
              FavoursOpt(b.side, NormalizeTrailing(Trailed(b.side, top, percent), top, b.side, b.rules.value),
                         NormalizeTrailing(Trailed(b.side, peak, percent), peak, b.side, b.rules.value))
  {
    hide BehindPeak, RoundStep, Trailed;
    TrailedBehind(b.side, percent, peak, top);
    var v, w := Trailed(b.side, peak, percent), Trailed(b.side, top, percent);
    if b.rules.Some? && NormalizeTrailing(v, peak, b.side, b.rules.value).Some? {
      NormalizeMonotone(v, peak, w, top, b);
    }
  }

  lemma PolicyStopMonotone(b: Basis, cfg: ConfigData, policy: Policy, peak: Price, top: Price)
    requires Favours(b.side, top, peak)
    ensures FavoursOpt(b.side, PolicyStop(b, cfg, policy, top), PolicyStop(b, cfg, policy, peak))
  {
    if Reached(b, cfg, peak, policy.breakEvenR) {
      ReachedMonotone(b, cfg, peak, top, policy.breakEvenR);
    }
  }

  lemma PolicyTrailingMonotone(b: Basis, cfg: ConfigData, policy: Policy, peak: Price, top: Price)
    requires Favours(b.side, top, peak) && BeforeTake(b, top)
    ensures FavoursOpt(b.side, PolicyTrailing(b, cfg, policy, top), PolicyTrailing(b, cfg, policy, peak))
  {
    hide NormalizeTrailing, BreakEven, Reached, PolicyDistance;
    if PolicyTrailing(b, cfg, policy, peak).Some? {
      ReachedMonotone(b, cfg, peak, top, policy.trailingR);
      if b.rules.Some? {
        ShiftedMonotone(b, PolicyDistance(b, cfg, policy), peak, top);
      }
    }
  }

  /** A fixed distance behind the peak. */
  lemma ShiftedMonotone(b: Basis, back: real, peak: Price, top: Price)
    requires b.rules.Some? && Favours(b.side, top, peak) && BeforeTake(b, top)
    ensures FavoursOpt(b.side, NormalizeTrailing(StepBehind(b.side, top, back), top, b.side, b.rules.value),
                       NormalizeTrailing(StepBehind(b.side, peak, back), peak, b.side, b.rules.value))
    ensures var level := NormalizeTrailing(StepBehind(b.side, top, back), top, b.side, b.rules.value);
            level.Some? ==> Behind(b.side, level.value, top)
  {
    hide BehindPeak, RoundStep;
    var v, w := StepBehind(b.side, peak, back), StepBehind(b.side, top, back);
    BehindPeakUnits(w, top, b.side, b.rules.value.tick);
    if NormalizeTrailing(v, peak, b.side, b.rules.value).Some? {
      NormalizeMonotone(v, peak, w, top, b);
    }
  }

  // ---------------------------------------------------------------- the step as a join of levels

  lemma BorrowedIsPolicy(b: Basis, cfg: ConfigData, policy: Policy, best: Price)
    requires b.rules.None?
    ensures StrategyStop(b, cfg, BorrowedExit(b, cfg, policy, best), best) == PolicyStop(b, cfg, policy, best)
    ensures StrategyTrailing(b, cfg, BorrowedExit(b, cfg, policy, best), best) == PolicyTrailing(b, cfg, policy, best)
  {
    hide BreakEven, Reached, Trailed;
    var share := BorrowedExit(b, cfg, policy, best).trailingPercent;
    if share > 0.0 {
      BorrowedShare(b.entryPrice, best, cfg.stopLossPercent, policy.distanceR);
      TrailedIsStep(b.side, best, share, PolicyDistance(b, cfg, policy));
    } else {
      BorrowedShare(b.entryPrice, best, cfg.stopLossPercent, policy.distanceR);
    }
  }

  lemma TrailedIsStep(side: Side, best: Price, percent: real, distance: real)
    requires best * (percent / 100.0) == distance
    ensures Trailed(side, best, percent) == StepBehind(side, best, distance)
  {
    var k := percent / 100.0;
    assert Dir(side) * percent / 100.0 == Dir(side) * k;
    assert best * (1.0 - k) == best - best * k;
    assert best * (1.0 + k) == best + best * k;
  }

  lemma BorrowedShare(entry: Price, best: Price, percent: Price, distance: Price)
    ensures entry / best * percent * distance > 0.0
    ensures best * (entry / best * percent * distance / 100.0) == entry * (percent / 100.0) * distance
  {
    var k := entry / best;
    assert k * best == entry;
    QuotientOrder(entry, best, 0.0);
    MulOrder(0.0, k, percent);
    MulOrder(0.0, k * percent, distance);
    assert best * (k * percent * distance / 100.0) == (k * best) * (percent / 100.0) * distance;
  }

  /** The levels that peaks justify: the strategy's own and, under an active policy, the policy's. */
  datatype Levels = Levels(stop: Option<real>, trailing: Option<real>, extraStop: Option<real>, extraTrailing: Option<real>)

  function StateAfter(q: Protected, price: Price, at: int, policy: Option<Policy>): Option<ProfitState> {
    if PolicyActive(q.position.basis, policy, at)
    then Some(NextProfitState(q.position.basis, price, at, policy.value, q.state))
    else q.state
  }

  function LevelsAt(b: Basis, cfg: ConfigData, best: Price, at: int, policy: Option<Policy>, state: Option<ProfitState>): Levels {
    var active := PolicyActive(b, policy, at) && state.Some?;
    Levels(StrategyStop(b, cfg, cfg.exit, best), StrategyTrailing(b, cfg, cfg.exit, best),
           if active then PolicyStop(b, cfg, policy.value, state.value.best) else None,
           if active then PolicyTrailing(b, cfg, policy.value, state.value.best) else None)
  }

  function TightenAll(p: Position, l: Levels): Position {
    Tighten(Tighten(p, l.stop, l.trailing), l.extraStop, l.extraTrailing)
  }

  predicate FavoursLevels(side: Side, l: Levels, m: Levels) {
    && FavoursOpt(side, l.stop, m.stop) && FavoursOpt(side, l.trailing, m.trailing)
    && FavoursOpt(side, l.extraStop, m.extraStop) && FavoursOpt(side, l.extraTrailing, m.extraTrailing)
  }

  /** A step moves the peaks and joins exactly the levels those peaks justify. */
  lemma AdvanceJoinsLevels(q: Protected, price: Price, at: int, cfg: ConfigData, policy: Option<Policy>)
    ensures var best: Price := Join(q.position.basis.side, q.position.best, price);
            var state := StateAfter(q, price, at, policy);
            Advance(q, price, at, cfg, policy) ==
            Protected(TightenAll(q.position.(best := best), LevelsAt(q.position.basis, cfg, best, at, policy, state)), state)
  {
    hide BreakEven, Reached, StrategyStop, StrategyTrailing, PolicyStop, PolicyTrailing;
    var b := q.position.basis;
    if PolicyActive(b, policy, at) && b.rules.None? {
      var state := NextProfitState(b, price, at, policy.value, q.state);
      assert Join(b.side, state.best, price) == state.best;
      BorrowedIsPolicy(b, cfg, policy.value, state.best);
    }
  }

  lemma LevelsMonotone(b: Basis, cfg: Config, peak: Price, top: Price, at: int, policy: Option<Policy>,
                       state: Option<ProfitState>, state': Option<ProfitState>)
    requires Favours(b.side, top, peak) && (top == peak || BeforeTake(b, top))
    requires PolicyActive(b, policy, at) && state.Some? ==>
               && state'.Some? && Favours(b.side, state'.value.best, state.value.best)
               && (state'.value.best == state.value.best || BeforeTake(b, state'.value.best))
    ensures FavoursLevels(b.side, LevelsAt(b, cfg, top, at, policy, state'), LevelsAt(b, cfg, peak, at, policy, state))
  {
    hide StrategyStop, StrategyTrailing, PolicyStop, PolicyTrailing, BeforeTake;
    StrategyStopMonotone(b, cfg, cfg.exit, peak, top);
    if top != peak { StrategyTrailingMonotone(b, cfg, peak, top); }
    if PolicyActive(b, policy, at) && state.Some? {
      PolicyStopMonotone(b, cfg, policy.value, state.value.best, state'.value.best);
      if state'.value.best != state.value.best { PolicyTrailingMonotone(b, cfg, policy.value, state.value.best, state'.value.best); }
    }
  }

  // ---------------------------------------------------------------- laws of one step

  /** No price ever loosens a level or forgets a peak. */
  lemma AdvanceTightens(q: Protected, price: Price, at: int, cfg: ConfigData, policy: Option<Policy>)
    ensures Tighter(Advance(q, price, at, cfg, policy).position, q.position)
  {
    hide StrategyStop, StrategyTrailing, PolicyStop, PolicyTrailing;
    AdvanceJoinsLevels(q, price, at, cfg, policy);
  }

  lemma PeaksStayBeforeTake(q: Protected, price: Price, at: int, cfg: ConfigData, policy: Option<Policy>)
    requires PeaksBeforeTake(q) && BeforeTake(q.position.basis, price)
    ensures PeaksBeforeTake(Advance(q, price, at, cfg, policy))
  {
    hide StrategyStop, StrategyTrailing, PolicyStop, PolicyTrailing;
    AdvanceJoinsLevels(q, price, at, cfg, policy);
  }

  lemma TighterTransitive(p: Position, q: Position, r: Position)
    requires Tighter(p, q) && Tighter(q, r)
    ensures Tighter(p, r)
  {
  }

  /** A price that exits a position exits every tighter one. */
  lemma TouchedMonotone(p: Position, q: Position, price: real)
    requires Tighter(p, q) && Touched(q, price)
    ensures Touched(p, price)
  {
    assert Favours(p.basis.side, NearestLevel(p).price, NearestLevel(q).price);
  }

  /** Joining weaker levels before, or after, changes nothing. */
  lemma AbsorbedOpt(side: Side, t: Option<real>, own: Option<real>, extra: Option<real>, own': Option<real>, extra': Option<real>)
    requires FavoursOpt(side, own, own') && FavoursOpt(side, extra, extra')
    ensures var joined := JoinOpt(side, JoinOpt(side, t, own), extra);
            && JoinOpt(side, JoinOpt(side, JoinOpt(side, JoinOpt(side, t, own'), extra'), own), extra) == joined
            && JoinOpt(side, JoinOpt(side, joined, own'), extra') == joined
            && JoinOpt(side, JoinOpt(side, joined, own), extra') == joined
  {
  }

  lemma AbsorbedLevels(p: Position, l: Levels, m: Levels)
    requires FavoursLevels(p.basis.side, l, m)
    ensures TightenAll(TightenAll(p, m), l) == TightenAll(p, l) == TightenAll(TightenAll(p, l), l)
  {
    var side := p.basis.side;
    AbsorbedOpt(side, Some(p.stop), l.stop, l.extraStop, m.stop, m.extraStop);
    AbsorbedOpt(side, p.trailing, l.trailing, l.extraTrailing, m.trailing, m.extraTrailing);
    AbsorbedOpt(side, Some(p.stop), l.stop, l.extraStop, l.stop, l.extraStop);
    AbsorbedOpt(side, p.trailing, l.trailing, l.extraTrailing, l.trailing, l.extraTrailing);
  }

  /** The peaks after a price favour those after a less favourable one, and differ only where that price itself is the peak. */
  lemma PeaksFollow(q: Protected, x: Price, y: Price, at: int, policy: Option<Policy>)
    requires Favours(q.position.basis.side, x, y)
    ensures var side := q.position.basis.side;
            var top, low := Join(side, q.position.best, x), Join(side, q.position.best, y);
            Favours(side, top, low) && (top == low || top == x)
    ensures var side, after, before := q.position.basis.side, StateAfter(q, x, at, policy), StateAfter(q, y, at, policy);
            PolicyActive(q.position.basis, policy, at) ==>
              && after.Some? && before.Some? && Favours(side, after.value.best, before.value.best)
              && (after.value.best == before.value.best || after.value.best == x)
  {
  }

  lemma StatesAbsorb(q: Protected, x: Price, y: Price, at: int, policy: Option<Policy>)
    requires Favours(q.position.basis.side, x, y)
    ensures forall p: Position :: p.basis == q.position.basis ==>
              && StateAfter(Protected(p, StateAfter(q, y, at, policy)), x, at, policy) == StateAfter(q, x, at, policy)
              && StateAfter(Protected(p, StateAfter(q, x, at, policy)), y, at, policy) == StateAfter(q, x, at, policy)
  {
  }

  /**
   At one instant a price that has not reached the take price absorbs every less favourable one, in either order; in
   particular a step is idempotent. A price that has reached it exits and is no step.
   */
  lemma AdvanceAbsorbs(q: Protected, x: Price, y: Price, at: int, cfg: Config, policy: Option<Policy>)
    requires BeforeTake(q.position.basis, x) && Favours(q.position.basis.side, x, y)
    ensures Advance(Advance(q, y, at, cfg, policy), x, at, cfg, policy) == Advance(q, x, at, cfg, policy)
    ensures Advance(Advance(q, x, at, cfg, policy), y, at, cfg, policy) == Advance(q, x, at, cfg, policy)
  {
    hide Advance, Tighten, TightenAll, LevelsAt, StateAfter, BeforeTake;
    var b := q.position.basis;
    var top: Price, low: Price := Join(b.side, q.position.best, x), Join(b.side, q.position.best, y);
    var after, before := StateAfter(q, x, at, policy), StateAfter(q, y, at, policy);
    var l, m := LevelsAt(b, cfg, top, at, policy, after), LevelsAt(b, cfg, low, at, policy, before);
    AdvanceJoinsLevels(q, x, at, cfg, policy);
    AdvanceJoinsLevels(q, y, at, cfg, policy);
    TightenKeeps(q.position.(best := top), l);
    TightenKeeps(q.position.(best := low), m);
    PeaksFollow(q, x, y, at, policy);
    StatesAbsorb(q, x, y, at, policy);
    LevelsMonotone(b, cfg, low, top, at, policy, before, after);
    AbsorbedLevels(q.position.(best := top), l, m);
    var qx, qy := Advance(q, x, at, cfg, policy), Advance(q, y, at, cfg, policy);
    AdvanceJoinsLevels(qy, x, at, cfg, policy);
    AdvanceJoinsLevels(qx, y, at, cfg, policy);
  }

  /** Joining levels touches neither the basis nor the peak, and does not read the peak. */
  lemma TightenKeeps(p: Position, l: Levels)
    ensures TightenAll(p, l).basis == p.basis && TightenAll(p, l).best == p.best
    ensures forall best: Price :: TightenAll(p.(best := best), l) == TightenAll(p, l).(best := best)
  {
  }
}
