/** Exactly which levels one protection step leaves behind, told from prices, percentages and the tick grid alone. */
module StepExactness {
  import opened Common
  import opened Engine
  import opened EngineLaws

  // ---------------------------------------------------------------- points on the grid

  predicate Steps(x: real, k: int, tick: Price) { x == k as real * tick }

  ghost predicate OnGrid(x: real, tick: Price) {
    exists k: int :: Steps(x, k, tick)
  }

  /** The first grid point at or on the favourable side of a value. */
  ghost predicate FirstPoint(side: Side, v: real, tick: Price, x: real) {
    OnGrid(x, tick) && if side.Long? then x - tick < v <= x else x <= v < x + tick
  }

  /** The last grid point strictly behind a price. */
  ghost predicate LastPoint(side: Side, peak: real, tick: Price, x: real) {
    OnGrid(x, tick) && if side.Long? then x < peak <= x + tick else x - tick <= peak < x
  }

  /** The level for a wanted value behind a peak: the first point on its favourable side, or the last one behind the peak. */
  ghost predicate LevelPoint(side: Side, v: real, peak: real, tick: Price, x: real) {
    || (FirstPoint(side, v, tick, x) && Behind(side, x, peak))
    || (LastPoint(side, peak, tick, x) && Behind(side, x, v))
  }

  lemma SamePoint(tick: Price, x: real, y: real)
    requires OnGrid(x, tick) && OnGrid(y, tick) && x - tick < y < x + tick
    ensures x == y
  {
    var a: int :| Steps(x, a, tick);
    var c: int :| Steps(y, c, tick);
    if a < c {
      GridOrder((a + 1) as real * tick, a + 1, y, c, tick);
      StepBack(a + 1, tick);
    } else if c < a {
      GridOrder((c + 1) as real * tick, c + 1, x, a, tick);
      StepBack(c + 1, tick);
    }
  }

  lemma FirstIsRounded(side: Side, v: real, tick: Price, x: real)
    ensures FirstPoint(side, v, tick, x) <==> x == RoundStep(v, tick, side.Long?)
  {
    hide CeilUnits, FloorUnits, OnGrid;
    var y, up, down := RoundStep(v, tick, side.Long?), CeilUnits(v, tick), FloorUnits(v, tick);
    GridHas(up, tick);
    GridHas(down, tick);
    assert y == if side.Long? then up as real * tick else down as real * tick;
    CeilUnitsBounds(v, tick);
    FloorUnitsBounds(v, tick);
    StepBack(up, tick);
    StepBack(down + 1, tick);
    if FirstPoint(side, v, tick, x) { SamePoint(tick, x, y); }
  }

  lemma GridHas(k: int, tick: Price)
    ensures OnGrid(k as real * tick, tick)
  {
    assert Steps(k as real * tick, k, tick);
  }

  lemma LevelIsUnique(side: Side, v: real, peak: real, tick: Price, x: real, y: real)
    requires LevelPoint(side, v, peak, tick, x) && LevelPoint(side, v, peak, tick, y)
    ensures x == y
  {
    hide OnGrid;
    SamePoint(tick, x, y);
  }

  /** The normalised level is that point. */
  lemma BehindPeakIsLevel(v: real, peak: Price, side: Side, tick: Price, x: real)
    requires Behind(side, v, peak)
    ensures LevelPoint(side, v, peak, tick, x) <==> x == BehindPeak(v, peak, side, tick)
  {
    hide OnGrid, CeilUnits, FloorUnits, RoundStep;
    var y := BehindPeak(v, peak, side, tick);
    var near, back := RoundStep(v, tick, side.Long?), RoundStep(peak, tick, side.Short?);
    FirstIsRounded(side, v, tick, near);
    BackIsLast(peak, side, tick);
    if LevelPoint(side, v, peak, tick, x) { LevelIsUnique(side, v, peak, tick, x, y); }
  }

  lemma BackIsLast(peak: Price, side: Side, tick: Price)
    ensures var at := RoundStep(peak, tick, !side.Long?);
            LastPoint(side, peak, tick, if at == peak then StepBehind(side, at, tick) else at)
  {
    hide OnGrid, CeilUnits, FloorUnits;
    if side.Long? {
      var down := FloorUnits(peak, tick);
      FloorUnitsBounds(peak, tick);
      GridNeighbours(down, tick);
      assert RoundStep(peak, tick, false) == down as real * tick;
    } else {
      var up := CeilUnits(peak, tick);
      CeilUnitsBounds(peak, tick);
      GridNeighbours(up, tick);
      assert RoundStep(peak, tick, true) == up as real * tick;
    }
  }

  lemma GridNeighbours(k: int, tick: Price)
    ensures (k - 1) as real * tick == k as real * tick - tick && (k + 1) as real * tick == k as real * tick + tick
    ensures OnGrid(k as real * tick, tick) && OnGrid(k as real * tick - tick, tick) && OnGrid(k as real * tick + tick, tick)
  {
    StepBack(k, tick);
    StepBack(k + 1, tick);
    var x := k as real * tick;
    assert Steps(x, k, tick) && Steps(x - tick, k - 1, tick) && Steps(x + tick, k + 1, tick);
  }

  // ---------------------------------------------------------------- what the settings ask for

  /** So many times a distance. */
  function Times(distance: real, r: real): real {
    distance * r
  }

  /** So many percent of a price. */
  function Part(price: real, percent: real): real {
    price * percent / 100.0
  }

  /** The entry value per unit that a close has to return. */
  function EntryTarget(b: Basis): real {
    (b.entryPrice * b.quantity + (if b.side.Long? then b.entryFee else 0.0 - b.entryFee)) / b.quantity
  }

  /** What remains of a unit after `bps` basis points go against a side that sells. */
  predicate IsShare(side: Side, bps: real, share: real) {
    if side.Long? then share * 10000.0 == 10000.0 - bps else share * 10000.0 == 10000.0 + bps
  }

  /** The distance from entry to the first stop, and the price at which closing returns the entry costs. */
  datatype Marks = Marks(risk: real, even: real)

  /** The price at which a close, less slippage and fee, returns entry price and entry fee. */
  ghost predicate IsEven(b: Basis, cfg: ConfigData, even: real) {
    exists slip, taker, settled :: EvenBy(b, cfg, even, slip, taker, settled)
  }

  ghost predicate EvenBy(b: Basis, cfg: ConfigData, even: real, slip: Price, taker: Price, settled: real) {
    && IsShare(b.side, cfg.costs.slippageBps, slip) && IsShare(b.side, cfg.costs.takerFeeBps, taker)
    && var target := EntryTarget(b);
       if b.rules.None? then settled * taker == target && even * slip == settled
       else FirstPoint(b.side, target / taker, b.rules.value.tick, settled) && FirstPoint(b.side, settled / slip, b.rules.value.tick, even)
  }

  ghost predicate IsRisk(b: Basis, cfg: ConfigData, risk: real) {
    var distance := Part(b.entryPrice, cfg.stopLossPercent);
    if b.rules.None? then risk == distance
    else FirstPoint(b.side, StepBehind(b.side, b.entryPrice, distance), b.rules.value.tick, StepBehind(b.side, b.entryPrice, risk))
  }

  lemma Restore(a: real, c: Price, q: real)
    ensures q == a / c <==> q * c == a
  {
    if q * c == a { assert q == (q * c) / c; } else { assert (a / c) * c == a; }
  }

  ghost predicate AreMarks(b: Basis, cfg: ConfigData, m: Marks) {
    IsRisk(b, cfg, m.risk) && IsEven(b, cfg, m.even)
  }

  /** The level a value stands for: the value itself, or with pinned rules its point behind the peak, if that is a valid price. */
  ghost predicate Stands(b: Basis, v: real, peak: Price, x: real) {
    match b.rules
    case None => x == v
    case Some(rules) => v > 0.0 && Behind(b.side, v, peak) && LevelPoint(b.side, v, peak, rules.tick, x) && rules.minPrice <= x <= rules.maxPrice
  }

  /** The peak has moved `r` times the distance from entry to the first stop. */
  predicate HasMoved(b: Basis, peak: Price, risk: real, r: real) {
    (if b.side.Long? then peak - b.entryPrice else b.entryPrice - peak) >= risk * r
  }

  /** The break-even level lies behind the peak, by at least a tick and as a valid price where rules are pinned. */
  predicate EvenHasRoom(b: Basis, peak: Price, even: real) {
    var room := if b.side.Long? then peak - even else even - peak;
    match b.rules
    case None => room >= 0.0
    case Some(rules) => room >= rules.tick && rules.minPrice <= even <= rules.maxPrice
  }

  // ---------------------------------------------------------------- which levels are due

  predicate StopDue(b: Basis, cfg: ConfigData, peak: Price, m: Marks, x: real) {
    x == m.even && cfg.exit.breakEvenR > 0.0 && HasMoved(b, peak, m.risk, cfg.exit.breakEvenR) && EvenHasRoom(b, peak, m.even)
  }

  ghost predicate TrailingDue(b: Basis, cfg: ConfigData, peak: Price, m: Marks, x: real) {
    && cfg.exit.trailingPercent > 0.0 && (cfg.exit.trailingR <= 0.0 || HasMoved(b, peak, m.risk, cfg.exit.trailingR))
    && Stands(b, StepBehind(b.side, peak, Part(peak, cfg.exit.trailingPercent)), peak, x)
  }

  predicate PolicyStopDue(b: Basis, policy: Policy, peak: Price, m: Marks, x: real) {
    x == m.even && HasMoved(b, peak, m.risk, policy.breakEvenR) && EvenHasRoom(b, peak, m.even)
  }

  ghost predicate PolicyTrailingDue(b: Basis, policy: Policy, peak: Price, m: Marks, x: real) {
    && HasMoved(b, peak, m.risk, policy.trailingR)
    && Stands(b, StepBehind(b.side, peak, Times(m.risk, policy.distanceR)), peak, x)
    && Favours(b.side, x, m.even)
  }

  // ---------------------------------------------------------------- the level functions meet these conditions

  lemma RiskIs(b: Basis, cfg: ConfigData, risk: real)
    ensures IsRisk(b, cfg, risk) <==> risk == InitialRisk(b, cfg)
  {
    hide RoundStep, FirstPoint, Part, Trailed;
    PercentBehind(b.side, b.entryPrice, cfg.stopLossPercent);
    if b.rules.Some? {
      FirstIsRounded(b.side, Trailed(b.side, b.entryPrice, cfg.stopLossPercent), b.rules.value.tick, StepBehind(b.side, b.entryPrice, risk));
    }
  }

  lemma PercentBehind(side: Side, price: Price, percent: real)
    ensures Trailed(side, price, percent) == StepBehind(side, price, Part(price, percent))
    ensures Part(price, percent) == price * (percent / 100.0)
  {
    TrailedIsStep(side, price, percent, price * (percent / 100.0));
  }

  lemma SharesAre(b: Basis, cfg: Config)
    ensures IsShare(b.side, cfg.costs.slippageBps, SlipShare(b.side, cfg)) && IsShare(b.side, cfg.costs.takerFeeBps, TakerShare(b.side, cfg))
    ensures forall share :: IsShare(b.side, cfg.costs.slippageBps, share) ==> share == SlipShare(b.side, cfg)
    ensures forall share :: IsShare(b.side, cfg.costs.takerFeeBps, share) ==> share == TakerShare(b.side, cfg)
  {
  }

  lemma TargetIs(b: Basis, taker: Price)
    ensures EntryTarget(b) == b.entryPrice + Dir(b.side) * (b.entryFee / b.quantity)
    ensures CoveringValue(b, taker) == EntryTarget(b) / taker
  {
    var q, f := b.quantity, b.entryFee * Dir(b.side);
    var whole := b.entryPrice * q + f;
    assert whole / q == b.entryPrice + f / q by { Restore(whole, q, b.entryPrice + f / q); Restore(f, q, f / q); }
    assert f / q == Dir(b.side) * (b.entryFee / q);
    var x := whole / q / taker;
    Restore(whole, q, whole / q);
    Restore(whole / q, taker, x);
    assert x * (q * taker) == (x * taker) * q;
    MulOrder(0.0, q, taker);
    Restore(whole, q * taker, x);
  }

  lemma EvenIs(b: Basis, cfg: Config, even: real)
    ensures IsEven(b, cfg, even) <==> even == BreakEven(b, cfg)
  {
    hide BreakEven, EvenBy;
    var slip, taker, settled := SlipShare(b.side, cfg), TakerShare(b.side, cfg), SettledValue(b, cfg);
    EvenWith(b, cfg, even, slip, taker, settled);
    forall l, t, x | EvenBy(b, cfg, even, l, t, x) ensures even == BreakEven(b, cfg) { EvenWith(b, cfg, even, l, t, x); }
  }

  /** The value per unit, before slippage, at which a close returns the entry costs. */
  function SettledValue(b: Basis, cfg: Config): real {
    var target := EntryTarget(b) / TakerShare(b.side, cfg);
    if b.rules.None? then target else RoundStep(target, b.rules.value.tick, b.side.Long?)
  }

  lemma SlippedBack(value: real, slip: Price)
    ensures BeforeSlippage(value, slip) == value / slip
  {
  }

  lemma BreakEvenIs(b: Basis, cfg: Config)
    ensures var value := BeforeSlippage(SettledValue(b, cfg), SlipShare(b.side, cfg));
            BreakEven(b, cfg) == if b.rules.None? then value else RoundStep(value, b.rules.value.tick, b.side.Long?)
  {
    hide RoundStep, EntryTarget, SlipShare, TakerShare, CoveringValue, BeforeSlippage;
    TargetIs(b, TakerShare(b.side, cfg));
    SlippedBack(SettledValue(b, cfg), SlipShare(b.side, cfg));
  }

  lemma EvenWith(b: Basis, cfg: Config, even: real, slip: Price, taker: Price, settled: real)
    ensures EvenBy(b, cfg, even, slip, taker, settled) <==>
              slip == SlipShare(b.side, cfg) && taker == TakerShare(b.side, cfg) && settled == SettledValue(b, cfg) && even == BreakEven(b, cfg)
  {
    hide RoundStep, FirstPoint, IsShare, EntryTarget, SlipShare, TakerShare, BreakEven;
    SharesAre(b, cfg);
    BreakEvenIs(b, cfg);
    if slip == SlipShare(b.side, cfg) && taker == TakerShare(b.side, cfg) {
      if b.rules.Some? {
        FirstIsRounded(b.side, EntryTarget(b) / taker, b.rules.value.tick, settled);
        FirstIsRounded(b.side, settled / slip, b.rules.value.tick, even);
      } else {
        Restore(EntryTarget(b), taker, settled);
        Restore(settled, slip, even);
      }
    }
  }

  predicate Known(b: Basis, cfg: ConfigData, m: Marks) {
    m.risk == InitialRisk(b, cfg) && m.even == BreakEven(b, cfg)
  }

  lemma MovedIs(b: Basis, cfg: ConfigData, peak: Price, m: Marks, r: real)
    requires Known(b, cfg, m)
    ensures HasMoved(b, peak, m.risk, r) <==> Reached(b, cfg, peak, r)
  {
    hide BreakEven;
    if b.rules.None? {
      MulOrder(0.0, cfg.stopLossPercent / 100.0, b.entryPrice);
      QuotientOrder(Gain(b.side, b.entryPrice, peak), m.risk, r);
    }
  }

  lemma LimitsAre(x: real, tick: Price, rules: Rules)
    requires tick == rules.tick && OnGrid(x, tick)
    ensures PriceInLimits(x, rules) <==> rules.minPrice <= x <= rules.maxPrice
  {
    var k: int :| Steps(x, k, tick);
    GridValue(x, k, tick);
  }

  lemma EvenOnGrid(b: Basis, cfg: Config)
    requires b.rules.Some?
    ensures OnGrid(BreakEven(b, cfg), b.rules.value.tick)
  {
    hide OnGrid, BreakEven;
    EvenIs(b, cfg, BreakEven(b, cfg));
    var slip, taker, settled :| EvenBy(b, cfg, BreakEven(b, cfg), slip, taker, settled);
  }

  lemma RoomIs(b: Basis, cfg: Config, peak: Price, m: Marks)
    requires Known(b, cfg, m)
    ensures EvenHasRoom(b, peak, m.even) <==>
              var room := Gain(b.side, BreakEven(b, cfg), peak);
              if b.rules.Some? then room >= b.rules.value.tick && PriceInLimits(BreakEven(b, cfg), b.rules.value) else room >= 0.0
  {
    hide BreakEven, InitialRisk, PriceInLimits;
    if b.rules.Some? {
      EvenOnGrid(b, cfg);
      LimitsAre(m.even, b.rules.value.tick, b.rules.value);
    }
  }

  lemma StandsIs(b: Basis, v: real, peak: Price, x: real)
    ensures Stands(b, v, peak, x) <==>
              if b.rules.None? then x == v else NormalizeTrailing(v, peak, b.side, b.rules.value) == Some(x)
  {
    hide BehindPeak, OnGrid, PriceInLimits;
    if b.rules.Some? && Behind(b.side, v, peak) {
      var rules, y := b.rules.value, BehindPeak(v, peak, b.side, b.rules.value.tick);
      BehindPeakIsLevel(v, peak, b.side, rules.tick, x);
      BehindPeakIsLevel(v, peak, b.side, rules.tick, y);
      LimitsAre(y, rules.tick, rules);
    }
  }

  lemma StopDueIs(b: Basis, cfg: Config, peak: Price, m: Marks, x: real)
    requires Known(b, cfg, m)
    ensures StopDue(b, cfg, peak, m, x) <==> StrategyStop(b, cfg, cfg.exit, peak) == Some(x)
  {
    hide BreakEven, InitialRisk, Reached, HasMoved, PriceInLimits, EvenHasRoom;
    MovedIs(b, cfg, peak, m, cfg.exit.breakEvenR);
    RoomIs(b, cfg, peak, m);
  }

  lemma PolicyStopDueIs(b: Basis, cfg: Config, policy: Policy, peak: Price, m: Marks, x: real)
    requires Known(b, cfg, m)
    ensures PolicyStopDue(b, policy, peak, m, x) <==> PolicyStop(b, cfg, policy, peak) == Some(x)
  {
    hide BreakEven, InitialRisk, Reached, HasMoved, PriceInLimits, EvenHasRoom;
    MovedIs(b, cfg, peak, m, policy.breakEvenR);
    RoomIs(b, cfg, peak, m);
  }

  lemma TrailingDueIs(b: Basis, cfg: Config, peak: Price, m: Marks, x: real)
    requires Known(b, cfg, m)
    ensures TrailingDue(b, cfg, peak, m, x) <==> StrategyTrailing(b, cfg, cfg.exit, peak) == Some(x)
  {
    hide BreakEven, InitialRisk, Reached, HasMoved, Stands, NormalizeTrailing, Trailed, Part;
    MovedIs(b, cfg, peak, m, cfg.exit.trailingR);
    PercentBehind(b.side, peak, cfg.exit.trailingPercent);
    StandsIs(b, Trailed(b.side, peak, cfg.exit.trailingPercent), peak, x);
  }

  lemma PolicyTrailingDueIs(b: Basis, cfg: Config, policy: Policy, peak: Price, m: Marks, x: real)
    requires Known(b, cfg, m)
    ensures PolicyTrailingDue(b, policy, peak, m, x) <==> PolicyTrailing(b, cfg, policy, peak) == Some(x)
  {
    hide BreakEven, InitialRisk, Reached, HasMoved, Stands, BehindPeak;
    MovedIs(b, cfg, peak, m, policy.trailingR);
    var v := StepBehind(b.side, peak, PolicyDistance(b, cfg, policy));
    assert Times(m.risk, policy.distanceR) == PolicyDistance(b, cfg, policy);
    StandsIs(b, v, peak, x);
    if b.rules.Some? { BehindPeakUnits(v, peak, b.side, b.rules.value.tick); }
  }

  // ---------------------------------------------------------------- the step

  predicate Better(side: Side, x: real, y: real, best: real) {
    (best == x || best == y) && Favours(side, best, x) && Favours(side, best, y)
  }

  predicate Enabled(b: Basis, policy: Option<Policy>, at: int) {
    policy.Some? && at >= policy.value.enabledAt && at >= b.openedAt
  }

  /** The state of an enabled policy: it goes on from its own earlier state, or begins at this price. */
  predicate NextState(side: Side, before: Option<ProfitState>, price: Price, at: int, policy: Policy, after: Option<ProfitState>) {
    && after.Some? && after.value.policy == policy
    && if before.Some? && before.value.policy == policy
       then after.value.activatedAt == before.value.activatedAt && Better(side, before.value.best, price, after.value.best)
       else after.value.activatedAt == at && after.value.best == price
  }

  predicate StopsDue(b: Basis, cfg: ConfigData, policy: Option<Policy>, at: int, q: Protected, m: Marks, x: real) {
    || StopDue(b, cfg, q.position.best, m, x)
    || (Enabled(b, policy, at) && q.state.Some? && PolicyStopDue(b, policy.value, q.state.value.best, m, x))
  }

  ghost predicate TrailingsDue(b: Basis, cfg: ConfigData, policy: Option<Policy>, at: int, q: Protected, m: Marks, x: real) {
    || TrailingDue(b, cfg, q.position.best, m, x)
    || (Enabled(b, policy, at) && q.state.Some? && PolicyTrailingDue(b, policy.value, q.state.value.best, m, x))
  }

  /**
   What one step does to any position: the peaks follow the price, and each level becomes the tightest of the old one and
   those that the peaks make due, no more and no less.
   */
  lemma StepLeavesExactly(q: Protected, price: Price, at: int, cfg: Config, policy: Option<Policy>, m: Marks)
    requires AreMarks(q.position.basis, cfg, m)
    ensures var after, b := Advance(q, price, at, cfg, policy), q.position.basis;
            var p := after.position;
            && p.basis == b && p.exitPinned == q.position.exitPinned && Better(b.side, q.position.best, price, p.best)
            && (if Enabled(b, policy, at) then NextState(b.side, q.state, price, at, policy.value, after.state) else after.state == q.state)
            && Favours(b.side, p.stop, q.position.stop) && (p.stop == q.position.stop || StopsDue(b, cfg, policy, at, after, m, p.stop))
            && (forall x :: StopsDue(b, cfg, policy, at, after, m, x) ==> Favours(b.side, p.stop, x))
            && (if p.trailing.None? then q.position.trailing.None? && forall x :: !TrailingsDue(b, cfg, policy, at, after, m, x)
                else
                  && FavoursOpt(b.side, p.trailing, q.position.trailing)
                  && (p.trailing == q.position.trailing || TrailingsDue(b, cfg, policy, at, after, m, p.trailing.value))
                  && forall x :: TrailingsDue(b, cfg, policy, at, after, m, x) ==> Favours(b.side, p.trailing.value, x))
  {
    hide BreakEven, InitialRisk, StrategyStop, StrategyTrailing, PolicyStop, PolicyTrailing, StopDue, TrailingDue, PolicyStopDue, PolicyTrailingDue,
         IsRisk, IsEven, Advance;
    var b, after := q.position.basis, Advance(q, price, at, cfg, policy);
    RiskIs(b, cfg, m.risk);
    EvenIs(b, cfg, m.even);
    AdvanceJoinsLevels(q, price, at, cfg, policy);
    var l := LevelsAt(b, cfg, after.position.best, at, policy, after.state);
    forall x ensures StopsDue(b, cfg, policy, at, after, m, x) <==> l.stop == Some(x) || l.extraStop == Some(x) {
      StopDueIs(b, cfg, after.position.best, m, x);
      if Enabled(b, policy, at) && after.state.Some? { PolicyStopDueIs(b, cfg, policy.value, after.state.value.best, m, x); }
    }
    forall x ensures TrailingsDue(b, cfg, policy, at, after, m, x) <==> l.trailing == Some(x) || l.extraTrailing == Some(x) {
      TrailingDueIs(b, cfg, after.position.best, m, x);
      if Enabled(b, policy, at) && after.state.Some? { PolicyTrailingDueIs(b, cfg, policy.value, after.state.value.best, m, x); }
    }
  }

  /** There are such marks for every position, and only these. */
  lemma MarksExist(b: Basis, cfg: Config)
    ensures exists m :: AreMarks(b, cfg, m)
    ensures forall m, n :: AreMarks(b, cfg, m) && AreMarks(b, cfg, n) ==> m == n
  {
    hide BreakEven, InitialRisk, IsRisk, IsEven;
    var it := Marks(InitialRisk(b, cfg), BreakEven(b, cfg));
    RiskIs(b, cfg, it.risk);
    EvenIs(b, cfg, it.even);
    assert AreMarks(b, cfg, it);
    forall m | AreMarks(b, cfg, m) ensures m == it {
      RiskIs(b, cfg, m.risk);
      EvenIs(b, cfg, m.even);
    }
  }

  // ---------------------------------------------------------------- what a settlement pays

  /** The price obtained: slippage goes against the position, and with pinned rules so does the rounding. */
  ghost predicate Obtained(b: Basis, raw: real, cfg: ConfigData, price: real) {
    exists share :: IsShare(b.side, cfg.costs.slippageBps, share) && ObtainedBy(b, raw, share, price)
  }

  ghost predicate ObtainedBy(b: Basis, raw: real, share: real, price: real) {
    if b.rules.None? then price == Times(raw, share)
    else FirstPoint(if b.side.Long? then Short else Long, Times(raw, share), b.rules.value.tick, price)
  }

  /** So many basis points of what a quantity is worth. */
  function FeeOn(price: real, quantity: real, bps: real): real {
    price * quantity * bps / 10000.0
  }

  /** A settlement pays what the obtained price gains on the quantity, less the entry fee and the fee on what is sold; its slippage is counted on both sides. */
  lemma SettlesExactly(p: Position, raw: real, at: int, reason: ExitReason, cfg: Config)
    ensures var s, b := Settle(p, raw, at, reason, cfg), p.basis;
            && s.closedAt == at && s.reason == reason && Obtained(b, raw, cfg, s.exitPrice)
            && s.grossPnl == Times(if b.side.Long? then s.exitPrice - b.entryPrice else b.entryPrice - s.exitPrice, b.quantity)
            && s.fees == b.entryFee + FeeOn(s.exitPrice, b.quantity, cfg.costs.takerFeeBps)
            && s.netPnl == s.grossPnl - s.fees
            && s.slippage == b.entrySlippage + Times(if s.exitPrice < raw then raw - s.exitPrice else s.exitPrice - raw, b.quantity)
  {
    hide SlippedPrice, Obtained, FeeOn;
    var exit := SlippedPrice(p.basis, raw, cfg);
    ObtainedIs(p.basis, raw, cfg, exit);
    FeeIs(exit, p.basis.quantity, cfg.costs.takerFeeBps);
  }

  lemma FeeIs(price: real, quantity: real, bps: real)
    ensures FeeOn(price, quantity, bps) == price * quantity * (bps / 10000.0)
  {
    var value := price * quantity;
    assert value * (bps / 10000.0) == value * bps / 10000.0;
  }

  lemma ObtainedIs(b: Basis, raw: real, cfg: Config, price: real)
    ensures Obtained(b, raw, cfg, price) <==> price == SlippedPrice(b, raw, cfg)
  {
    hide RoundStep, FirstPoint, IsShare, SlipShare;
    SharesAre(b, cfg);
    var share := SlipShare(b.side, cfg);
    assert Times(raw, share) == Slipped(b.side, raw, cfg);
    if b.rules.Some? { FirstIsRounded(if b.side.Long? then Short else Long, Slipped(b.side, raw, cfg), b.rules.value.tick, price); }
    assert ObtainedBy(b, raw, share, price) <==> price == SlippedPrice(b, raw, cfg);
  }
}
