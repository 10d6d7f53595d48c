/**
 Position protection and exits: what one price does to an open position.
 Money and prices are exact reals; times are integer milliseconds.
 */
module Engine {
  import opened Common

  /** Pinned instrument limits. A position without them uses unrounded levels. */
  datatype RulesData = Rules(tick: Price, minPrice: Price, maxPrice: real)
  type Rules = r: RulesData | r.minPrice <= r.maxPrice witness Rules(1.0, 1.0, 1.0)

  datatype CostsData = Costs(takerFeeBps: real, slippageBps: real)
  type Costs = c: CostsData | 0.0 <= c.takerFeeBps <= 100.0 && 0.0 <= c.slippageBps <= 500.0
    witness Costs(0.0, 0.0)

  datatype ExitParams = ExitParams(trailingPercent: real, breakEvenR: real, trailingR: real)

  datatype ConfigData = Config(stopLossPercent: Price, exit: ExitParams, costs: Costs, intervalMs: int)
  type Config = c: ConfigData |
      && 0.0 <= c.exit.trailingPercent <= 100.0
      && 0.0 <= c.exit.breakEvenR && 0.0 <= c.exit.trailingR
      && 0 < c.intervalMs
    witness Config(1.0, ExitParams(0.0, 0.0, 0.0), Costs(0.0, 0.0), 1)

  const MIN_HOLDING := 60000
  const MAX_HOLDING := 31536000000

  /** The pinned exit plan: a holding limit, and the level whose loss invalidates a breakout. */
  datatype ExitPlanData = ExitPlan(maxHoldingMs: Option<int>, breakoutLevel: Option<real>)
  type ExitPlan = p: ExitPlanData | p.maxHoldingMs.Some? ==> MIN_HOLDING <= p.maxHoldingMs.value <= MAX_HOLDING
    witness ExitPlan(None, None)

  /** Everything about a position that never changes while it is open. */
  datatype BasisData = Basis(symbol: string, side: Side, openedAt: int, entryPrice: Price, quantity: Price, entryFee: real,
                             entrySlippage: real, takePrice: real, rules: Option<Rules>,
                             exitPlan: Option<ExitPlan>, signalExitEnabled: bool)
  type Basis = b: BasisData | b.entryFee >= 0.0 && (b.rules.Some? ==> OpensWithin(b, b.rules.value))
    witness Basis("", Long, 0, 1.0, 1.0, 0.0, 0.0, 2.0, None, None, false)

  /** What opening a position checks against pinned limits: entry and take price are valid, and the take price is still ahead. */
  predicate OpensWithin(b: BasisData, rules: Rules) {
    PriceInLimits(b.entryPrice, rules) && PriceInLimits(b.takePrice, rules) && Behind(b.side, b.entryPrice, b.takePrice)
  }

  /** `exitPinned` marks a pinned exit policy; it decides only at which price a take-profit settles. */
  datatype Position = Position(basis: Basis, exitPinned: bool, best: Price, stop: real, trailing: Option<real>)

  datatype ExitReason = StopLoss | TakeProfit | TrailingStop | SignalExit | HoldingTimeout | RecoveryExit

  datatype Settlement = Settlement(closedAt: int, exitPrice: real, grossPnl: real, netPnl: real, fees: real,
                                   slippage: real, reason: ExitReason)

  // ---------------------------------------------------------------- levels of one protection rule

  predicate PriceInLimits(price: real, rules: Rules) {
    rules.minPrice <= price <= rules.maxPrice && RoundStep(price, rules.tick, false) == price
  }

  function InitialRisk(b: Basis, cfg: ConfigData): real {
    match b.rules
    case None => b.entryPrice * (cfg.stopLossPercent / 100.0)
    case Some(rules) =>
      var stop := RoundStep(Trailed(b.side, b.entryPrice, cfg.stopLossPercent), rules.tick, b.side.Long?);
      Gain(b.side, stop, b.entryPrice)
  }

  /** The favourable move of `best` has reached `r` initial risks. */
  predicate Reached(b: Basis, cfg: ConfigData, best: Price, r: real) {
    var risk := InitialRisk(b, cfg);
    var move := Gain(b.side, b.entryPrice, best);
    if b.rules.Some? then move >= risk * r
    else (if risk > 0.0 then move / risk else 0.0) >= r
  }

  /** What remains of a price after slippage. */
  function SlipShare(side: Side, cfg: ConfigData): Price {
    1.0 - Dir(side) * cfg.costs.slippageBps / 10000.0
  }

  /** What remains of an exit value after the taker fee. */
  function TakerShare(side: Side, cfg: ConfigData): Price {
    1.0 - Dir(side) * cfg.costs.takerFeeBps / 10000.0
  }

  /** The value per unit that, less the taker fee, returns entry price and entry fee. */
  function CoveringValue(b: Basis, taker: Price): real {
    (b.entryPrice * b.quantity + b.entryFee * Dir(b.side)) / (b.quantity * taker)
  }

  /** The price that slippage turns into a value. */
  function BeforeSlippage(value: real, slip: Price): real {
    value / slip
  }

  /** The price at which a close, with its fee and slippage, returns the entry costs. */
  function BreakEven(b: Basis, cfg: ConfigData): real {
    var d := Dir(b.side);
    var taker := TakerShare(b.side, cfg);
    var slip := SlipShare(b.side, cfg);
    match b.rules
    case None => (b.entryPrice + d * (b.entryFee / b.quantity)) / taker / slip
    case Some(rules) =>
      var settled := RoundStep(CoveringValue(b, taker), rules.tick, b.side.Long?);
      RoundStep(BeforeSlippage(settled, slip), rules.tick, b.side.Long?)
  }

  /** The computed level on the tick grid, or the last tick behind the peak when rounding reaches the peak. */
  function BehindPeak(v: real, peak: Price, side: Side, tick: Price): real {
    var near := RoundStep(v, tick, side.Long?);
    if Behind(side, near, peak) then near
    else
      var at := RoundStep(peak, tick, !side.Long?);
      if at == peak then StepBehind(side, at, tick) else at
  }

  /** A trailing level on the tick grid, strictly behind its peak and inside the instrument's limits. */
  function NormalizeTrailing(v: real, peak: Price, side: Side, rules: Rules): Option<real> {
    if v <= 0.0 || !Behind(side, v, peak) then None
    else
      var price := BehindPeak(v, peak, side, rules.tick);
      if PriceInLimits(price, rules) then Some(price) else None
  }

  /** The strategy's break-even stop for a peak, if it is active. */
  function StrategyStop(b: Basis, cfg: ConfigData, exit: ExitParams, best: Price): Option<real> {
    var level := BreakEven(b, cfg);
    var room := Gain(b.side, level, best);
    if && exit.breakEvenR > 0.0
       && Reached(b, cfg, best, exit.breakEvenR)
       && (if b.rules.Some? then room >= b.rules.value.tick && PriceInLimits(level, b.rules.value) else room >= 0.0)
    then Some(level) else None
  }

  /** The level a percentage behind the peak. */
  function Trailed(side: Side, best: Price, percent: real): real {
    best * (1.0 - Dir(side) * percent / 100.0)
  }

  /** The strategy's trailing level for a peak, if it is active. */
  function StrategyTrailing(b: Basis, cfg: ConfigData, exit: ExitParams, best: Price): Option<real> {
    if exit.trailingPercent > 0.0 && (exit.trailingR <= 0.0 || Reached(b, cfg, best, exit.trailingR)) then
      var v := Trailed(b.side, best, exit.trailingPercent);
      if b.rules.Some? then NormalizeTrailing(v, best, b.side, b.rules.value) else Some(v)
    else None
  }

  function Tighten(p: Position, stop: Option<real>, trailing: Option<real>): Position {
    p.(stop := if stop.Some? then Join(p.basis.side, p.stop, stop.value) else p.stop,
       trailing := JoinOpt(p.basis.side, p.trailing, trailing))
  }

  /** The strategy's own protection after one observed price. */
  function UpdateProtection(p: Position, price: Price, cfg: ConfigData, exit: ExitParams): Position {
    var best: Price := Join(p.basis.side, p.best, price);
    Tighten(p.(best := best), StrategyStop(p.basis, cfg, exit, best), StrategyTrailing(p.basis, cfg, exit, best))
  }

  // ---------------------------------------------------------------- additional profit protection

  datatype PolicyData = Policy(enabledAt: int, breakEvenR: real, trailingR: real, distanceR: real)
  type Policy = p: PolicyData | 0.0 < p.breakEvenR && 0.0 < p.distanceR < p.trailingR
    witness Policy(0, 1.0, 2.0, 1.0)

  /** The durable checkpoint of the policy; the policy itself is its key. */
  datatype ProfitState = ProfitState(policy: Policy, activatedAt: int, best: Price)

  datatype Protected = Protected(position: Position, state: Option<ProfitState>)

  predicate PolicyActive(b: Basis, policy: Option<Policy>, at: int) {
    policy.Some? && at >= policy.value.enabledAt && at >= b.openedAt
  }

  /** The peak already tracked for this very policy. */
  function TrackedPeak(policy: Policy, state: Option<ProfitState>): Option<Price> {
    if state.Some? && state.value.policy == policy then Some(state.value.best) else None
  }

  function NextProfitState(b: Basis, price: Price, at: int, policy: Policy, prev: Option<ProfitState>): ProfitState {
    match TrackedPeak(policy, prev)
    case None => ProfitState(policy, at, price)
    case Some(peak) => ProfitState(policy, prev.value.activatedAt, Join(b.side, peak, price))
  }

  function PolicyStop(b: Basis, cfg: ConfigData, policy: Policy, best: Price): Option<real> {
    var level := BreakEven(b, cfg);
    var room := Gain(b.side, level, best);
    if && Reached(b, cfg, best, policy.breakEvenR)
       && (if b.rules.Some? then PriceInLimits(level, b.rules.value) && room >= b.rules.value.tick else room >= 0.0)
    then Some(level) else None
  }

  function PolicyDistance(b: Basis, cfg: ConfigData, policy: Policy): real {
    InitialRisk(b, cfg) * policy.distanceR
  }

  function PolicyTrailing(b: Basis, cfg: ConfigData, policy: Policy, best: Price): Option<real> {
    var v := StepBehind(b.side, best, PolicyDistance(b, cfg, policy));
    if !Reached(b, cfg, best, policy.trailingR) then None
    else if b.rules.None? then
      if Favours(b.side, v, BreakEven(b, cfg)) then Some(v) else None
    else
      var level := NormalizeTrailing(v, best, b.side, b.rules.value);
      if level.Some? && Favours(b.side, level.value, BreakEven(b, cfg)) && Behind(b.side, level.value, best)
      then level else None
  }

  /** Without tick rules the policy borrows the strategy update, with its own peak and activation. */
  function BorrowedExit(b: Basis, cfg: ConfigData, policy: Policy, best: Price): ExitParams {
    var candidate := StepBehind(b.side, best, b.entryPrice * (cfg.stopLossPercent / 100.0) * policy.distanceR);
    var canBreakEven := Favours(b.side, best, BreakEven(b, cfg));
    var canTrail := Favours(b.side, candidate, BreakEven(b, cfg));
    ExitParams(if canTrail then b.entryPrice / best * cfg.stopLossPercent * policy.distanceR else 0.0,
               if canBreakEven then policy.breakEvenR else 0.0,
               policy.trailingR)
  }

  function ApplyProfit(p: Position, price: Price, at: int, cfg: ConfigData, policy: Option<Policy>,
                       prev: Option<ProfitState>): Protected
  {
    if !PolicyActive(p.basis, policy, at) then Protected(p, prev)
    else
      var state := NextProfitState(p.basis, price, at, policy.value, prev);
      if p.basis.rules.Some? then
        Protected(Tighten(p, PolicyStop(p.basis, cfg, policy.value, state.best),
                          PolicyTrailing(p.basis, cfg, policy.value, state.best)), Some(state))
      else
        var moved := UpdateProtection(p.(best := state.best), price, cfg,
                                      BorrowedExit(p.basis, cfg, policy.value, state.best));
        Protected(moved.(best := p.best), Some(state))
  }

  /** One shared protection step: the strategy first, then the additional policy. */
  function Advance(q: Protected, price: Price, at: int, cfg: ConfigData, policy: Option<Policy>): Protected {
    ApplyProfit(UpdateProtection(q.position, price, cfg, cfg.exit), price, at, cfg, policy, q.state)
  }

  // ---------------------------------------------------------------- exits

  datatype ProtectionLevel = ProtectionLevel(price: real, reason: ExitReason)

  function NearestLevel(p: Position): ProtectionLevel {
    if p.trailing.Some? && p.trailing.value != p.stop && Favours(p.basis.side, p.trailing.value, p.stop)
    then ProtectionLevel(p.trailing.value, TrailingStop)
    else ProtectionLevel(p.stop, StopLoss)
  }

  function Slipped(side: Side, raw: real, cfg: ConfigData): real {
    raw * SlipShare(side, cfg)
  }

  /** The price obtained after slippage; on the tick grid it is rounded against the position. */
  function SlippedPrice(b: Basis, raw: real, cfg: ConfigData): real {
    if b.rules.Some? then RoundStep(Slipped(b.side, raw, cfg), b.rules.value.tick, !b.side.Long?)
    else Slipped(b.side, raw, cfg)
  }

  function Settle(p: Position, raw: real, at: int, reason: ExitReason, cfg: ConfigData): Settlement {
    var b := p.basis;
    var exit := SlippedPrice(b, raw, cfg);
    var gross := Gain(b.side, b.entryPrice, exit) * b.quantity;
    var fees := b.entryFee + exit * b.quantity * (cfg.costs.takerFeeBps / 10000.0);
    var drift := if exit >= raw then exit - raw else raw - exit;
    Settlement(at, exit, gross, gross - fees, fees, b.entrySlippage + drift * b.quantity, reason)
  }

  predicate StopTouched(p: Position, price: real) {
    Favours(p.basis.side, NearestLevel(p).price, price)
  }

  predicate TakeTouched(p: Position, price: real) {
    Favours(p.basis.side, price, p.basis.takePrice)
  }

  predicate Touched(p: Position, price: real) {
    StopTouched(p, price) || TakeTouched(p, price)
  }

  function PriceExit(p: Position, price: real, at: int, cfg: ConfigData): (r: Option<Settlement>)
    ensures r.Some? <==> Touched(p, price)
  {
    if StopTouched(p, price) then Some(Settle(p, price, at, NearestLevel(p).reason, cfg))
    else if TakeTouched(p, price) then
      Some(Settle(p, if p.exitPinned then price else p.basis.takePrice, at, TakeProfit, cfg))
    else None
  }

  function HoldingDeadline(b: Basis): Option<int> {
    if b.exitPlan.Some? && b.exitPlan.value.maxHoldingMs.Some? then Some(b.openedAt + b.exitPlan.value.maxHoldingMs.value)
    else None
  }

  function HoldingExit(p: Position, price: real, at: int, cfg: ConfigData): Option<Settlement> {
    var deadline := HoldingDeadline(p.basis);
    if deadline.None? || at < deadline.value then None
    else Some(Settle(p, price, at, HoldingTimeout, cfg))
  }

  /** One minute of prices. Its indicators are absent, so only a lost breakout level can signal. */
  datatype Candle = Candle(symbol: string, open: real, high: real, low: real, close: real)

  predicate ValidCandle(c: Candle) {
    c.open > 0.0 && c.high > 0.0 && c.low > 0.0 && c.close > 0.0
    && c.low <= MinR(c.open, c.close) && c.high >= MaxR(c.open, c.close)
  }

  function CandleSignalExit(p: Position, c: Candle, openTime: int, cfg: ConfigData): Option<Settlement> {
    var closedAt := if p.basis.exitPlan.Some? then openTime + cfg.intervalMs else openTime;
    if && p.basis.signalExitEnabled && p.basis.exitPlan.Some? && closedAt > p.basis.openedAt
       && p.basis.exitPlan.value.breakoutLevel.Some?
       && Favours(p.basis.side, p.basis.exitPlan.value.breakoutLevel.value, c.close)
    then Some(Settle(p, c.close, closedAt, SignalExit, cfg))
    else None
  }

  function Favourable(side: Side, c: Candle): real { if side.Long? then c.high else c.low }

  function Adverse(side: Side, c: Candle): real { if side.Long? then c.low else c.high }

  function CandleExit(p: Position, c: Candle, openTime: int, cfg: ConfigData): Option<Settlement> {
    var opening := PriceExit(p, c.open, openTime, cfg);
    var level := NearestLevel(p);
    if opening.Some? then opening
    else if Favours(p.basis.side, level.price, Adverse(p.basis.side, c)) then
      Some(Settle(p, level.price, openTime, level.reason, cfg))
    else if TakeTouched(p, Favourable(p.basis.side, c)) then
      Some(Settle(p, p.basis.takePrice, openTime, TakeProfit, cfg))
    else CandleSignalExit(p, c, openTime, cfg)
  }

  // ---------------------------------------------------------------- a plain path of prices

  /** The quote at which an interrupted stream becomes known again. */
  datatype Quote = Quote(symbol: string, price: real, at: int)

  datatype Tick = Tick(price: Price, at: int)

  datatype Walk = Open(now: Protected) | Exited(index: nat)

  /** Prices taken one at a time: an exit if touched, otherwise one protection step. */
  function Follow(q: Protected, ticks: seq<Tick>, cfg: ConfigData, policy: Option<Policy>): Walk
    decreases |ticks|
  {
    if ticks == [] then Open(q)
    else if Touched(q.position, ticks[0].price) then Exited(0)
    else
      match Follow(Advance(q, ticks[0].price, ticks[0].at, cfg, policy), ticks[1..], cfg, policy)
      case Open(r) => Open(r)
      case Exited(i) => Exited(i + 1)
  }
}
