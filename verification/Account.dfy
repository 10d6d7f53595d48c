/** Risk of one virtual account: what open positions may still lose, and which entries are admitted. */
module Account {
  import opened Common

  /** Risk settings of one strategy; the daily limits are percentages of the initial balance. */
  datatype RiskConfigData = RiskConfig(timezone: string, maxDailyLossPercent: real, maxOpenPositions: real,
                                       riskPerTradePercent: real, takerFeeBps: real, slippageBps: real)
  type RiskConfig = c: RiskConfigData |
      && c.maxDailyLossPercent >= 0.0 && c.maxOpenPositions >= 0.0 && c.riskPerTradePercent >= 0.0
      && c.takerFeeBps >= 0.0 && c.slippageBps >= 0.0
    witness RiskConfig("UTC", 0.0, 0.0, 0.0, 0.0, 0.0)

  datatype Safety = Safety(initialBalance: real, maxDailyLossPercent: real, maxAccountExposurePercent: real, maxOpenPositions: real)

  datatype Holding = Holding(symbol: string, side: Side, entryPrice: real, stopPrice: real, trailingPrice: Option<real>,
                             quantity: real, entryFee: real, markPrice: real, realizedPnl: real,
                             costs: Option<RiskConfig>, tick: Option<Price>)

  datatype Candidate = Candidate(symbol: string, side: Side, quantity: real, entryPrice: real, stopPrice: real,
                                 entryFee: real, tick: Option<Price>)

  datatype Failure = KillSwitch | DailyLossLimit | FundingUnavailable | InvalidRiskConfig | MarketRecoveryRequired
                   | StrategyDailyLossLimit | MaxAccountStopRisk | InvalidEntrySize | DirectionConflict
                   | MaxOpenPositions | MaxAccountExposure | MaxTradeRisk

  datatype Request = Request(policy: Safety, config: Option<RiskConfig>, now: int, realizedNetPnl: real, utcCashPnl: real,
                             strategyCashPnl: real, holdings: seq<Holding>, marketReady: bool, fundingReady: bool,
                             utcHalted: bool, killSwitch: bool)

  datatype Assessment = Assessment(policy: Safety, reason: Option<Failure>, forceClose: Option<Failure>, shouldLatch: bool,
                                   equity: real, dailyPnl: real, dailyLimit: real, reserved: real, remaining: real,
                                   day: int, startsAt: int, lossLimit: real, exposure: real, positions: nat,
                                   maximumExposure: real, maximumPositions: real, configured: Option<RiskConfig>)

  const TINY := 0.00000001

  // ---------------------------------------------------------------- what a protective level may cost

  /** The share of a price that slippage leaves. */
  function SlideShare(side: Side, slippageBps: real): real {
    1.0 - Dir(side) * slippageBps / 10000.0
  }

  function Slid(side: Side, level: real, slippageBps: real): real {
    level * SlideShare(side, slippageBps)
  }

  /** The price a protective level is filled at; on the tick grid it is rounded against the position. */
  function StopFill(side: Side, level: real, slippageBps: real, tick: Option<Price>): real {
    var raw := Slid(side, level, slippageBps);
    if tick.Some? then RoundStep(raw, tick.value, !side.Long?) else raw
  }

  /** The exit fee paid on a fill. */
  function ExitFee(fill: real, quantity: real, takerFeeBps: real): real {
    fill * quantity * takerFeeBps / 10000.0
  }

  /** The loss when the level is hit, costs included; nothing for numbers that make no sense. */
  function StopRisk(side: Side, entryPrice: real, level: real, quantity: real, entryFee: real,
                    takerFeeBps: real, slippageBps: real, tick: Option<Price>): Option<real>
  {
    var fill := StopFill(side, level, slippageBps, tick);
    if entryPrice <= 0.0 || level <= 0.0 || quantity <= 0.0 || entryFee < 0.0 || takerFeeBps < 0.0 || slippageBps < 0.0 || fill <= 0.0
    then None
    else Some(MaxR(0.0, Gain(side, entryPrice, fill) * -1.0) * quantity + entryFee + ExitFee(fill, quantity, takerFeeBps))
  }

  function RemainingBudget(dailyLimit: real, dailyPnl: real, equityWithoutFloatingGains: real, reserved: real): real {
    if dailyLimit < 0.0 || reserved < 0.0 then 0.0
    else MaxR(0.0, MinR(dailyLimit + dailyPnl, equityWithoutFloatingGains) - reserved)
  }

  /** The nearest protection in force. */
  function Nearest(h: Holding): real {
    if h.trailingPrice.None? then h.stopPrice else Join(h.side, h.stopPrice, h.trailingPrice.value)
  }

  function FloatingPnl(h: Holding): real {
    (h.markPrice - h.entryPrice) * h.quantity * Dir(h.side)
  }

  function ExitCosts(h: Holding): real {
    h.markPrice * h.quantity * (if h.costs.Some? then h.costs.value.takerFeeBps + h.costs.value.slippageBps else 0.0) / 10000.0
  }

  function HoldingRisk(h: Holding): Option<real> {
    if h.costs.None? then None
    else StopRisk(h.side, h.entryPrice, Nearest(h), h.quantity, h.entryFee, h.costs.value.takerFeeBps, h.costs.value.slippageBps, h.tick)
  }

  // ---------------------------------------------------------------- the account

  datatype Totals = Totals(equity: real, dailyPnl: real, exposure: real, floatingGains: real, reserved: real, valid: bool)

  function Add(t: Totals, h: Holding): Totals {
    if h.quantity == 0.0 then t.(equity := t.equity + h.realizedPnl)
    else
      var pnl, costs, risk := FloatingPnl(h), ExitCosts(h), HoldingRisk(h);
      Totals(t.equity + h.realizedPnl + pnl - h.entryFee - costs,
             t.dailyPnl + MinR(0.0, pnl) - h.entryFee - costs,
             t.exposure + h.markPrice * h.quantity,
             t.floatingGains + MaxR(0.0, pnl),
             if risk.Some? then t.reserved + MaxR(0.0, risk.value - (MaxR(0.0, -pnl) + h.entryFee + costs)) else t.reserved,
             t.valid && risk.Some?)
  }

  function Tally(t: Totals, holdings: seq<Holding>): Totals
    decreases |holdings|
  {
    if holdings == [] then t else Tally(Add(t, holdings[0]), holdings[1..])
  }

  function Opening(r: Request): Totals {
    Totals(r.policy.initialBalance + r.realizedNetPnl, r.utcCashPnl, 0.0, 0.0, 0.0, true)
  }

  function DailyPercent(c: Option<RiskConfig>): real {
    if c.Some? then c.value.maxDailyLossPercent else 0.0
  }

  /** The strictest daily percentage of the server, the strategy and every open position. */
  function StrictestPercent(percent: real, holdings: seq<Holding>): real
    decreases |holdings|
  {
    if holdings == [] then percent else StrictestPercent(MinR(percent, DailyPercent(holdings[0].costs)), holdings[1..])
  }

  function DailyLimit(policy: Safety, percent: real): real {
    policy.initialBalance * percent / 100.0
  }

  function Conclude(r: Request, t: Totals, percent: real, day: int, startsAt: int): Assessment {
    var limit := DailyLimit(r.policy, percent);
    var remaining := RemainingBudget(limit, t.dailyPnl, t.equity - t.floatingGains, t.reserved);
    var latch := r.config.Some? && (t.equity <= 0.0 || t.dailyPnl <= -limit);
    var lossLimit := DailyLimit(r.policy, DailyPercent(r.config));
    var force := if r.killSwitch then Some(KillSwitch) else if r.utcHalted || latch then Some(DailyLossLimit) else None;
    var reason :=
      if force.Some? then force
      else if !r.fundingReady then Some(FundingUnavailable)
      else if r.config.None? || !t.valid then Some(InvalidRiskConfig)
      else if !r.marketReady then Some(MarketRecoveryRequired)
      else if r.strategyCashPnl <= -lossLimit then Some(StrategyDailyLossLimit)
      else if remaining <= 0.0 then Some(MaxAccountStopRisk)
      else None;
    Assessment(r.policy, reason, force, latch, t.equity, t.dailyPnl, limit, t.reserved, remaining, day, startsAt, lossLimit,
               t.exposure, |r.holdings|, MaxR(0.0, t.equity) * r.policy.maxAccountExposurePercent / 100.0,
               MinR(r.policy.maxOpenPositions, if r.config.Some? then r.config.value.maxOpenPositions else 0.0), r.config)
  }

  function Assess(r: Request, day: int, startsAt: int): Assessment {
    Conclude(r, Tally(Opening(r), r.holdings),
             StrictestPercent(MinR(r.policy.maxDailyLossPercent, DailyPercent(r.config)), r.holdings), day, startsAt)
  }

  predicate Opposed(c: Candidate, holdings: seq<Holding>) {
    exists h :: h in holdings && h.quantity > 0.0 && h.symbol == c.symbol && h.side != c.side
  }

  function EntryFailure(a: Assessment, c: Candidate, holdings: seq<Holding>): Option<Failure> {
    if a.reason.Some? then a.reason
    else if c.quantity <= 0.0 || c.entryPrice <= 0.0 || c.stopPrice <= 0.0 || c.entryFee < 0.0 then Some(InvalidEntrySize)
    else if Opposed(c, holdings) then Some(DirectionConflict)
    else if a.positions as real >= a.maximumPositions then Some(MaxOpenPositions)
    else if a.exposure + c.quantity * c.entryPrice + c.entryFee > a.maximumExposure + TINY then Some(MaxAccountExposure)
    else if a.configured.None? then Some(InvalidRiskConfig)
    else
      var cfg := a.configured.value;
      var loss := StopRisk(c.side, c.entryPrice, c.stopPrice, c.quantity, c.entryFee, cfg.takerFeeBps, cfg.slippageBps, c.tick);
      if loss.None? then Some(InvalidEntrySize)
      else if loss.value > MaxR(0.0, a.equity) * cfg.riskPerTradePercent / 100.0 + TINY then Some(MaxTradeRisk)
      else if loss.value > a.remaining + TINY then Some(MaxAccountStopRisk)
      else None
  }

  // ---------------------------------------------------------------- the local trading day

  /** The local calendar date at an instant, ordered like dates. */
  type DateKey = (string, int) -> int

  const DAY_SEARCH := 172800000

  /** The instant at which the date first reaches `day` within the searched window. */
  predicate StartsDay(key: DateKey, timezone: string, day: int, start: int) {
    key(timezone, start - 1) < day <= key(timezone, start)
  }

  /** The search: halves the window, keeping an instant before the date and one at which the date is reached. */
  function Bisect(key: DateKey, timezone: string, day: int, low: int, high: int): (start: int)
    requires low < high
    ensures low < start <= high
    ensures key(timezone, low) < day <= key(timezone, high) ==> StartsDay(key, timezone, day, start)
    decreases high - low
  {
    if high - low == 1 then high
    else
      var mid := (low + high) / 2;
      if key(timezone, mid) < day then Bisect(key, timezone, day, mid, high) else Bisect(key, timezone, day, low, mid)
  }

  function Search(key: DateKey, timezone: string, now: int): int {
    Bisect(key, timezone, key(timezone, now), now - DAY_SEARCH, now)
  }

  class TradingCalendar {
    const key: DateKey
    var days: map<(string, int), int>

    ghost predicate Valid()
      reads this
    {
      forall k :: k in days ==> StartsDay(key, k.0, k.1, days[k])
    }

    constructor (key: DateKey)
      ensures Valid() && this.key == key && days == map[]
    {
      this.key := key;
      days := map[];
    }

    /** The local date and its first instant: a binary search over two days, remembered per zone and date. */
    method ExecutionTradingDay(now: int, timezone: string) returns (day: int, startsAt: int)
      requires Valid() && key(timezone, now - DAY_SEARCH) < key(timezone, now)
      modifies this
      ensures Valid() && day == key(timezone, now) && StartsDay(key, timezone, day, startsAt)
      ensures (timezone, day) in old(days) ==> days == old(days) && startsAt == old(days)[(timezone, day)]
      ensures (timezone, day) !in old(days) ==>
                days == old(days)[(timezone, day) := startsAt] && startsAt == Search(key, timezone, now)
    {
      day := key(timezone, now);
      if (timezone, day) in days { return day, days[(timezone, day)]; }
      var low, high := now - DAY_SEARCH, now;
      while high - low > 1
        invariant now - DAY_SEARCH <= low < high <= now
        invariant key(timezone, low) < day <= key(timezone, high)
        invariant Bisect(key, timezone, day, low, high) == Search(key, timezone, now)
      {
        var mid := (low + high) / 2;
        if key(timezone, mid) < day { low := mid; } else { high := mid; }
      }
      startsAt := high;
      days := days[(timezone, day) := startsAt];
    }
  }

  /** The date reaches the day and is before it again later. */
  ghost predicate FallsBehind(key: DateKey, timezone: string, day: int) {
    exists s, t :: s <= t && key(timezone, s) >= day > key(timezone, t)
  }

  ghost predicate OneStart(key: DateKey, timezone: string, day: int) {
    forall s, t :: StartsDay(key, timezone, day, s) && StartsDay(key, timezone, day, t) ==> s == t
  }

  lemma TwoStarts(key: DateKey, timezone: string, day: int, s: int, t: int)
    requires StartsDay(key, timezone, day, s) && StartsDay(key, timezone, day, t) && s < t
    ensures FallsBehind(key, timezone, day)
  {
    assert key(timezone, s) >= day > key(timezone, t - 1);
  }

  /** A date that comes at some time and is over at some time has one start if and only if the date never falls behind it again. */
  lemma DayStartIsUnique(key: DateKey, timezone: string, day: int, lo: int, hi: int)
    requires forall t :: t <= lo ==> key(timezone, t) < day
    requires forall t :: t >= hi ==> key(timezone, t) >= day
    ensures OneStart(key, timezone, day) <==> !FallsBehind(key, timezone, day)
  {
    if FallsBehind(key, timezone, day) {
      var s, t :| s <= t && key(timezone, s) >= day > key(timezone, t);
      var first, second := Bisect(key, timezone, day, lo, s), Bisect(key, timezone, day, t, Max(hi, t + 1));
      assert StartsDay(key, timezone, day, first) && StartsDay(key, timezone, day, second);
    } else {
      forall s, t | StartsDay(key, timezone, day, s) && StartsDay(key, timezone, day, t) ensures s == t {
        if s != t { TwoStarts(key, timezone, day, Min(s, t), Max(s, t)); }
      }
    }
  }

  /** In a window where the date is before the day up to one instant and not after it, the search finds that instant. */
  lemma BisectFinds(key: DateKey, timezone: string, day: int, low: int, high: int, start: int)
    requires low < start <= high
    requires forall t :: low <= t <= high ==> (key(timezone, t) >= day <==> t >= start)
    ensures Bisect(key, timezone, day, low, high) == start
  {
    assert StartsDay(key, timezone, day, Bisect(key, timezone, day, low, high));
  }

  /** While the date has not fallen behind the day, every reading of the clock leads to the same start, however often it is searched. */
  lemma SearchesAgree(key: DateKey, timezone: string, now: int, later: int)
    requires key(timezone, now) == key(timezone, later) && !FallsBehind(key, timezone, key(timezone, now))
    requires key(timezone, now - DAY_SEARCH) < key(timezone, now) && key(timezone, later - DAY_SEARCH) < key(timezone, later)
    ensures Search(key, timezone, now) == Search(key, timezone, later)
  {
    var day, s, t := key(timezone, now), Search(key, timezone, now), Search(key, timezone, later);
    assert StartsDay(key, timezone, day, s) && StartsDay(key, timezone, day, t);
    if s != t { TwoStarts(key, timezone, day, Min(s, t), Max(s, t)); }
  }

  const HALF_SEARCH := DAY_SEARCH / 2

  /** A zone whose clock is set back shortly after midnight: the second date comes, goes and comes again. */
  function SetBack(midnight: int, back: int, again: int, next: int): DateKey {
    (timezone: string, t: int) => if t < midnight || back <= t < again then 1 else if t < next then 2 else 3
  }

  /**
   There the start depends on when the date is first asked for: at any instant before the clock is set back the search
   finds the first midnight; one day after any instant that then repeats the old date it finds the second.
   */
  lemma ADateMayStartTwice(midnight: int, back: int, again: int, next: int, early: int, late: int)
    requires midnight < back < again <= midnight + HALF_SEARCH
    requires midnight <= early < back && back <= late - HALF_SEARCH < again && late < next
    ensures var key := SetBack(midnight, back, again, next);
            && key("America/St_Johns", early) == 2 == key("America/St_Johns", late)
            && key("America/St_Johns", early - DAY_SEARCH) < 2 && key("America/St_Johns", late - DAY_SEARCH) < 2
            && Search(key, "America/St_Johns", early) == midnight && Search(key, "America/St_Johns", late) == again
  {
    var key := SetBack(midnight, back, again, next);
    BisectFinds(key, "America/St_Johns", 2, early - DAY_SEARCH, early, midnight);
    assert (late - DAY_SEARCH + late) / 2 == late - HALF_SEARCH;
    BisectFinds(key, "America/St_Johns", 2, late - HALF_SEARCH, late, again);
  }

  /** Set back one hour at one minute past midnight: the first minute of the date against its last 59 minutes. */
  lemma OneMinutePastMidnight(midnight: int, early: int, late: int)
    requires midnight <= early < midnight + 60000 && midnight + 86460000 <= late < midnight + 90000000
    ensures var key := SetBack(midnight, midnight + 60000, midnight + 3600000, midnight + 90000000);
            Search(key, "America/St_Johns", late) == Search(key, "America/St_Johns", early) + 3600000
  {
    ADateMayStartTwice(midnight, midnight + 60000, midnight + 3600000, midnight + 90000000, early, late);
  }

  // ---------------------------------------------------------------- the assessment loop

  method AssessExecutionAccount(calendar: TradingCalendar, r: Request) returns (a: Assessment)
    requires calendar.Valid()
    requires var timezone := if r.config.Some? then r.config.value.timezone else "UTC";
             calendar.key(timezone, r.now - DAY_SEARCH) < calendar.key(timezone, r.now)
    modifies calendar
    ensures calendar.Valid() && a == Assess(r, a.day, a.startsAt)
    ensures var timezone := if r.config.Some? then r.config.value.timezone else "UTC";
            a.day == calendar.key(timezone, r.now) && StartsDay(calendar.key, timezone, a.day, a.startsAt)
  {
    hide Add;
    var day, startsAt := calendar.ExecutionTradingDay(r.now, if r.config.Some? then r.config.value.timezone else "UTC");
    var t, percent, i := Opening(r), MinR(r.policy.maxDailyLossPercent, DailyPercent(r.config)), 0;
    while i < |r.holdings|
      invariant i <= |r.holdings|
      invariant Tally(t, r.holdings[i..]) == Tally(Opening(r), r.holdings)
      invariant StrictestPercent(percent, r.holdings[i..])
                == StrictestPercent(MinR(r.policy.maxDailyLossPercent, DailyPercent(r.config)), r.holdings)
    {
      assert r.holdings[i..][0] == r.holdings[i] && r.holdings[i..][1..] == r.holdings[i + 1..];
      t := Add(t, r.holdings[i]);
      percent := MinR(percent, DailyPercent(r.holdings[i].costs));
      i := i + 1;
    }
    assert r.holdings[i..] == [];
    a := Conclude(r, t, percent, day, startsAt);
  }
}
