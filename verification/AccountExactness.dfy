/** What the account assessment says, told from cash, marks, fees and levels: when it latches, forces a close, and refuses. */
module AccountExactness {
  import opened Common
  import opened EngineLaws
  import opened StepExactness
  import opened Account

  // ---------------------------------------------------------------- one holding

  /** What the position has gained at its mark. */
  function AtMark(h: Holding): real {
    (if h.side.Long? then h.markPrice - h.entryPrice else h.entryPrice - h.markPrice) * h.quantity
  }

  /** Fee and slippage of closing at the mark. */
  function Leaving(h: Holding): real {
    if h.costs.None? then 0.0 else h.markPrice * h.quantity * (h.costs.value.takerFeeBps + h.costs.value.slippageBps) / 10000.0
  }

  /** The day counts a position's loss at its mark and its costs, and no gain. */
  function OnTheDay(h: Holding): real {
    if h.quantity == 0.0 then 0.0 else (if AtMark(h) < 0.0 then AtMark(h) else 0.0) - h.entryFee - Leaving(h)
  }

  function InEquity(h: Holding): real {
    h.realizedPnl + if h.quantity == 0.0 then 0.0 else AtMark(h) - h.entryFee - Leaving(h)
  }

  function GainAtMark(h: Holding): real {
    if h.quantity == 0.0 || AtMark(h) <= 0.0 then 0.0 else AtMark(h)
  }

  function AtMarkValue(h: Holding): real {
    if h.quantity == 0.0 then 0.0 else h.markPrice * h.quantity
  }

  /** The tightest protective level in force. */
  predicate InForce(h: Holding, level: real) {
    if h.trailingPrice.None? then level == h.stopPrice
    else Better(h.side, h.stopPrice, h.trailingPrice.value, level)
  }

  /** The price a stop at a level is filled at: less slippage, and on the tick grid never on the favourable side of that. */
  ghost predicate FilledAt(side: Side, level: real, slippageBps: real, tick: Option<Price>, fill: real) {
    exists share :: IsShare(side, slippageBps, share) && FillOf(side, level, share, tick, fill)
  }

  ghost predicate FillOf(side: Side, level: real, share: real, tick: Option<Price>, fill: real) {
    if tick.None? then fill == Times(level, share) else FirstPoint(if side.Long? then Short else Long, Times(level, share), tick.value, fill)
  }

  /** What a stop costs: the way from entry to the fill where that is a loss, and both fees. */
  ghost predicate StopCosts(side: Side, entryPrice: real, level: real, quantity: real, entryFee: real, takerFeeBps: real, slippageBps: real,
                            tick: Option<Price>, loss: real) {
    exists fill ::
      && FilledAt(side, level, slippageBps, tick, fill) && fill > 0.0
      && entryPrice > 0.0 && level > 0.0 && quantity > 0.0 && entryFee >= 0.0 && takerFeeBps >= 0.0 && slippageBps >= 0.0
      && loss == Times(LossAt(side, entryPrice, fill), quantity) + entryFee + FeeOn(fill, quantity, takerFeeBps)
  }

  function LossAt(side: Side, entryPrice: real, fill: real): real {
    var way := if side.Long? then entryPrice - fill else fill - entryPrice;
    if way > 0.0 then way else 0.0
  }

  lemma FillIs(side: Side, level: real, slippageBps: real, tick: Option<Price>, fill: real)
    ensures FilledAt(side, level, slippageBps, tick, fill) <==> fill == StopFill(side, level, slippageBps, tick)
  {
    hide FirstPoint, RoundStep;
    var share := SlideShare(side, slippageBps);
    assert IsShare(side, slippageBps, share);
    assert forall s :: IsShare(side, slippageBps, s) ==> s == share;
    assert Times(level, share) == Slid(side, level, slippageBps);
    if tick.Some? { FirstIsRounded(if side.Long? then Short else Long, Slid(side, level, slippageBps), tick.value, fill); }
    assert FillOf(side, level, share, tick, fill) <==> fill == StopFill(side, level, slippageBps, tick);
  }

  lemma StopCostsIs(side: Side, entryPrice: real, level: real, quantity: real, entryFee: real, takerFeeBps: real, slippageBps: real,
                    tick: Option<Price>, loss: real)
    ensures StopCosts(side, entryPrice, level, quantity, entryFee, takerFeeBps, slippageBps, tick, loss) <==>
              StopRisk(side, entryPrice, level, quantity, entryFee, takerFeeBps, slippageBps, tick) == Some(loss)
  {
    hide FilledAt, StopFill, LossAt, Times, FeeOn, ExitFee;
    var fill := StopFill(side, level, slippageBps, tick);
    forall f ensures FilledAt(side, level, slippageBps, tick, f) <==> f == fill { FillIs(side, level, slippageBps, tick, f); }
    LossIs(side, entryPrice, fill, quantity, takerFeeBps);
  }

  lemma LossIs(side: Side, entryPrice: real, fill: real, quantity: real, takerFeeBps: real)
    ensures Times(LossAt(side, entryPrice, fill), quantity) == MaxR(0.0, Gain(side, entryPrice, fill) * -1.0) * quantity
    ensures FeeOn(fill, quantity, takerFeeBps) == ExitFee(fill, quantity, takerFeeBps)
  {
    assert LossAt(side, entryPrice, fill) == MaxR(0.0, Gain(side, entryPrice, fill) * -1.0);
  }

  /** The stop of a holding costs so much; none can be told without valid costs and prices. */
  ghost predicate HoldingCosts(h: Holding, loss: real) {
    h.costs.Some? && exists level ::
      InForce(h, level)
      && StopCosts(h.side, h.entryPrice, level, h.quantity, h.entryFee, h.costs.value.takerFeeBps, h.costs.value.slippageBps, h.tick, loss)
  }

  lemma HoldingCostsIs(h: Holding, loss: real)
    ensures HoldingCosts(h, loss) <==> HoldingRisk(h) == Some(loss)
  {
    hide StopCosts, StopRisk;
    assert forall level :: InForce(h, level) <==> level == Nearest(h);
    if h.costs.Some? {
      StopCostsIs(h.side, h.entryPrice, Nearest(h), h.quantity, h.entryFee, h.costs.value.takerFeeBps, h.costs.value.slippageBps, h.tick, loss);
    }
  }

  ghost predicate Assessable(h: Holding) {
    h.quantity == 0.0 || exists loss :: HoldingCosts(h, loss)
  }

  /** What the stop may still cost beyond what the day already counts. */
  ghost predicate StillAtRisk(h: Holding, more: real) {
    if h.quantity == 0.0 || !Assessable(h) then more == 0.0
    else exists loss :: HoldingCosts(h, loss) && more == if loss + OnTheDay(h) > 0.0 then loss + OnTheDay(h) else 0.0
  }

  // ---------------------------------------------------------------- sums over the holdings

  function Sum(f: Holding -> real, holdings: seq<Holding>): real {
    if holdings == [] then 0.0 else f(holdings[0]) + Sum(f, holdings[1..])
  }

  /** The extra risks of all holdings, one by one. */
  ghost predicate RisksOf(holdings: seq<Holding>, total: real)
    decreases |holdings|
  {
    if holdings == [] then total == 0.0
    else exists more :: StillAtRisk(holdings[0], more) && RisksOf(holdings[1..], total - more)
  }

  lemma AddShares(t: Totals, h: Holding)
    ensures var s := Add(t, h);
            && s.equity == t.equity + InEquity(h) && s.dailyPnl == t.dailyPnl + OnTheDay(h) && s.exposure == t.exposure + AtMarkValue(h)
            && s.floatingGains == t.floatingGains + GainAtMark(h) && StillAtRisk(h, s.reserved - t.reserved)
            && (s.valid <==> t.valid && Assessable(h))
  {
    hide HoldingRisk, HoldingCosts;
    assert FloatingPnl(h) == AtMark(h);
    assert ExitCosts(h) == Leaving(h);
    forall loss ensures HoldingCosts(h, loss) <==> HoldingRisk(h) == Some(loss) { HoldingCostsIs(h, loss); }
    if HoldingRisk(h).Some? { assert HoldingCosts(h, HoldingRisk(h).value); }
  }

  lemma {:induction false} TallySums(t: Totals, holdings: seq<Holding>)
    ensures var s := Tally(t, holdings);
            && s.equity == t.equity + Sum(InEquity, holdings) && s.dailyPnl == t.dailyPnl + Sum(OnTheDay, holdings)
            && s.exposure == t.exposure + Sum(AtMarkValue, holdings) && s.floatingGains == t.floatingGains + Sum(GainAtMark, holdings)
            && RisksOf(holdings, s.reserved - t.reserved) && (s.valid <==> t.valid && forall h :: h in holdings ==> Assessable(h))
    decreases |holdings|
  {
    hide Add, Assessable, StillAtRisk, InEquity, OnTheDay, AtMarkValue, GainAtMark;
    if holdings != [] {
      var more := Add(t, holdings[0]);
      AddShares(t, holdings[0]);
      TallySums(more, holdings[1..]);
      assert forall h :: h in holdings <==> h == holdings[0] || h in holdings[1..];
      assert RisksOf(holdings[1..], (Tally(t, holdings).reserved - t.reserved) - (more.reserved - t.reserved));
    }
  }

  // ---------------------------------------------------------------- the daily limit

  predicate OnePercentOf(percent: real, r: Request) {
    || percent == r.policy.maxDailyLossPercent || percent == PercentOf(r.config)
    || exists h :: h in r.holdings && percent == PercentOf(h.costs)
  }

  /** Without risk settings nothing may be lost. */
  function PercentOf(c: Option<RiskConfig>): real {
    match c
    case None => 0.0
    case Some(settings) => settings.maxDailyLossPercent
  }

  /** The smallest of all daily percentages that apply. */
  predicate Strictest(percent: real, r: Request) {
    && OnePercentOf(percent, r) && percent <= r.policy.maxDailyLossPercent && percent <= PercentOf(r.config)
    && forall h :: h in r.holdings ==> percent <= PercentOf(h.costs)
  }

  lemma {:induction false} StrictestOf(percent: real, holdings: seq<Holding>)
    ensures var p := StrictestPercent(percent, holdings);
            && p <= percent && (forall h :: h in holdings ==> p <= PercentOf(h.costs))
            && (p == percent || exists h :: h in holdings && p == PercentOf(h.costs))
    decreases |holdings|
  {
    if holdings != [] {
      assert forall h :: h in holdings <==> h == holdings[0] || h in holdings[1..];
      StrictestOf(MinR(percent, DailyPercent(holdings[0].costs)), holdings[1..]);
    }
  }

  lemma StrictestIs(r: Request, percent: real)
    ensures Strictest(percent, r) <==>
              percent == StrictestPercent(MinR(r.policy.maxDailyLossPercent, DailyPercent(r.config)), r.holdings)
  {
    StrictestOf(MinR(r.policy.maxDailyLossPercent, DailyPercent(r.config)), r.holdings);
  }

  // ---------------------------------------------------------------- what the assessment reports

  /** The figures of an account on its day: what it counts, what it holds, and what may still be lost. */
  datatype Figures = Figures(equity: real, today: real, limit: real, gains: real, atRisk: real, exposure: real)

  ghost predicate AreFigures(r: Request, f: Figures) {
    && f.equity == r.policy.initialBalance + r.realizedNetPnl + Sum(InEquity, r.holdings)
    && f.today == r.utcCashPnl + Sum(OnTheDay, r.holdings)
    && f.gains == Sum(GainAtMark, r.holdings) && f.exposure == Sum(AtMarkValue, r.holdings) && RisksOf(r.holdings, f.atRisk)
    && exists percent :: Strictest(percent, r) && f.limit == r.policy.initialBalance * percent / 100.0
  }

  /** The day or the account is used up. */
  predicate UsedUp(r: Request, f: Figures) {
    r.config.Some? && (f.equity <= 0.0 || f.today <= -f.limit)
  }

  /** What the day and the account, without its floating gains, can still lose once every stop in force is counted. */
  predicate CanStillLose(f: Figures, left: real) {
    var spare := (if f.limit + f.today < f.equity - f.gains then f.limit + f.today else f.equity - f.gains) - f.atRisk;
    left == if f.limit < 0.0 || spare < 0.0 then 0.0 else spare
  }

  lemma ReportsFigures(r: Request, day: int, startsAt: int)
    ensures var a := Assess(r, day, startsAt);
            && AreFigures(r, FiguresOf(r, a)) && CanStillLose(FiguresOf(r, a), a.remaining)
            && a.equity == FiguresOf(r, a).equity
            && a.policy == r.policy && a.configured == r.config && a.day == day && a.startsAt == startsAt && a.positions == |r.holdings|
            && a.lossLimit == r.policy.initialBalance * PercentOf(r.config) / 100.0
            && a.maximumExposure == (if a.equity > 0.0 then a.equity else 0.0) * r.policy.maxAccountExposurePercent / 100.0
            && a.maximumPositions <= r.policy.maxOpenPositions && a.maximumPositions <= MostOf(r.config)
            && (a.maximumPositions == r.policy.maxOpenPositions || a.maximumPositions == MostOf(r.config))
  {
    hide Tally, StrictestPercent, Strictest, RisksOf, Sum;
    var t, percent := Tally(Opening(r), r.holdings), StrictestPercent(MinR(r.policy.maxDailyLossPercent, DailyPercent(r.config)), r.holdings);
    TallySums(Opening(r), r.holdings);
    RisksAreNotNegative(r.holdings, t.reserved);
    StrictestIs(r, percent);
  }

  function MostOf(c: Option<RiskConfig>): real {
    if c.None? then 0.0 else c.value.maxOpenPositions
  }

  /** The figures that an assessment shows, and its floating gains. */
  function FiguresOf(r: Request, a: Assessment): Figures {
    Figures(a.equity, a.dailyPnl, a.dailyLimit, Sum(GainAtMark, r.holdings), a.reserved, a.exposure)
  }

  lemma {:induction false} RisksAreNotNegative(holdings: seq<Holding>, total: real)
    requires RisksOf(holdings, total)
    ensures total >= 0.0
    decreases |holdings|
  {
    hide HoldingCosts, Assessable, OnTheDay;
    if holdings != [] {
      var more :| StillAtRisk(holdings[0], more) && RisksOf(holdings[1..], total - more);
      RisksAreNotNegative(holdings[1..], total - more);
    }
  }

  // ---------------------------------------------------------------- when everything is closed

  /** The account latches if and only if it is configured and its equity or its day is used up. */
  lemma LatchesExactly(r: Request, day: int, startsAt: int, f: Figures)
    requires AreFigures(r, f)
    ensures Assess(r, day, startsAt).shouldLatch <==> UsedUp(r, f)
  {
    hide AreFigures, Tally, StrictestPercent;
    ReportsFigures(r, day, startsAt);
    FiguresAreUnique(r, f, FiguresOf(r, Assess(r, day, startsAt)));
  }

  lemma FiguresAreUnique(r: Request, f: Figures, g: Figures)
    requires AreFigures(r, f) && AreFigures(r, g)
    ensures f == g
  {
    hide RisksOf, Sum, Strictest;
    RisksAreUnique(r.holdings, f.atRisk, g.atRisk);
    var p :| Strictest(p, r) && f.limit == r.policy.initialBalance * p / 100.0;
    var q :| Strictest(q, r) && g.limit == r.policy.initialBalance * q / 100.0;
    StrictestIsUnique(r, p, q);
  }

  lemma StrictestIsUnique(r: Request, p: real, q: real)
    requires Strictest(p, r) && Strictest(q, r)
    ensures p == q
  {
    hide Strictest, StrictestPercent;
    StrictestIs(r, p);
    StrictestIs(r, q);
  }

  lemma {:induction false} RisksAreUnique(holdings: seq<Holding>, x: real, y: real)
    requires RisksOf(holdings, x) && RisksOf(holdings, y)
    ensures x == y
    decreases |holdings|
  {
    hide HoldingCosts, OnTheDay, HoldingRisk;
    if holdings != [] {
      var h := holdings[0];
      var a :| StillAtRisk(h, a) && RisksOf(holdings[1..], x - a);
      var c :| StillAtRisk(h, c) && RisksOf(holdings[1..], y - c);
      forall loss ensures HoldingCosts(h, loss) <==> HoldingRisk(h) == Some(loss) { HoldingCostsIs(h, loss); }
      RisksAreUnique(holdings[1..], x - a, y - c);
    }
  }

  /** A close is forced if and only if the account is killed, halted or used up; the kill switch is named first. */
  lemma ForcesExactly(r: Request, day: int, startsAt: int, f: Figures)
    requires AreFigures(r, f)
    ensures var force := Assess(r, day, startsAt).forceClose;
            && (force.Some? <==> r.killSwitch || r.utcHalted || UsedUp(r, f))
            && (force == Some(KillSwitch) <==> r.killSwitch) && (force.Some? ==> force.value in {KillSwitch, DailyLossLimit})
  {
    hide AreFigures, Tally, StrictestPercent;
    LatchesExactly(r, day, startsAt, f);
  }

  // ---------------------------------------------------------------- when an entry is refused

  /** A cause that holds, and the failure it is reported as. */
  datatype Check = Check(holds: bool, failure: Failure)

  /** The failure of the first cause that holds. */
  predicate FirstCause(checks: seq<Check>, failure: Option<Failure>) {
    if failure.None? then forall c :: c in checks ==> !c.holds
    else exists i :: 0 <= i < |checks| && checks[i].holds && failure == Some(checks[i].failure) && forall j :: 0 <= j < i ==> !checks[j].holds
  }

  /** Why the account as a whole takes no entry, in order of precedence. */
  ghost function AccountChecks(r: Request, f: Figures, left: real): seq<Check> {
    [ Check(r.killSwitch, KillSwitch),
      Check(r.utcHalted || UsedUp(r, f), DailyLossLimit),
      Check(!r.fundingReady, FundingUnavailable),
      Check(r.config.None? || exists h :: h in r.holdings && !Assessable(h), InvalidRiskConfig),
      Check(!r.marketReady, MarketRecoveryRequired),
      Check(r.strategyCashPnl <= -(r.policy.initialBalance * PercentOf(r.config) / 100.0), StrategyDailyLossLimit),
      Check(left <= 0.0, MaxAccountStopRisk) ]
  }

  lemma ReasonIsFirstCause(r: Request, day: int, startsAt: int, f: Figures, left: real)
    requires AreFigures(r, f) && CanStillLose(f, left)
    ensures FirstCause(AccountChecks(r, f, left), Assess(r, day, startsAt).reason)
  {
    hide AreFigures, Tally, StrictestPercent, Assessable, RisksOf;
    var a, checks := Assess(r, day, startsAt), AccountChecks(r, f, left);
    ReportsFigures(r, day, startsAt);
    FiguresAreUnique(r, f, FiguresOf(r, a));
    LatchesExactly(r, day, startsAt, f);
    TallySums(Opening(r), r.holdings);
    assert |checks| == 7;
    if a.reason.Some? {
      assert checks[0].holds || checks[1].holds || checks[2].holds || checks[3].holds || checks[4].holds || checks[5].holds || checks[6].holds;
    }
  }

  /** Why one entry is refused, in order of precedence, once the account takes entries at all. */
  ghost function EntryChecks(r: Request, f: Figures, left: real, c: Candidate): seq<Check> {
    var capital, percent := if f.equity > 0.0 then f.equity else 0.0, if r.config.Some? then r.config.value.riskPerTradePercent else 0.0;
    [ Check(c.quantity <= 0.0 || c.entryPrice <= 0.0 || c.stopPrice <= 0.0 || c.entryFee < 0.0, InvalidEntrySize),
      Check(exists h :: h in r.holdings && h.symbol == c.symbol && h.side != c.side && h.quantity > 0.0, DirectionConflict),
      Check(|r.holdings| as real >= r.policy.maxOpenPositions || |r.holdings| as real >= MostOf(r.config), MaxOpenPositions),
      Check(f.exposure + c.quantity * c.entryPrice + c.entryFee > capital * r.policy.maxAccountExposurePercent / 100.0 + TINY, MaxAccountExposure),
      Check(!exists loss :: CandidateCosts(r, c, loss), InvalidEntrySize),
      Check(exists loss :: CandidateCosts(r, c, loss) && loss > capital * percent / 100.0 + TINY, MaxTradeRisk),
      Check(exists loss :: CandidateCosts(r, c, loss) && loss > left + TINY, MaxAccountStopRisk) ]
  }

  /** What the stop of the entry would cost under the account's settings. */
  ghost predicate CandidateCosts(r: Request, c: Candidate, loss: real) {
    r.config.Some?
    && StopCosts(c.side, c.entryPrice, c.stopPrice, c.quantity, c.entryFee, r.config.value.takerFeeBps, r.config.value.slippageBps, c.tick, loss)
  }

  /** An entry is refused for the first listed cause that holds, and admitted if and only if none does. */
  lemma EntryFailsForFirstCause(r: Request, day: int, startsAt: int, f: Figures, left: real, c: Candidate)
    requires AreFigures(r, f) && CanStillLose(f, left)
    ensures FirstCause(AccountChecks(r, f, left) + EntryChecks(r, f, left, c), EntryFailure(Assess(r, day, startsAt), c, r.holdings))
  {
    hide AreFigures, Tally, StrictestPercent, Assessable, RisksOf, StopCosts, StopRisk, AccountChecks;
    var a, account := Assess(r, day, startsAt), AccountChecks(r, f, left);
    var entry, failure := EntryChecks(r, f, left, c), EntryFailure(a, c, r.holdings);
    ReasonIsFirstCause(r, day, startsAt, f, left);
    ReportsFigures(r, day, startsAt);
    FiguresAreUnique(r, f, FiguresOf(r, a));
    LeftIsUnique(f, left, a.remaining);
    if a.reason.Some? {
      EarlierCause(account, entry, failure);
    } else {
      EntryIsFirstCause(r, a, f, left, c);
      LaterCause(account, entry, failure);
    }
  }

  lemma LeftIsUnique(f: Figures, x: real, y: real)
    requires CanStillLose(f, x) && CanStillLose(f, y)
    ensures x == y
  {
  }

  lemma EarlierCause(a: seq<Check>, b: seq<Check>, failure: Option<Failure>)
    requires failure.Some? && FirstCause(a, failure)
    ensures FirstCause(a + b, failure)
  {
    var i :| 0 <= i < |a| && a[i].holds && failure == Some(a[i].failure) && forall j :: 0 <= j < i ==> !a[j].holds;
    assert (a + b)[i] == a[i];
  }

  lemma LaterCause(a: seq<Check>, b: seq<Check>, failure: Option<Failure>)
    requires FirstCause(a, None) && FirstCause(b, failure)
    ensures FirstCause(a + b, failure)
  {
    if failure.Some? {
      var i :| 0 <= i < |b| && b[i].holds && failure == Some(b[i].failure) && forall j :: 0 <= j < i ==> !b[j].holds;
      assert (a + b)[|a| + i] == b[i];
    }
  }

  lemma EntryIsFirstCause(r: Request, a: Assessment, f: Figures, left: real, c: Candidate)
    requires a.reason.None? && a.configured == r.config && r.config.Some? && a.positions == |r.holdings| && a.exposure == f.exposure
    requires a.remaining == left && a.equity == f.equity
    requires a.maximumExposure == (if f.equity > 0.0 then f.equity else 0.0) * r.policy.maxAccountExposurePercent / 100.0
    requires a.maximumPositions <= r.policy.maxOpenPositions && a.maximumPositions <= MostOf(r.config)
    requires a.maximumPositions == r.policy.maxOpenPositions || a.maximumPositions == MostOf(r.config)
    ensures FirstCause(EntryChecks(r, f, left, c), EntryFailure(a, c, r.holdings))
  {
    hide StopCosts, StopRisk;
    var cfg, checks, failure := r.config.value, EntryChecks(r, f, left, c), EntryFailure(a, c, r.holdings);
    var risk := StopRisk(c.side, c.entryPrice, c.stopPrice, c.quantity, c.entryFee, cfg.takerFeeBps, cfg.slippageBps, c.tick);
    forall loss ensures CandidateCosts(r, c, loss) <==> risk == Some(loss) {
      StopCostsIs(c.side, c.entryPrice, c.stopPrice, c.quantity, c.entryFee, cfg.takerFeeBps, cfg.slippageBps, c.tick, loss);
    }
    assert |checks| == 7;
    if failure.Some? {
      assert checks[0].holds || checks[1].holds || checks[2].holds || checks[3].holds || checks[4].holds || checks[5].holds || checks[6].holds;
    }
  }
}
