/** Admission bounds the worst day: what the account can still lose if every open position is stopped out. */
module AccountLaws {
  import opened Common
  import opened Engine
  import opened Account

  // ---------------------------------------------------------------- what a stopped position nets

  /** Cash from closing at a fill: the price move less the entry fee and the exit fee. */
  function NetAt(side: Side, entryPrice: real, fill: real, quantity: real, entryFee: real, takerFeeBps: real): real {
    Gain(side, entryPrice, fill) * quantity - entryFee - ExitFee(fill, quantity, takerFeeBps)
  }

  /** Cash from closing at the nearest protection in force. */
  function NetAtStop(h: Holding): real {
    if h.quantity == 0.0 || h.costs.None? then 0.0
    else NetAt(h.side, h.entryPrice, StopFill(h.side, Nearest(h), h.costs.value.slippageBps, h.tick), h.quantity, h.entryFee,
               h.costs.value.takerFeeBps)
  }

  function NetAtStops(holdings: seq<Holding>): real {
    if holdings == [] then 0.0 else NetAtStop(holdings[0]) + NetAtStops(holdings[1..])
  }

  function Realized(holdings: seq<Holding>): real {
    if holdings == [] then 0.0 else holdings[0].realizedPnl + Realized(holdings[1..])
  }

  /** The engine's settlement at the nearest level is the net that the account reserves for. */
  lemma SettlementNetsTheStop(p: Position, cfg: Config, h: Holding)
    requires h.side == p.basis.side && h.entryPrice == p.basis.entryPrice && h.quantity == p.basis.quantity
    requires h.entryFee == p.basis.entryFee && h.stopPrice == p.stop && h.trailingPrice == p.trailing
    requires h.tick == (if p.basis.rules.Some? then Some(p.basis.rules.value.tick) else None)
    requires h.costs.Some? && h.costs.value.takerFeeBps == cfg.costs.takerFeeBps && h.costs.value.slippageBps == cfg.costs.slippageBps
    ensures NearestLevel(p).price == Nearest(h)
    ensures forall at, reason :: Settle(p, NearestLevel(p).price, at, reason, cfg).netPnl == NetAtStop(h)
  {
    hide SlippedPrice, StopFill, ExitFee, OpensWithin;
    var b, level := p.basis, Nearest(h);
    assert NearestLevel(p).price == level;
    SlippedIsStopFill(b, level, cfg, h.tick);
    var exit := SlippedPrice(b, level, cfg);
    FeeIsExitFee(exit, b.quantity, cfg.costs.takerFeeBps);
    forall at, reason ensures Settle(p, level, at, reason, cfg).netPnl == NetAtStop(h) { }
  }

  lemma SlippedIsStopFill(b: Basis, level: real, cfg: Config, tick: Option<Price>)
    requires tick == (if b.rules.Some? then Some(b.rules.value.tick) else None)
    ensures SlippedPrice(b, level, cfg) == StopFill(b.side, level, cfg.costs.slippageBps, tick)
  {
    assert SlipShare(b.side, cfg) == 1.0 - Dir(b.side) * cfg.costs.slippageBps / 10000.0;
  }

  lemma FeeIsExitFee(fill: real, quantity: real, takerFeeBps: real)
    ensures fill * quantity * (takerFeeBps / 10000.0) == ExitFee(fill, quantity, takerFeeBps)
  {
  }

  /** The reserved stop risk is never less than the loss at the level. */
  lemma RiskCoversStop(h: Holding)
    requires HoldingRisk(h).Some?
    ensures NetAtStop(h) >= -HoldingRisk(h).value
  {
    hide StopFill, ExitFee;
    var fill := StopFill(h.side, Nearest(h), h.costs.value.slippageBps, h.tick);
    LossAtMost(h.side, h.entryPrice, fill, h.quantity);
  }

  lemma LossAtMost(side: Side, entryPrice: real, fill: real, quantity: real)
    requires quantity > 0.0
    ensures Gain(side, entryPrice, fill) * quantity >= -(MaxR(0.0, Gain(side, entryPrice, fill) * -1.0) * quantity)
  {
    var gain := Gain(side, entryPrice, fill);
    if gain >= 0.0 { assert gain * quantity >= 0.0; }
  }

  /** One more position: daily cash and equity, less what is reserved, stay below the result at its stop. */
  lemma AddCoversStop(t: Totals, h: Holding)
    requires Add(t, h).valid
    ensures t.valid
    ensures var u := Add(t, h);
            && u.dailyPnl - u.reserved <= t.dailyPnl - t.reserved + NetAtStop(h)
            && u.equity - u.floatingGains - u.reserved <= t.equity - t.floatingGains - t.reserved + h.realizedPnl + NetAtStop(h)
            && u.reserved >= t.reserved
  {
    hide FloatingPnl, ExitCosts, HoldingRisk, NetAtStop;
    if h.quantity != 0.0 {
      RiskCoversStop(h);
    } else {
      ClosedNetsNothing(h);
    }
  }

  lemma ClosedNetsNothing(h: Holding)
    ensures h.quantity == 0.0 ==> NetAtStop(h) == 0.0
  {
  }

  lemma {:induction false} TallyCoversStops(t: Totals, holdings: seq<Holding>)
    requires Tally(t, holdings).valid
    ensures t.valid
    ensures var u := Tally(t, holdings);
            && u.dailyPnl - u.reserved <= t.dailyPnl - t.reserved + NetAtStops(holdings)
            && u.equity - u.floatingGains - u.reserved
               <= t.equity - t.floatingGains - t.reserved + Realized(holdings) + NetAtStops(holdings)
            && u.reserved >= t.reserved
    decreases |holdings|
  {
    hide Add, NetAtStop;
    if holdings != [] {
      TallyCoversStops(Add(t, holdings[0]), holdings[1..]);
      AddCoversStop(t, holdings[0]);
    }
  }

  // ---------------------------------------------------------------- the worst day

  /** Today's cash if every open position is stopped out now. */
  function WorstDay(utcCashPnl: real, holdings: seq<Holding>): real {
    utcCashPnl + NetAtStops(holdings)
  }

  /** The account's equity if every open position is stopped out now. */
  function WorstEquity(policy: Safety, realizedNetPnl: real, holdings: seq<Holding>): real {
    policy.initialBalance + realizedNetPnl + Realized(holdings) + NetAtStops(holdings)
  }

  function Opened(c: Candidate, cfg: RiskConfig): Holding {
    Holding(c.symbol, c.side, c.entryPrice, c.stopPrice, None, c.quantity, c.entryFee, c.entryPrice, 0.0, Some(cfg), c.tick)
  }

  function LimitOf(policy: Safety, holdings: seq<Holding>): real {
    DailyLimit(policy, StrictestPercent(policy.maxDailyLossPercent, holdings))
  }

  lemma {:induction false} Appended(holdings: seq<Holding>, h: Holding)
    ensures NetAtStops(holdings + [h]) == NetAtStops(holdings) + NetAtStop(h)
    ensures Realized(holdings + [h]) == Realized(holdings) + h.realizedPnl
    decreases |holdings|
  {
    hide NetAtStop;
    if holdings == [] {
      assert [h][1..] == [] && holdings + [h] == [h];
    } else {
      assert (holdings + [h])[0] == holdings[0] && (holdings + [h])[1..] == holdings[1..] + [h];
      Appended(holdings[1..], h);
    }
  }

  /** Of two percentages and the positions' own, the strictest does not depend on the order. */
  lemma {:induction false} StrictestAppended(percent: real, holdings: seq<Holding>, h: Holding)
    ensures StrictestPercent(percent, holdings + [h]) == StrictestPercent(MinR(percent, DailyPercent(h.costs)), holdings)
    decreases |holdings|
  {
    if holdings == [] {
      assert [h][1..] == [] && holdings + [h] == [h];
    } else {
      assert (holdings + [h])[0] == holdings[0] && (holdings + [h])[1..] == holdings[1..] + [h];
      var own := DailyPercent(holdings[0].costs);
      StrictestAppended(MinR(percent, own), holdings[1..], h);
      assert MinR(MinR(percent, own), DailyPercent(h.costs)) == MinR(MinR(percent, DailyPercent(h.costs)), own);
    }
  }

  /**
   An admitted entry leaves the account able to take every stop: the day ends at or above minus the daily limit,
   counting the limit of the new strategy too, and the equity stays non-negative, both up to the code's tolerance.
   */
  lemma AdmissionBoundsTheDay(r: Request, day: int, startsAt: int, c: Candidate)
    requires EntryFailure(Assess(r, day, startsAt), c, r.holdings).None?
    ensures r.config.Some?
    ensures var all := r.holdings + [Opened(c, r.config.value)];
            && WorstDay(r.utcCashPnl, all) >= -LimitOf(r.policy, all) - TINY
            && WorstEquity(r.policy, r.realizedNetPnl, all) >= -TINY
  {
    hide Tally, StrictestPercent, DailyLimit, StopRisk, NetAtStop;
    var t := Tally(Opening(r), r.holdings);
    TallyCoversStops(Opening(r), r.holdings);
    var h := Opened(c, r.config.value);
    Appended(r.holdings, h);
    StrictestAppended(r.policy.maxDailyLossPercent, r.holdings, h);
    RiskCoversStop(h);
  }

  /** What all positions are worth at their marks. */
  function ExposureOf(holdings: seq<Holding>): real {
    if holdings == [] then 0.0 else ExposureOf(holdings[1..]) + holdings[0].markPrice * holdings[0].quantity
  }

  lemma {:induction false} TallyExposure(t: Totals, holdings: seq<Holding>)
    ensures Tally(t, holdings).exposure == t.exposure + ExposureOf(holdings)
    decreases |holdings|
  {
    if holdings != [] {
      TallyExposure(Add(t, holdings[0]), holdings[1..]);
      AddExposes(t, holdings[0]);
    }
  }

  lemma AddExposes(t: Totals, h: Holding)
    ensures Add(t, h).exposure == t.exposure + h.markPrice * h.quantity
  {
    hide FloatingPnl, ExitCosts, HoldingRisk;
  }

  lemma {:induction false} ExposureAppended(holdings: seq<Holding>, h: Holding)
    ensures ExposureOf(holdings + [h]) == ExposureOf(holdings) + h.markPrice * h.quantity
    decreases |holdings|
  {
    if holdings == [] {
      assert [h][1..] == [] && holdings + [h] == [h];
    } else {
      assert (holdings + [h])[0] == holdings[0] && (holdings + [h])[1..] == holdings[1..] + [h];
      ExposureAppended(holdings[1..], h);
    }
  }

  /**
   An admitted entry respects every other limit: the exposure of the account with it, the number of positions,
   the loss of the new position itself, and neither the account nor the strategy has used up its day.
   */
  lemma AdmittedWithinLimits(r: Request, day: int, startsAt: int, c: Candidate)
    requires EntryFailure(Assess(r, day, startsAt), c, r.holdings).None?
    ensures r.config.Some? && !r.killSwitch && !r.utcHalted && r.marketReady && r.fundingReady
    ensures var cfg, t := r.config.value, Tally(Opening(r), r.holdings);
            var h := Opened(c, cfg);
            && t.valid && t.equity > 0.0 && t.dailyPnl > -LimitOf(r.policy, r.holdings + [h])
            && ExposureOf(r.holdings + [h]) + c.entryFee <= t.equity * r.policy.maxAccountExposurePercent / 100.0 + TINY
            && |r.holdings| as real < MinR(r.policy.maxOpenPositions, cfg.maxOpenPositions)
            && NetAtStop(h) >= -(t.equity * cfg.riskPerTradePercent / 100.0) - TINY
            && r.strategyCashPnl > -DailyLimit(r.policy, cfg.maxDailyLossPercent)
            && !Opposed(c, r.holdings)
  {
    hide Tally, StrictestPercent, DailyLimit, StopRisk, NetAtStop, Opposed;
    var h := Opened(c, r.config.value);
    TallyExposure(Opening(r), r.holdings);
    ExposureAppended(r.holdings, h);
    StrictestAppended(r.policy.maxDailyLossPercent, r.holdings, h);
    RiskCoversStop(h);
    CommutedNotional(c.entryPrice, c.quantity);
  }

  lemma CommutedNotional(price: real, quantity: real)
    ensures price * quantity == quantity * price
  {
  }

  // ---------------------------------------------------------------- over runs of one trading day

  datatype Book = Book(policy: Safety, utcCashPnl: real, realizedNetPnl: real, holdings: seq<Holding>)

  datatype Move =
    | Marked(index: nat, price: real)
    | Tightened(index: nat, stop: real, trailing: Option<real>)
    | Closed(index: nat, net: real)
    | Admitted(request: Request, day: int, startsAt: int, candidate: Candidate)

  /** A held position as the instrument and cost schemas allow it. */
  predicate Sound(h: Holding) {
    && h.quantity >= 0.0
    && (h.costs.Some? ==> h.costs.value.takerFeeBps <= 10000.0 && h.costs.value.slippageBps <= 10000.0)
  }

  /** Closing nets at least what the level in force promised; an admission was assessed on this very book. */
  predicate Allowed(book: Book, m: Move) {
    match m
    case Marked(i, _) => i < |book.holdings|
    case Tightened(i, stop, trailing) =>
      i < |book.holdings| && Sound(book.holdings[i])
      && Favours(book.holdings[i].side, Nearest(book.holdings[i].(stopPrice := stop, trailingPrice := trailing)), Nearest(book.holdings[i]))
    case Closed(i, net) => i < |book.holdings| && net >= NetAtStop(book.holdings[i])
    case Admitted(r, day, startsAt, c) =>
      && r.policy == book.policy && r.utcCashPnl == book.utcCashPnl && r.realizedNetPnl == book.realizedNetPnl
      && r.holdings == book.holdings && EntryFailure(Assess(r, day, startsAt), c, r.holdings).None?
  }

  function Drop(holdings: seq<Holding>, i: nat): seq<Holding>
    requires i < |holdings|
  {
    holdings[..i] + holdings[i + 1..]
  }

  function After(book: Book, m: Move): Book
    requires Allowed(book, m)
  {
    match m
    case Marked(i, price) => book.(holdings := book.holdings[i := book.holdings[i].(markPrice := price)])
    case Tightened(i, stop, trailing) =>
      book.(holdings := book.holdings[i := book.holdings[i].(stopPrice := stop, trailingPrice := trailing)])
    case Closed(i, net) =>
      book.(utcCashPnl := book.utcCashPnl + net, realizedNetPnl := book.realizedNetPnl + book.holdings[i].realizedPnl + net,
            holdings := Drop(book.holdings, i))
    case Admitted(r, _, _, c) =>
      if r.config.Some? then book.(holdings := book.holdings + [Opened(c, r.config.value)]) else book
  }

  /** The account survives every stop, today and as a whole, and holds no pair both ways. */
  ghost predicate Protected(book: Book) {
    && WorstDay(book.utcCashPnl, book.holdings) >= -LimitOf(book.policy, book.holdings) - TINY
    && WorstEquity(book.policy, book.realizedNetPnl, book.holdings) >= -TINY
    && OneWay(book.holdings)
  }

  ghost predicate OneWay(holdings: seq<Holding>) {
    forall g, h :: g in holdings && h in holdings && g.quantity > 0.0 && h.quantity > 0.0 && g.symbol == h.symbol ==> g.side == h.side
  }

  lemma {:induction false} Replaced(holdings: seq<Holding>, i: nat, h: Holding)
    requires i < |holdings| && h.costs == holdings[i].costs
    ensures NetAtStops(holdings[i := h]) == NetAtStops(holdings) - NetAtStop(holdings[i]) + NetAtStop(h)
    ensures Realized(holdings[i := h]) == Realized(holdings) - holdings[i].realizedPnl + h.realizedPnl
    ensures forall percent :: StrictestPercent(percent, holdings[i := h]) == StrictestPercent(percent, holdings)
    decreases |holdings|
  {
    hide NetAtStop;
    if i == 0 {
      assert holdings[i := h][1..] == holdings[1..];
    } else {
      assert holdings[i := h][1..] == holdings[1..][i - 1 := h];
      Replaced(holdings[1..], i - 1, h);
    }
  }

  lemma {:induction false} Dropped(holdings: seq<Holding>, i: nat)
    requires i < |holdings|
    ensures NetAtStops(Drop(holdings, i)) == NetAtStops(holdings) - NetAtStop(holdings[i])
    ensures Realized(Drop(holdings, i)) == Realized(holdings) - holdings[i].realizedPnl
    decreases |holdings|
  {
    hide NetAtStop;
    if i == 0 {
      assert Drop(holdings, i) == holdings[1..];
    } else {
      assert Drop(holdings, i)[0] == holdings[0] && Drop(holdings, i)[1..] == Drop(holdings[1..], i - 1);
      Dropped(holdings[1..], i - 1);
    }
  }

  /** Leaving a position out can only raise the daily limit. */
  lemma {:induction false} DroppedPercent(percent: real, more: real, holdings: seq<Holding>, i: nat)
    requires i < |holdings| && percent <= more
    ensures StrictestPercent(percent, holdings) <= StrictestPercent(more, Drop(holdings, i))
    decreases |holdings|
  {
    if i == 0 {
      assert Drop(holdings, i) == holdings[1..];
      StrictestMonotone(MinR(percent, DailyPercent(holdings[0].costs)), more, holdings[1..]);
    } else {
      assert Drop(holdings, i)[0] == holdings[0] && Drop(holdings, i)[1..] == Drop(holdings[1..], i - 1);
      DroppedPercent(MinR(percent, DailyPercent(holdings[0].costs)), MinR(more, DailyPercent(holdings[0].costs)), holdings[1..], i - 1);
    }
  }

  lemma {:induction false} StrictestMonotone(percent: real, more: real, holdings: seq<Holding>)
    requires percent <= more
    ensures StrictestPercent(percent, holdings) <= StrictestPercent(more, holdings)
    decreases |holdings|
  {
    if holdings != [] {
      StrictestMonotone(MinR(percent, DailyPercent(holdings[0].costs)), MinR(more, DailyPercent(holdings[0].costs)), holdings[1..]);
    }
  }

  // ---------------------------------------------------------------- a tighter level nets more

  lemma FillMonotone(side: Side, level: real, tighter: real, slippageBps: real, tick: Option<Price>)
    requires Favours(side, tighter, level) && 0.0 <= slippageBps <= 10000.0
    ensures Favours(side, StopFill(side, tighter, slippageBps, tick), StopFill(side, level, slippageBps, tick))
  {
    hide RoundStep, Slid;
    SlidInOrder(side, level, tighter, slippageBps);
    if tick.Some? { RoundsInOrder(side, Slid(side, level, slippageBps), Slid(side, tighter, slippageBps), tick.value); }
  }

  lemma SlidInOrder(side: Side, level: real, tighter: real, slippageBps: real)
    requires Favours(side, tighter, level) && 0.0 <= slippageBps <= 10000.0
    ensures Favours(side, Slid(side, tighter, slippageBps), Slid(side, level, slippageBps))
  {
    hide SlideShare;
    assert SlideShare(side, slippageBps) >= 0.0 by { ShareIsPositive(side, slippageBps); }
    ScaledInOrder(level, tighter, SlideShare(side, slippageBps));
    ScaledInOrder(tighter, level, SlideShare(side, slippageBps));
  }

  lemma ShareIsPositive(side: Side, slippageBps: real)
    requires 0.0 <= slippageBps <= 10000.0
    ensures SlideShare(side, slippageBps) >= 0.0
  {
  }

  lemma ScaledInOrder(a: real, b: real, share: real)
    requires share >= 0.0
    ensures a <= b ==> a * share <= b * share
  {
    if share > 0.0 { MulOrder(a, b, share); }
  }

  lemma RoundsInOrder(side: Side, a: real, b: real, tick: Price)
    requires Favours(side, b, a)
    ensures Favours(side, RoundStep(b, tick, !side.Long?), RoundStep(a, tick, !side.Long?))
  {
    hide CeilUnits, FloorUnits;
    if side.Long? {
      UnitsMonotone(a, b, tick);
      MulOrder(FloorUnits(a, tick) as real, FloorUnits(b, tick) as real, tick);
    } else {
      UnitsMonotone(b, a, tick);
      MulOrder(CeilUnits(b, tick) as real, CeilUnits(a, tick) as real, tick);
    }
  }

  lemma NetGrowsWithFill(side: Side, entryPrice: real, fill: real, better: real, quantity: real, entryFee: real, takerFeeBps: real)
    requires Favours(side, better, fill) && quantity >= 0.0 && 0.0 <= takerFeeBps <= 10000.0
    ensures NetAt(side, entryPrice, better, quantity, entryFee, takerFeeBps) >= NetAt(side, entryPrice, fill, quantity, entryFee, takerFeeBps)
  {
    var rate := takerFeeBps / 10000.0;
    FeeIsExitFee(fill, quantity, takerFeeBps);
    FeeIsExitFee(better, quantity, takerFeeBps);
    var move := (better - fill) * quantity;
    if side.Long? {
      assert move >= 0.0;
      assert move * (1.0 - rate) >= 0.0;
    } else {
      assert move <= 0.0;
      assert move * (1.0 + rate) <= 0.0;
    }
  }

  lemma TighterNetsMore(h: Holding, stop: real, trailing: Option<real>)
    requires Sound(h) && Favours(h.side, Nearest(h.(stopPrice := stop, trailingPrice := trailing)), Nearest(h))
    ensures NetAtStop(h.(stopPrice := stop, trailingPrice := trailing)) >= NetAtStop(h)
  {
    hide StopFill, NetAt, Nearest;
    if h.quantity != 0.0 && h.costs.Some? {
      var level, tighter := Nearest(h), Nearest(h.(stopPrice := stop, trailingPrice := trailing));
      var cfg := h.costs.value;
      FillMonotone(h.side, level, tighter, cfg.slippageBps, h.tick);
      NetGrowsWithFill(h.side, h.entryPrice, StopFill(h.side, level, cfg.slippageBps, h.tick),
                       StopFill(h.side, tighter, cfg.slippageBps, h.tick), h.quantity, h.entryFee, cfg.takerFeeBps);
    }
  }

  // ---------------------------------------------------------------- the invariant

  lemma AdmittedKeepsOneWay(holdings: seq<Holding>, c: Candidate, cfg: RiskConfig)
    requires OneWay(holdings) && !Opposed(c, holdings)
    ensures OneWay(holdings + [Opened(c, cfg)])
  {
  }

  lemma MoveKeepsProtected(book: Book, m: Move)
    requires Protected(book) && Allowed(book, m) && book.policy.initialBalance >= 0.0
    ensures Protected(After(book, m))
  {
    hide NetAtStop, NetAtStops, Realized, StrictestPercent, Assess, Nearest;
    match m
    case Marked(i, price) =>
      var h := book.holdings[i];
      Replaced(book.holdings, i, h.(markPrice := price));
      MarkChangesNoStop(h, price);
    case Tightened(i, stop, trailing) =>
      Replaced(book.holdings, i, book.holdings[i].(stopPrice := stop, trailingPrice := trailing));
      TighterNetsMore(book.holdings[i], stop, trailing);
    case Closed(i, net) =>
      Dropped(book.holdings, i);
      DroppedPercent(book.policy.maxDailyLossPercent, book.policy.maxDailyLossPercent, book.holdings, i);
      LimitGrows(book.policy, StrictestPercent(book.policy.maxDailyLossPercent, book.holdings),
                 StrictestPercent(book.policy.maxDailyLossPercent, Drop(book.holdings, i)));
    case Admitted(r, day, startsAt, c) =>
      AdmissionBoundsTheDay(r, day, startsAt, c);
      AdmittedKeepsOneWay(book.holdings, c, r.config.value);
  }

  lemma MarkChangesNoStop(h: Holding, price: real)
    ensures NetAtStop(h.(markPrice := price)) == NetAtStop(h)
  {
  }

  lemma LimitGrows(policy: Safety, percent: real, more: real)
    requires percent <= more && policy.initialBalance >= 0.0
    ensures DailyLimit(policy, percent) <= DailyLimit(policy, more)
  {
    assert policy.initialBalance * (more - percent) >= 0.0;
  }

  ghost predicate AllowedRun(book: Book, moves: seq<Move>)
    decreases |moves|
  {
    moves != [] ==> Allowed(book, moves[0]) && AllowedRun(After(book, moves[0]), moves[1..])
  }

  function Ends(book: Book, moves: seq<Move>): Book
    requires AllowedRun(book, moves)
    decreases |moves|
  {
    if moves == [] then book else Ends(After(book, moves[0]), moves[1..])
  }

  /** Over any run of marks, tightenings, closes and admissions within one day the account stays protected. */
  lemma {:induction false} DayStaysProtected(book: Book, moves: seq<Move>)
    requires Protected(book) && AllowedRun(book, moves) && book.policy.initialBalance >= 0.0
    ensures Protected(Ends(book, moves))
    decreases |moves|
  {
    hide Protected, Allowed;
    if moves != [] {
      MoveKeepsProtected(book, moves[0]);
      DayStaysProtected(After(book, moves[0]), moves[1..]);
    }
  }

  lemma EmptyBookIsProtected(policy: Safety)
    requires policy.initialBalance >= 0.0 && policy.maxDailyLossPercent >= 0.0
    ensures Protected(Book(policy, 0.0, 0.0, []))
  {
    assert policy.initialBalance * policy.maxDailyLossPercent >= 0.0;
  }
}
