/** One entry order against recorded liquidity, and why no recorded quantity is ever filled twice. */
module EntryLiquidity {
  import opened Common

  datatype PolicyData = Policy(maximumSpreadBps: real, maximumSlippageBps: real, maximumBookAgeMs: int, makerParticipationBps: real)
  type Policy = p: PolicyData |
      && 0.0 <= p.maximumSpreadBps <= 10000.0 && 0.0 <= p.maximumSlippageBps < 10000.0
      && 1 <= p.maximumBookAgeMs && 0.0 < p.makerParticipationBps <= 10000.0
    witness Policy(20.0, 50.0, 1000, 1000.0)

  datatype TimeInForce = IOC | PostOnly(limitPrice: Price)

  datatype Order = Order(symbol: string, side: Side, timeInForce: TimeInForce, quantity: Price, submitReferencePrice: Price,
                         submittedAt: int, expiresAt: int, submitEventId: int, stream: int, qtyStep: Price, policy: Policy)

  datatype Trade = Trade(quantity: Price, takerBuys: bool, block: bool, rpi: bool)

  datatype Level = Level(price: Price, quantity: Price)

  datatype Book = Book(bid: Level, ask: Level, observedAt: int, receivedAt: int, updateId: int)

  datatype Data = Data(trade: Trade, book: Option<Book>)

  datatype Event = Event(id: int, symbol: string, price: Price, observedAt: int, receivedAt: int, stream: int, data: Option<Data>)

  datatype Reason = BeforeSubmission | SignalExpired | StreamChanged | BookUnavailable | BookFromFuture | BookStale | SpreadLimit
                  | BookAfterSubmissionRequired | SpecialTradeExcluded | TradeThroughRequired | SlippageLimit | LiquidityUnavailable

  datatype Source = TradeSource(stream: int, symbol: string, eventId: int) | BookSource(stream: int, symbol: string, updateId: int, side: Side)

  datatype Result = Wait(reason: Reason) | Cancel(reason: Reason)
                  | Fill(price: real, quantity: real, maker: bool, source: Source, capacity: real)

  // ---------------------------------------------------------------- the book

  /** A book must be known by the time of the event on both clocks and recent on both. */
  function BookFailure(data: Data, e: Event, maximumAgeMs: int): Option<Reason> {
    if data.book.None? then Some(BookUnavailable)
    else
      var book := data.book.value;
      if book.observedAt > e.observedAt || book.receivedAt > e.receivedAt then Some(BookFromFuture)
      else if e.observedAt - book.observedAt > maximumAgeMs || e.receivedAt - book.receivedAt > maximumAgeMs then Some(BookStale)
      else None
  }

  predicate TooWide(book: Book, maximumSpreadBps: real) {
    (book.ask.price - book.bid.price) * 20000.0 > (book.ask.price + book.bid.price) * maximumSpreadBps
  }

  function EntryBookFailure(e: Event, policy: Policy): (r: Option<Reason>)
    ensures r.None? ==> e.data.Some? && e.data.value.book.Some?
  {
    if e.data.None? then Some(BookUnavailable)
    else
      var failure := BookFailure(e.data.value, e, policy.maximumBookAgeMs);
      if failure.Some? then failure
      else if TooWide(e.data.value.book.value, policy.maximumSpreadBps) then Some(SpreadLimit)
      else None
  }

  // ---------------------------------------------------------------- the order

  function Best(book: Book, side: Side): Level {
    if side.Long? then book.ask else book.bid
  }

  /** The worst price an immediate order accepts. */
  function SlippageBound(order: Order): real {
    order.submitReferencePrice * (1.0 + Dir(order.side) * order.policy.maximumSlippageBps * 0.0001)
  }

  /** The public trade went strictly through the resting limit. */
  predicate TradedThrough(order: Order, e: Event, trade: Trade)
    requires order.timeInForce.PostOnly?
  {
    if order.side.Long? then !trade.takerBuys && e.price < order.timeInForce.limitPrice
    else trade.takerBuys && e.price > order.timeInForce.limitPrice
  }

  /** The public trade may have taken from the very level offered. */
  predicate TookFrom(side: Side, e: Event, trade: Trade, price: real) {
    !trade.block && !trade.rpi && if side.Long? then trade.takerBuys && e.price >= price else !trade.takerBuys && e.price <= price
  }

  function MakerShare(order: Order): real {
    order.policy.makerParticipationBps * 0.0001
  }

  function MakerCapacity(order: Order, trade: Trade): real {
    trade.quantity * MakerShare(order)
  }

  function TakerCapacity(order: Order, e: Event, data: Data, book: Book): real {
    var level := Best(book, order.side);
    if TookFrom(order.side, e, data.trade, level.price) then level.quantity - data.trade.quantity else level.quantity
  }

  datatype Offer = Offered(price: real, capacity: real, source: Source) | NoOffer(result: Result)

  /** The price, the recorded quantity and the key under which that quantity is counted. */
  function OfferOf(order: Order, e: Event, data: Data, book: Book): Offer {
    match order.timeInForce
    case PostOnly(limit) =>
      if data.trade.block || data.trade.rpi then NoOffer(Wait(SpecialTradeExcluded))
      else if !TradedThrough(order, e, data.trade) then NoOffer(Wait(TradeThroughRequired))
      else Offered(limit, MakerCapacity(order, data.trade), TradeSource(e.stream, order.symbol, e.id))
    case IOC =>
      var level := Best(book, order.side);
      if Behind(order.side, SlippageBound(order), level.price) then NoOffer(Cancel(SlippageLimit))
      else Offered(level.price, TakerCapacity(order, e, data, book), BookSource(e.stream, order.symbol, book.updateId, order.side))
  }

  function Fail(order: Order, reason: Reason): Result {
    if order.timeInForce.IOC? then Cancel(reason) else Wait(reason)
  }

  /** What is left of an offer, cut to the order and to whole steps. */
  function Take(order: Order, offer: Offer, consumed: real): Result
    requires offer.Offered?
  {
    var available := offer.capacity - consumed;
    if available <= 0.0 then Fail(order, LiquidityUnavailable)
    else
      var quantity := RoundStep(MinR(available, order.quantity), order.qtyStep, false);
      if quantity <= 0.0 then Fail(order, LiquidityUnavailable)
      else Fill(offer.price, quantity, order.timeInForce.PostOnly?, offer.source, offer.capacity)
  }

  predicate Expired(order: Order, e: Event) {
    e.observedAt >= order.expiresAt || e.receivedAt >= order.expiresAt
  }

  predicate Early(order: Order, e: Event) {
    e.observedAt < order.submittedAt || e.receivedAt < order.submittedAt
  }

  predicate BookEarly(order: Order, book: Book) {
    book.observedAt < order.submittedAt || book.receivedAt < order.submittedAt
  }

  /** Evaluates an order at one event; nothing for a foreign symbol or a negative consumption. */
  function Evaluate(order: Order, e: Event, consumed: real): Option<Result> {
    if consumed < 0.0 || e.symbol != order.symbol then None
    else if e.id <= order.submitEventId then Some(Wait(BeforeSubmission))
    else if Expired(order, e) then Some(Cancel(SignalExpired))
    else if e.stream != order.stream then Some(Cancel(StreamChanged))
    else if Early(order, e) then Some(Wait(BeforeSubmission))
    else
      var failure := EntryBookFailure(e, order.policy);
      if failure.Some? then Some(Fail(order, failure.value))
      else
        var data := e.data.value;
        var book := data.book.value;
        if order.timeInForce.IOC? && BookEarly(order, book) then Some(Wait(BookAfterSubmissionRequired))
        else
          match OfferOf(order, e, data, book)
          case NoOffer(result) => Some(result)
          case Offered(price, capacity, source) => Some(Take(order, Offered(price, capacity, source), consumed))
  }

  // ---------------------------------------------------------------- what a fill is

  predicate IsSteps(quantity: real, step: Price, k: int) {
    quantity == k as real * step
  }

  /**
   A fill is a positive whole number of steps, no more than the order and no more than what is left of the source,
   and no further step would have fitted. A resting order fills at its limit after a trade strictly through it;
   an immediate one at the best opposite price inside its slippage bound.
   */
  lemma FillIsWithin(order: Order, e: Event, consumed: real)
    requires Evaluate(order, e, consumed).Some? && Evaluate(order, e, consumed).value.Fill?
    ensures var f := Evaluate(order, e, consumed).value;
            && 0.0 < f.quantity <= order.quantity && f.quantity <= f.capacity - consumed
            && (exists k: int :: k >= 1 && IsSteps(f.quantity, order.qtyStep, k))
            && (f.quantity + order.qtyStep > order.quantity || f.quantity + order.qtyStep > f.capacity - consumed)
            && f.maker == order.timeInForce.PostOnly?
            && (f.maker ==> f.price == order.timeInForce.limitPrice && TradedThrough(order, e, e.data.value.trade))
            && (!f.maker ==> f.price == Best(e.data.value.book.value, order.side).price && Favours(order.side, SlippageBound(order), f.price))
  {
    hide TradedThrough, SlippageBound, TakerCapacity, MakerCapacity, EntryBookFailure;
    var f := Evaluate(order, e, consumed).value;
    var wanted := MinR(f.capacity - consumed, order.quantity);
    var k := FloorUnits(wanted, order.qtyStep);
    FloorUnitsBounds(wanted, order.qtyStep);
    assert IsSteps(f.quantity, order.qtyStep, k);
    assert k >= 1 by { if k <= 0 { MulOrder(k as real, 0.0, order.qtyStep); } }
    assert (k + 1) as real * order.qtyStep == k as real * order.qtyStep + order.qtyStep;
  }

  /** Which quantity counts against which source does not depend on what has been consumed. */
  lemma SourceIgnoresConsumption(order: Order, e: Event, consumed: real)
    requires Evaluate(order, e, consumed).Some? && Evaluate(order, e, consumed).value.Fill?
    ensures consumed >= 0.0
    ensures Evaluate(order, e, 0.0).Some? && Evaluate(order, e, 0.0).value.Fill?
    ensures Evaluate(order, e, 0.0).value.source == Evaluate(order, e, consumed).value.source
    ensures Evaluate(order, e, 0.0).value.capacity == Evaluate(order, e, consumed).value.capacity
  {
    hide OfferOf, EntryBookFailure, Take, Fail;
    FailNeverFills(order);
    var data := e.data.value;
    var offer := OfferOf(order, e, data, data.book.value);
    if offer.Offered? { TakeIgnoresConsumption(order, offer, consumed); }
    else { NoOfferFills(order, e, data, data.book.value); }
  }

  lemma FailNeverFills(order: Order)
    ensures forall reason :: !Fail(order, reason).Fill?
  {
  }

  lemma NoOfferFills(order: Order, e: Event, data: Data, book: Book)
    ensures var offer := OfferOf(order, e, data, book); offer.NoOffer? ==> !offer.result.Fill?
  {
  }

  lemma TakeIgnoresConsumption(order: Order, offer: Offer, consumed: real)
    requires consumed >= 0.0 && offer.Offered?
    ensures var f, g := Take(order, offer, consumed), Take(order, offer, 0.0);
            f.Fill? ==> g.Fill? && g.source == f.source && g.capacity == f.capacity
  {
    hide RoundStep;
    var left, all := MinR(offer.capacity - consumed, order.quantity), MinR(offer.capacity - 0.0, order.quantity);
    if Take(order, offer, consumed).Fill? { MoreFillsToo(left, all, order.qtyStep); }
  }

  lemma MoreFillsToo(a: real, b: real, step: Price)
    requires a <= b && RoundStep(a, step, false) > 0.0
    ensures RoundStep(b, step, false) > 0.0
  {
    UnitsMonotone(a, b, step);
    MulOrder(FloorUnits(a, step) as real, FloorUnits(b, step) as real, step);
  }

  /** Only its expiry or a change of stream cancels a resting order, and only being early makes an immediate one wait. */
  lemma WaitOrCancel(order: Order, e: Event, consumed: real)
    requires consumed >= 0.0 && e.symbol == order.symbol
    ensures var r := Evaluate(order, e, consumed).value;
            && (order.timeInForce.PostOnly? ==>
                  (r.Cancel? <==> e.id > order.submitEventId && (Expired(order, e) || e.stream != order.stream)))
            && (order.timeInForce.IOC? ==>
                  (r.Wait? <==> e.id <= order.submitEventId
                                || (!Expired(order, e) && e.stream == order.stream
                                    && (Early(order, e) || (EntryBookFailure(e, order.policy).None? && BookEarly(order, e.data.value.book.value))))))
  {
    hide Expired, Early, BookEarly, EntryBookFailure, TradedThrough, SlippageBound, RoundStep;
  }

  /** The book was known by the event on both clocks, is recent on both, and its spread is within the limit of the mid price. */
  predicate UsableBook(order: Order, e: Event, book: Book) {
    var mid := (book.ask.price + book.bid.price) / 2.0;
    && 0 <= e.observedAt - book.observedAt <= order.policy.maximumBookAgeMs
    && 0 <= e.receivedAt - book.receivedAt <= order.policy.maximumBookAgeMs
    && book.ask.price - book.bid.price <= mid * order.policy.maximumSpreadBps / 10000.0
  }

  /** The event belongs to the life of the order: after its submission, before its expiry, on its stream. */
  predicate InLife(order: Order, e: Event) {
    && e.id > order.submitEventId && e.stream == order.stream && e.symbol == order.symbol
    && order.submittedAt <= e.observedAt < order.expiresAt && order.submittedAt <= e.receivedAt < order.expiresAt
  }

  /** Nothing is filled outside the order's life or from a book that is stale, early or too wide. */
  lemma FillNeedsLifeAndBook(order: Order, e: Event, consumed: real)
    requires Evaluate(order, e, consumed).Some? && Evaluate(order, e, consumed).value.Fill?
    ensures InLife(order, e) && e.data.Some? && e.data.value.book.Some?
    ensures var book := e.data.value.book.value;
            UsableBook(order, e, book)
            && (order.timeInForce.IOC? ==> book.observedAt >= order.submittedAt && book.receivedAt >= order.submittedAt)
            && (order.timeInForce.PostOnly? ==> !e.data.value.trade.block && !e.data.value.trade.rpi)
  {
    hide TradedThrough, SlippageBound, Take, TakerCapacity, MakerCapacity;
    FailNeverFills(order);
  }

  // ---------------------------------------------------------------- liquidity is never reused

  datatype LedgerFill = LedgerFill(source: Source, quantity: real, capacity: real)

  function Taken(fills: seq<LedgerFill>, source: Source): real {
    if fills == [] then 0.0
    else Taken(fills[..|fills| - 1], source) + if fills[|fills| - 1].source == source then fills[|fills| - 1].quantity else 0.0
  }

  function MaxCapacity(fills: seq<LedgerFill>, source: Source): Option<real> {
    if fills == [] then None
    else
      var rest, last := MaxCapacity(fills[..|fills| - 1], source), fills[|fills| - 1];
      if last.source != source then rest
      else if rest.None? then Some(last.capacity) else Some(MaxR(rest.value, last.capacity))
  }

  /** One attempt to fill: the order, the event, what the public took besides, and the quantity actually opened. */
  datatype Attempt = Attempt(order: Order, event: Event, publiclyConsumed: real, quantity: real)

  /** An attempt is booked when it fills, evaluated with everything already counted on its source, for no more than that. */
  function Booked(fills: seq<LedgerFill>, a: Attempt): seq<LedgerFill> {
    var offered := Evaluate(a.order, a.event, 0.0);
    if offered.None? || !offered.value.Fill? then fills
    else
      var result := Evaluate(a.order, a.event, Taken(fills, offered.value.source) + a.publiclyConsumed);
      if result.Some? && result.value.Fill? && 0.0 < a.quantity <= result.value.quantity
      then fills + [LedgerFill(result.value.source, a.quantity, result.value.capacity)] else fills
  }

  function BookedAll(fills: seq<LedgerFill>, attempts: seq<Attempt>): seq<LedgerFill>
    decreases |attempts|
  {
    if attempts == [] then fills else BookedAll(Booked(fills, attempts[0]), attempts[1..])
  }

  /** What the ledger check looks for: a source filled beyond the largest capacity recorded for it. */
  predicate Reused(fills: seq<LedgerFill>, source: Source) {
    var most := MaxCapacity(fills, source);
    Taken(fills, source) > if most.Some? then most.value else 0.0
  }

  lemma BookedStaysWithin(fills: seq<LedgerFill>, a: Attempt, source: Source)
    requires a.publiclyConsumed >= 0.0 && !Reused(fills, source)
    ensures !Reused(Booked(fills, a), source)
  {
    hide Evaluate;
    var after := Booked(fills, a);
    if after != fills {
      assert after[..|fills|] == fills;
      var offered := Evaluate(a.order, a.event, 0.0).value;
      var consumed := Taken(fills, offered.source) + a.publiclyConsumed;
      SourceIgnoresConsumption(a.order, a.event, consumed);
      FillIsWithin(a.order, a.event, consumed);
    }
  }

  /** Over any sequence of attempts by any orders, no source is ever filled beyond its recorded capacity. */
  lemma {:induction false} LiquidityIsNeverReused(fills: seq<LedgerFill>, attempts: seq<Attempt>, source: Source)
    requires (forall a :: a in attempts ==> a.publiclyConsumed >= 0.0) && !Reused(fills, source)
    ensures !Reused(BookedAll(fills, attempts), source)
    decreases |attempts|
  {
    hide Booked, Reused;
    if attempts != [] {
      assert attempts[0] in attempts;
      BookedStaysWithin(fills, attempts[0], source);
      LiquidityIsNeverReused(Booked(fills, attempts[0]), attempts[1..], source);
    }
  }

  /** Every recorded capacity is at most what the market showed: the whole trade, or the whole best level. */
  lemma CapacityWasShown(order: Order, e: Event, consumed: real)
    requires Evaluate(order, e, consumed).Some? && Evaluate(order, e, consumed).value.Fill?
    ensures var f := Evaluate(order, e, consumed).value;
            && (f.maker ==> f.capacity <= e.data.value.trade.quantity && f.source == TradeSource(e.stream, e.symbol, e.id))
            && (!f.maker ==> f.capacity <= Best(e.data.value.book.value, order.side).quantity
                             && f.source == BookSource(e.stream, e.symbol, e.data.value.book.value.updateId, order.side))
  {
    hide TradedThrough, SlippageBound, EntryBookFailure, RoundStep, TookFrom, MakerCapacity;
    if e.data.Some? { MakerTakesPart(order, e.data.value.trade); }
  }

  lemma MakerTakesPart(order: Order, trade: Trade)
    ensures MakerCapacity(order, trade) <= trade.quantity
  {
    ShareOf(trade.quantity, MakerShare(order));
  }

  lemma ShareOf(quantity: Price, share: real)
    requires share <= 1.0
    ensures quantity * share <= quantity
  {
    assert quantity * (1.0 - share) >= 0.0;
  }

  /** The recorded quantity behind a source at an event: the public trade, or the best level on the order's side. */
  function Shown(e: Event, source: Source): Option<real> {
    if e.data.None? then None
    else
      match source
      case TradeSource(_, _, _) =>
        if source == TradeSource(e.stream, e.symbol, e.id) then Some(e.data.value.trade.quantity) else None
      case BookSource(_, _, _, side) =>
        if e.data.value.book.Some? && source == BookSource(e.stream, e.symbol, e.data.value.book.value.updateId, side)
        then Some(Best(e.data.value.book.value, side).quantity) else None
  }

  predicate CapacitiesWithin(fills: seq<LedgerFill>, source: Source, shown: real) {
    forall f :: f in fills && f.source == source ==> f.capacity <= shown
  }

  lemma {:induction false} MaxWithin(fills: seq<LedgerFill>, source: Source, shown: real)
    requires CapacitiesWithin(fills, source, shown)
    ensures MaxCapacity(fills, source).Some? ==> MaxCapacity(fills, source).value <= shown
    decreases |fills|
  {
    if fills != [] {
      assert fills[|fills| - 1] in fills;
      MaxWithin(fills[..|fills| - 1], source, shown);
    }
  }

  lemma BookedWithinShown(fills: seq<LedgerFill>, a: Attempt, source: Source, shown: real)
    requires CapacitiesWithin(fills, source, shown)
    requires Shown(a.event, source).Some? ==> Shown(a.event, source).value <= shown
    ensures CapacitiesWithin(Booked(fills, a), source, shown)
  {
    hide Evaluate;
    if Booked(fills, a) != fills {
      var consumed := Taken(fills, Evaluate(a.order, a.event, 0.0).value.source) + a.publiclyConsumed;
      CapacityWasShown(a.order, a.event, consumed);
      FillHasData(a.order, a.event, consumed);
    }
  }

  lemma FillHasData(order: Order, e: Event, consumed: real)
    requires Evaluate(order, e, consumed).Some? && Evaluate(order, e, consumed).value.Fill?
    ensures e.data.Some? && e.data.value.book.Some?
  {
    hide EntryBookFailure, OfferOf, Take;
  }

  /** However many orders try, the fills on one public trade or one book level stay within the quantity recorded there. */
  lemma {:induction false} NothingFillsBeyondTheMarket(fills: seq<LedgerFill>, attempts: seq<Attempt>, source: Source, shown: real)
    requires shown >= 0.0 && !Reused(fills, source) && CapacitiesWithin(fills, source, shown)
    requires forall a :: a in attempts ==>
               a.publiclyConsumed >= 0.0 && (Shown(a.event, source).Some? ==> Shown(a.event, source).value <= shown)
    ensures Taken(BookedAll(fills, attempts), source) <= shown
    decreases |attempts|
  {
    hide Booked, Shown, CapacitiesWithin;
    if attempts == [] {
      MaxWithin(fills, source, shown);
    } else {
      assert attempts[0] in attempts;
      BookedStaysWithin(fills, attempts[0], source);
      BookedWithinShown(fills, attempts[0], source, shown);
      NothingFillsBeyondTheMarket(Booked(fills, attempts[0]), attempts[1..], source, shown);
    }
  }
}
