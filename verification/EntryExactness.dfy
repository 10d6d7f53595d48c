/** Exactly when an entry order fills, for how much and from which capacity, and otherwise why not. */
module EntryExactness {
  import opened Common
  import opened EntryLiquidity

  // ---------------------------------------------------------------- what is on offer

  /** Takers on the order's side have traded at its price or beyond it, outside block trades and RPI: they took from the level. */
  predicate PublicTookIt(order: Order, e: Event, trade: Trade, price: real) {
    && !trade.block && !trade.rpi
    && (order.side.Long? ==> trade.takerBuys && e.price >= price) && (order.side.Short? ==> !trade.takerBuys && e.price <= price)
  }

  /** A taker is offered the best opposite level less what this very trade took from it; a maker its share of the trade. */
  predicate OnOffer(order: Order, e: Event, trade: Trade, book: Book, price: real, capacity: real) {
    match order.timeInForce
    case IOC =>
      var level := if order.side.Long? then book.ask else book.bid;
      price == level.price && capacity + (if PublicTookIt(order, e, trade, price) then trade.quantity else 0.0) == level.quantity
    case PostOnly(limit) => price == limit && capacity * 10000.0 == trade.quantity * order.policy.makerParticipationBps
  }

  /** The price is within the slippage bound around the price at submission. */
  predicate Acceptable(order: Order, price: real) {
    if order.side.Long? then price <= order.submitReferencePrice + OfReference(order) else price >= order.submitReferencePrice - OfReference(order)
  }

  function OfReference(order: Order): real {
    order.submitReferencePrice * order.policy.maximumSlippageBps / 10000.0
  }

  /** The public trade went beyond the resting limit, against takers of the other side. */
  predicate WentThrough(order: Order, e: Event, trade: Trade, limit: real) {
    if order.side.Long? then e.price < limit && !trade.takerBuys else e.price > limit && trade.takerBuys
  }

  /** The largest whole number of steps within a quantity. */
  ghost predicate WholeSteps(within: real, step: Price, quantity: real) {
    (exists k: int :: IsSteps(quantity, step, k)) && quantity <= within < quantity + step
  }

  // ---------------------------------------------------------------- why an order does not fill

  datatype Cause = Cause(holds: bool, result: Result)

  predicate FirstOf(causes: seq<Cause>, result: Result) {
    exists i :: 0 <= i < |causes| && causes[i].holds && result == causes[i].result && forall j :: 0 <= j < i ==> !causes[j].holds
  }

  predicate NoneHolds(causes: seq<Cause>) {
    forall c :: c in causes ==> !c.holds
  }

  /** An immediate order is cancelled where a resting one waits. */
  function Unfilled(order: Order, reason: Reason): Result {
    if order.timeInForce.PostOnly? then Wait(reason) else Cancel(reason)
  }

  /** What concerns the order and the event alone. */
  function LifeCauses(order: Order, e: Event): seq<Cause> {
    [ Cause(e.id <= order.submitEventId, Wait(BeforeSubmission)),
      Cause(order.expiresAt <= e.observedAt || order.expiresAt <= e.receivedAt, Cancel(SignalExpired)),
      Cause(e.stream != order.stream, Cancel(StreamChanged)),
      Cause(e.observedAt < order.submittedAt || e.receivedAt < order.submittedAt, Wait(BeforeSubmission)),
      Cause(e.data.None? || e.data.value.book.None?, Unfilled(order, BookUnavailable)) ]
  }

  /** What concerns the book and the price. */
  function MarketCauses(order: Order, e: Event, trade: Trade, book: Book): seq<Cause> {
    var age := order.policy.maximumBookAgeMs;
    var immediate, price := order.timeInForce.IOC?, if order.side.Long? then book.ask.price else book.bid.price;
    [ Cause(book.observedAt > e.observedAt || book.receivedAt > e.receivedAt, Unfilled(order, BookFromFuture)),
      Cause(book.observedAt + age < e.observedAt || book.receivedAt + age < e.receivedAt, Unfilled(order, BookStale)),
      Cause(!SpreadWithin(order, book), Unfilled(order, SpreadLimit)),
      Cause(immediate && (book.observedAt < order.submittedAt || book.receivedAt < order.submittedAt), Wait(BookAfterSubmissionRequired)),
      Cause(!immediate && (trade.block || trade.rpi), Wait(SpecialTradeExcluded)),
      Cause(!immediate && !WentThrough(order, e, trade, order.timeInForce.limitPrice), Wait(TradeThroughRequired)),
      Cause(immediate && !Acceptable(order, price), Cancel(SlippageLimit)) ]
  }

  /** The spread is within its share of the mid price. */
  predicate SpreadWithin(order: Order, book: Book) {
    book.ask.price - book.bid.price <= (book.ask.price + book.bid.price) / 2.0 * order.policy.maximumSpreadBps / 10000.0
  }

  // ---------------------------------------------------------------- the evaluation

  lemma SpreadIs(order: Order, book: Book)
    ensures SpreadWithin(order, book) <==> !TooWide(book, order.policy.maximumSpreadBps)
  {
    var sum, bps := book.ask.price + book.bid.price, order.policy.maximumSpreadBps;
    assert sum / 2.0 * bps / 10000.0 * 20000.0 == sum * bps;
  }

  lemma AcceptableIs(order: Order, price: real)
    ensures Acceptable(order, price) <==> !Behind(order.side, SlippageBound(order), price)
  {
    var r, s := order.submitReferencePrice, order.policy.maximumSlippageBps;
    assert r * (1.0 + s * 0.0001) == r + r * s / 10000.0;
    assert r * (1.0 - s * 0.0001) == r - r * s / 10000.0;
    assert SlippageBound(order) == if order.side.Long? then r + OfReference(order) else r - OfReference(order);
  }

  lemma ShareIs(order: Order, trade: Trade, capacity: real)
    ensures capacity * 10000.0 == trade.quantity * order.policy.makerParticipationBps <==> capacity == MakerCapacity(order, trade)
  {
    var q, p := trade.quantity, order.policy.makerParticipationBps;
    assert MakerCapacity(order, trade) == q * (p * 0.0001);
    assert q * (p * 0.0001) * 10000.0 == q * p;
  }

  lemma OfferIs(order: Order, e: Event, data: Data, book: Book, price: real, capacity: real)
    requires NoneHolds(MarketCauses(order, e, data.trade, book))
    ensures OfferOf(order, e, data, book).Offered?
    ensures var offer := OfferOf(order, e, data, book);
            OnOffer(order, e, data.trade, book, price, capacity) <==> price == offer.price && capacity == offer.capacity
    ensures OfferOf(order, e, data, book).source ==
              if order.timeInForce.PostOnly? then TradeSource(e.stream, order.symbol, e.id)
              else BookSource(e.stream, order.symbol, book.updateId, order.side)
  {
    hide SlippageBound, Acceptable, MakerCapacity, SpreadWithin;
    var causes := MarketCauses(order, e, data.trade, book);
    assert !causes[4].holds && !causes[5].holds && !causes[6].holds;
    ShareIs(order, data.trade, capacity);
    AcceptableIs(order, Best(book, order.side).price);
  }

  /** Before the book is looked at. */
  lemma LifeDecides(order: Order, e: Event, consumed: real)
    requires consumed >= 0.0 && e.symbol == order.symbol && !NoneHolds(LifeCauses(order, e))
    ensures Evaluate(order, e, consumed).Some? && FirstOf(LifeCauses(order, e), Evaluate(order, e, consumed).value)
  {
    hide OfferOf, Take, TooWide;
    var causes, r := LifeCauses(order, e), Evaluate(order, e, consumed).value;
    assert |causes| == 5;
    assert causes[0].holds || causes[1].holds || causes[2].holds || causes[3].holds || causes[4].holds;
  }

  lemma MarketDecides(order: Order, e: Event, consumed: real)
    requires consumed >= 0.0 && e.symbol == order.symbol && NoneHolds(LifeCauses(order, e)) && e.data.Some? && e.data.value.book.Some?
    requires !NoneHolds(MarketCauses(order, e, e.data.value.trade, e.data.value.book.value))
    ensures Evaluate(order, e, consumed).Some?
    ensures FirstOf(MarketCauses(order, e, e.data.value.trade, e.data.value.book.value), Evaluate(order, e, consumed).value)
  {
    hide Take, TooWide, SlippageBound, Acceptable, SpreadWithin;
    var life := LifeCauses(order, e);
    assert !life[0].holds && !life[1].holds && !life[2].holds && !life[3].holds && !life[4].holds;
    var book := e.data.value.book.value;
    SpreadIs(order, book);
    AcceptableIs(order, Best(book, order.side).price);
    var causes := MarketCauses(order, e, e.data.value.trade, book);
    assert |causes| == 7;
    assert causes[0].holds || causes[1].holds || causes[2].holds || causes[3].holds || causes[4].holds || causes[5].holds || causes[6].holds;
  }

  lemma NothingDecides(order: Order, e: Event, consumed: real)
    requires consumed >= 0.0 && e.symbol == order.symbol && NoneHolds(LifeCauses(order, e)) && e.data.Some? && e.data.value.book.Some?
    requires NoneHolds(MarketCauses(order, e, e.data.value.trade, e.data.value.book.value))
    ensures OfferOf(order, e, e.data.value, e.data.value.book.value).Offered?
    ensures Evaluate(order, e, consumed) == Some(Take(order, OfferOf(order, e, e.data.value, e.data.value.book.value), consumed))
  {
    hide Take, TooWide, SlippageBound, Acceptable, OfferOf, SpreadWithin;
    var life := LifeCauses(order, e);
    assert !life[0].holds && !life[1].holds && !life[2].holds && !life[3].holds && !life[4].holds;
    var book := e.data.value.book.value;
    SpreadIs(order, book);
    var causes := MarketCauses(order, e, e.data.value.trade, book);
    assert !causes[0].holds && !causes[1].holds && !causes[2].holds && !causes[3].holds;
    OfferIs(order, e, e.data.value, book, 0.0, 0.0);
  }

  lemma StepsTaken(within: real, step: Price, quantity: real)
    ensures WholeSteps(within, step, quantity) <==> quantity == RoundStep(within, step, false)
  {
    hide FloorUnits;
    var k := FloorUnits(within, step);
    FloorUnitsBounds(within, step);
    assert (k + 1) as real * step == k as real * step + step;
    assert IsSteps(RoundStep(within, step, false), step, k);
    if WholeSteps(within, step, quantity) {
      var j: int :| IsSteps(quantity, step, j);
      assert (j + 1) as real * step == j as real * step + step;
      GreatestWithin(within, step, k, j);
      GreatestWithin(within, step, k, j + 1);
    }
  }

  lemma TakesWholeSteps(order: Order, offer: Offer, consumed: real)
    requires offer.Offered?
    ensures var left := if offer.capacity - consumed < order.quantity then offer.capacity - consumed else order.quantity;
            if left < order.qtyStep then Take(order, offer, consumed) == Unfilled(order, LiquidityUnavailable)
            else exists quantity :: WholeSteps(left, order.qtyStep, quantity)
                   && Take(order, offer, consumed) == Fill(offer.price, quantity, order.timeInForce.PostOnly?, offer.source, offer.capacity)
  {
    hide RoundStep;
    var left := if offer.capacity - consumed < order.quantity then offer.capacity - consumed else order.quantity;
    var quantity := RoundStep(left, order.qtyStep, false);
    StepsTaken(left, order.qtyStep, quantity);
    var k: int :| IsSteps(quantity, order.qtyStep, k);
    assert left == MinR(offer.capacity - consumed, order.quantity);
    if left < order.qtyStep {
      LessThanOne(k, order.qtyStep, quantity);
    } else {
      assert WholeSteps(left, order.qtyStep, quantity) && quantity > 0.0;
      assert Take(order, offer, consumed) == Fill(offer.price, quantity, order.timeInForce.PostOnly?, offer.source, offer.capacity);
    }
  }

  lemma LessThanOne(k: int, step: Price, quantity: real)
    requires IsSteps(quantity, step, k) && quantity < step
    ensures quantity <= 0.0
  {
    if k >= 1 { MulOrder(1.0, k as real, step); } else { MulOrder(k as real, 0.0, step); }
  }

  /**
   An order on its symbol is answered by the first cause that holds. Where none holds it fills, at the price on offer,
   the most whole steps that order and remaining capacity allow; less than one step left is the last cause.
   */
  lemma FillsExactly(order: Order, e: Event, consumed: real)
    ensures Evaluate(order, e, consumed).Some? <==> consumed >= 0.0 && e.symbol == order.symbol
    ensures Evaluate(order, e, consumed).Some? ==>
              var r := Evaluate(order, e, consumed).value;
              if !NoneHolds(LifeCauses(order, e)) then FirstOf(LifeCauses(order, e), r)
              else
                && e.data.Some? && e.data.value.book.Some?
                && var trade, book := e.data.value.trade, e.data.value.book.value;
                   if !NoneHolds(MarketCauses(order, e, trade, book)) then FirstOf(MarketCauses(order, e, trade, book), r)
                   else exists price, capacity :: OnOffer(order, e, trade, book, price, capacity) && Takes(order, e, book, consumed, price, capacity, r)
  {
    hide Take, OfferOf, EntryBookFailure, MarketCauses, OnOffer, FirstOf, Takes;
    if consumed >= 0.0 && e.symbol == order.symbol {
      if !NoneHolds(LifeCauses(order, e)) {
        LifeDecides(order, e, consumed);
      } else {
        assert LifeCauses(order, e)[4] in LifeCauses(order, e);
        var data, book := e.data.value, e.data.value.book.value;
        if !NoneHolds(MarketCauses(order, e, data.trade, book)) {
          MarketDecides(order, e, consumed);
        } else {
          NothingDecides(order, e, consumed);
          var offer := OfferOf(order, e, data, book);
          OfferIs(order, e, data, book, offer.price, offer.capacity);
          assert Takes(order, e, book, consumed, offer.price, offer.capacity, Take(order, offer, consumed)) by {
            TakesAtOffer(order, e, book, consumed, offer);
          }
        }
      }
    }
  }

  /** The answer to an offer. */
  ghost predicate Takes(order: Order, e: Event, book: Book, consumed: real, price: real, capacity: real, r: Result) {
    var left := if capacity - consumed < order.quantity then capacity - consumed else order.quantity;
    if left < order.qtyStep then r == Unfilled(order, LiquidityUnavailable)
    else
      && r.Fill? && r.price == price && r.capacity == capacity && WholeSteps(left, order.qtyStep, r.quantity)
      && (r.maker <==> order.timeInForce.PostOnly?)
      && r.source == if r.maker then TradeSource(e.stream, order.symbol, e.id) else BookSource(e.stream, order.symbol, book.updateId, order.side)
  }

  lemma TakesAtOffer(order: Order, e: Event, book: Book, consumed: real, offer: Offer)
    requires offer.Offered?
    requires offer.source == if order.timeInForce.PostOnly? then TradeSource(e.stream, order.symbol, e.id)
                             else BookSource(e.stream, order.symbol, book.updateId, order.side)
    ensures Takes(order, e, book, consumed, offer.price, offer.capacity, Take(order, offer, consumed))
  {
    hide Take;
    TakesWholeSteps(order, offer, consumed);
  }

  /** What a taker is offered and what the public trade took from the level never exceed what the level showed. */
  lemma CapacityIsWhatIsLeft(order: Order, e: Event, consumed: real)
    requires Evaluate(order, e, consumed).Some? && Evaluate(order, e, consumed).value.Fill?
    ensures e.data.Some? && e.data.value.book.Some?
    ensures var f, trade, book := Evaluate(order, e, consumed).value, e.data.value.trade, e.data.value.book.value;
            && OnOffer(order, e, trade, book, f.price, f.capacity)
            && (!f.maker && PublicTookIt(order, e, trade, f.price) ==> f.capacity + trade.quantity == (if order.side.Long? then book.ask else book.bid).quantity)
            && (!f.maker && !PublicTookIt(order, e, trade, f.price) ==> f.capacity == (if order.side.Long? then book.ask else book.bid).quantity)
  {
    hide Evaluate, WholeSteps;
    FillsExactly(order, e, consumed);
    NotFilledByCause(order, e, Evaluate(order, e, consumed).value);
  }

  lemma NotFilledByCause(order: Order, e: Event, r: Result)
    ensures FirstOf(LifeCauses(order, e), r) ==> !r.Fill?
    ensures e.data.Some? && e.data.value.book.Some? ==> (FirstOf(MarketCauses(order, e, e.data.value.trade, e.data.value.book.value), r) ==> !r.Fill?)
  {
  }

  // ---------------------------------------------------------------- the ledger

  /** What has been taken from a source is the sum of its fills, and its capacity on record the largest one noted. */
  lemma LedgerExactly(fills: seq<LedgerFill>, more: LedgerFill, source: Source)
    ensures Taken([], source) == 0.0 && MaxCapacity([], source).None?
    ensures Taken(fills + [more], source) == Taken(fills, source) + if more.source == source then more.quantity else 0.0
    ensures var before, after := MaxCapacity(fills, source), MaxCapacity(fills + [more], source);
            if more.source != source then after == before
            else after.Some? && after.value >= more.capacity && (before.Some? ==> after.value >= before.value)
                 && (after.value == more.capacity || after == before)
  {
    assert (fills + [more])[..|fills|] == fills;
  }

  /**
   An attempt is booked if and only if the order would fill by itself, still fills with everything counted on its source
   and taken publicly, and asks for something, but no more than that; it is booked under its source and capacity.
   */
  lemma BooksExactly(fills: seq<LedgerFill>, a: Attempt, source: Source)
    ensures var alone, after := Evaluate(a.order, a.event, 0.0), Booked(fills, a);
            if !(alone.Some? && alone.value.Fill?) then after == fills
            else
              alone.value.source == source ==>
                var left := Evaluate(a.order, a.event, Taken(fills, source) + a.publiclyConsumed);
                if left.Some? && left.value.Fill? && a.quantity > 0.0 && left.value.quantity >= a.quantity
                then after == fills + [LedgerFill(source, a.quantity, left.value.capacity)] else after == fills
  {
    hide Evaluate;
    var alone := Evaluate(a.order, a.event, 0.0);
    if alone.Some? && alone.value.Fill? {
      var consumed := Taken(fills, alone.value.source) + a.publiclyConsumed;
      if Evaluate(a.order, a.event, consumed).Some? && Evaluate(a.order, a.event, consumed).value.Fill? {
        SourceIgnoresConsumption(a.order, a.event, consumed);
      }
    }
  }
}
