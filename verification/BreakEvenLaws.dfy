/** What the break-even level is for: closing there returns every cost of the trade. */
module BreakEvenLaws {
  import opened Common
  import opened Engine

  /** Net result of closing `quantity` at `exit`, with the entry fee and a proportional exit fee. */
  function Net(side: Side, entry: Price, quantity: Price, fee: real, takerBps: real, exit: real): real {
    Gain(side, entry, exit) * quantity - (fee + exit * quantity * (takerBps / 10000.0))
  }

  lemma NetIsLinear(side: Side, entry: Price, quantity: Price, fee: real, takerBps: real, exit: real)
    ensures Net(side, entry, quantity, fee, takerBps, exit) ==
            Dir(side) * (exit * (quantity * (1.0 - Dir(side) * takerBps / 10000.0)) - (entry * quantity + fee * Dir(side)))
  {
    var t := takerBps / 10000.0;
    if side.Long? {
      assert exit * (quantity * (1.0 - t)) == exit * quantity - exit * quantity * t;
      assert (exit - entry) * quantity == exit * quantity - entry * quantity;
    } else {
      assert exit * (quantity * (1.0 + t)) == exit * quantity + exit * quantity * t;
      assert (entry - exit) * quantity == entry * quantity - exit * quantity;
    }
  }

  /** A better exit price never costs anything. */
  lemma NetMonotone(side: Side, entry: Price, quantity: Price, fee: real, takerBps: real, exit: real, better: real)
    requires Favours(side, better, exit) && 0.0 <= takerBps <= 100.0
    ensures Net(side, entry, quantity, fee, takerBps, better) >= Net(side, entry, quantity, fee, takerBps, exit)
  {
    NetIsLinear(side, entry, quantity, fee, takerBps, exit);
    NetIsLinear(side, entry, quantity, fee, takerBps, better);
    var k := quantity * (1.0 - Dir(side) * takerBps / 10000.0);
    MulOrder(0.0, 1.0 - Dir(side) * takerBps / 10000.0, quantity);
    MulOrder(exit, better, k);
    MulOrder(better, exit, k);
  }

  /** Rounding toward the favourable side and then rounding the slipped price back never loses the target. */
  lemma RoundTripKeeps(side: Side, target: real, settled: real, level: real, back: real, slip: Price, tick: Price)
    requires settled == RoundStep(target, tick, side.Long?)
    requires level == RoundStep(BeforeSlippage(settled, slip), tick, side.Long?)
    requires back == level * slip
    ensures Favours(side, RoundStep(back, tick, !side.Long?), target)
  {
    hide FloorUnits, CeilUnits;
    var units := if side.Long? then CeilUnits(target, tick) else FloorUnits(target, tick);
    CeilUnitsBounds(target, tick);
    FloorUnitsBounds(target, tick);
    var value := BeforeSlippage(settled, slip);
    CeilUnitsBounds(value, tick);
    FloorUnitsBounds(value, tick);
    QuotientOrder(settled, slip, level);
    UnitsAreExtreme(back, tick, units);
    if side.Long? {
      GridOrder(settled, units, FloorUnits(back, tick) as real * tick, FloorUnits(back, tick), tick);
    } else {
      GridOrder(CeilUnits(back, tick) as real * tick, CeilUnits(back, tick), settled, units, tick);
    }
  }

  lemma SettleNet(p: Position, raw: real, at: int, reason: ExitReason, cfg: ConfigData)
    ensures var s := Settle(p, raw, at, reason, cfg);
            s.netPnl == Net(p.basis.side, p.basis.entryPrice, p.basis.quantity, p.basis.entryFee, cfg.costs.takerFeeBps, s.exitPrice)
  {
  }

  /** The exit price at which the trade returns its costs. */
  function CostPrice(b: Basis, cfg: ConfigData): real {
    CoveringValue(b, TakerShare(b.side, cfg))
  }

  lemma CostPriceNetsZero(b: Basis, cfg: ConfigData)
    ensures Net(b.side, b.entryPrice, b.quantity, b.entryFee, cfg.costs.takerFeeBps, CostPrice(b, cfg)) == 0.0
  {
    var taker := TakerShare(b.side, cfg);
    MulOrder(0.0, taker, b.quantity);
    var due, scale: Price := b.entryPrice * b.quantity + b.entryFee * Dir(b.side), b.quantity * taker;
    assert due / scale * scale == due;
    NetIsLinear(b.side, b.entryPrice, b.quantity, b.entryFee, cfg.costs.takerFeeBps, CostPrice(b, cfg));
  }

  lemma BreakEvenExit(b: Basis, cfg: ConfigData)
    ensures var exit := SlippedPrice(b, BreakEven(b, cfg), cfg);
            && Favours(b.side, exit, CostPrice(b, cfg))
            && (b.rules.None? ==> exit == CostPrice(b, cfg))
  {
    hide RoundStep, SlipShare, TakerShare;
    if b.rules.None? {
      UnroundedTarget(b.entryPrice, b.quantity, b.entryFee, Dir(b.side), TakerShare(b.side, cfg), SlipShare(b.side, cfg));
    } else {
      var tick := b.rules.value.tick;
      RoundTripKeeps(b.side, CostPrice(b, cfg), RoundStep(CostPrice(b, cfg), tick, b.side.Long?), BreakEven(b, cfg),
                     Slipped(b.side, BreakEven(b, cfg), cfg), SlipShare(b.side, cfg), tick);
    }
  }

  /** Closing at the break-even level never loses, and without tick rounding returns exactly the costs. */
  lemma BreakEvenReturnsCosts(p: Position, at: int, reason: ExitReason, cfg: ConfigData)
    ensures Settle(p, BreakEven(p.basis, cfg), at, reason, cfg).netPnl >= 0.0
    ensures p.basis.rules.None? ==> Settle(p, BreakEven(p.basis, cfg), at, reason, cfg).netPnl == 0.0
  {
    hide BreakEven, Net, CostPrice;
    var b := p.basis;
    BreakEvenExit(b, cfg);
    CostPriceNetsZero(b, cfg);
    SettleNet(p, BreakEven(b, cfg), at, reason, cfg);
    NetMonotone(b.side, b.entryPrice, b.quantity, b.entryFee, cfg.costs.takerFeeBps, CostPrice(b, cfg),
                Settle(p, BreakEven(b, cfg), at, reason, cfg).exitPrice);
  }

  lemma UnroundedTarget(entry: Price, quantity: Price, fee: real, d: real, taker: Price, slip: Price)
    ensures (entry + d * (fee / quantity)) / taker / slip * slip == (entry * quantity + fee * d) / (quantity * taker)
  {
    var unit := entry + d * (fee / quantity);
    var x := unit / taker;
    assert x / slip * slip == x;
    assert fee / quantity * quantity == fee;
    assert unit * quantity == entry * quantity + fee * d;
    assert x * taker == unit;
    assert x * (quantity * taker) == unit * quantity;
    var y := (entry * quantity + fee * d) / (quantity * taker);
    assert y * (quantity * taker) == entry * quantity + fee * d;
    MulOrder(x, y, quantity * taker);
    MulOrder(y, x, quantity * taker);
  }
}
