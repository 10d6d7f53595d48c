/** The two recoveries as the runtime performs them, loop by loop. */
module RecoveryLoops {
  import opened Common
  import opened Engine
  import opened Recovery

  method RecoverRuntimeGap(gap: Gap, cfg: ConfigData) returns (r: Result)
    ensures r == LegacyRecovery(gap, cfg)
    decreases gap.start.position.exitPinned
  {
    if gap.start.position.exitPinned {
      var recovered := RecoverRuntimeGap(gap.(start := gap.start.(position := Unpinned(gap.start.position))), cfg);
      if recovered.Incomplete? { return Incomplete; }
      var value := recovered.value;
      var now := value.now.(position := value.now.position.(exitPinned := true));
      if value.settlement.None? { return Done(value.(now := now)); }
      return Done(Recovered(now, Some(Settle(now.position, gap.quote.price, gap.quote.at, RecoveryExit, cfg)),
                            value.evidence.(quality := Ambiguous, ambiguity := Some(IntrabarOrder))));
    }
    if gap.quote.at < gap.since { return Incomplete; }
    var range := RuntimeRecoveryMinuteRange(gap.since, gap.quote.at);
    var from, last := range.start, MinuteOf(range.end);
    var quality := if gap.since % MINUTE == 0 && gap.quote.at % MINUTE == 0 then CompleteMinutes else BoundedMinutes;
    var evidence := Evidence(gap.since, gap.quote.at, MinuteOhlc, quality, None);
    if gap.quote.at == gap.since { return Done(Recovered(gap.start, None, evidence)); }
    var time := from;
    while time <= last
      invariant MinutesPresent(gap.inputs.minutes, from, last) == MinutesPresent(gap.inputs.minutes, time, last)
      decreases last - time
    {
      if time !in gap.inputs.minutes || !ValidCandle(gap.inputs.minutes[time]) { return Incomplete; }
      time := time + MINUTE;
    }
    var position := gap.start.position;
    time := from;
    while time <= last
      invariant MinutesPresent(gap.inputs.minutes, time, last)
      invariant LegacyFrom(gap, gap.start.position, from, last, evidence, cfg) == LegacyFrom(gap, position, time, last, evidence, cfg)
      decreases last - time
    {
      var candle := gap.inputs.minutes[time];
      var complete := time >= gap.since && time + MINUTE <= gap.quote.at;
      var exit := CandleExit(position, candle, time, cfg);
      if exit.Some? {
        if complete {
          return Done(Recovered(Protected(position, gap.start.state), Some(exit.value.(closedAt := time + MINUTE)), evidence));
        }
        return Done(Recovered(Protected(position, gap.start.state),
                              Some(Settle(position, gap.quote.price, gap.quote.at, RecoveryExit, cfg)),
                              evidence.(quality := Ambiguous, ambiguity := Some(PartialTouch))));
      }
      var updated := UpdateProtection(position, Favourable(position.basis.side, candle), cfg, cfg.exit);
      if !complete && (updated.stop != position.stop || updated.trailing != position.trailing) {
        return Done(Recovered(Protected(position, gap.start.state),
                              Some(Settle(position, gap.quote.price, gap.quote.at, RecoveryExit, cfg)),
                              evidence.(quality := Ambiguous, ambiguity := Some(PartialChange))));
      }
      if PriceExit(updated, Adverse(position.basis.side, candle), gap.quote.at, cfg).Some? {
        return Done(Recovered(Protected(updated, gap.start.state),
                              Some(Settle(updated, gap.quote.price, gap.quote.at, RecoveryExit, cfg)),
                              evidence.(quality := Ambiguous, ambiguity := Some(IntrabarOrder))));
      }
      if complete { position := updated; }
      time := time + MINUTE;
    }
    return Done(Recovered(Protected(position, gap.start.state), None, evidence));
  }

  /** The trades from `from` that share its instant. */
  method TakeGroup(selected: seq<Trade>, from: nat) returns (i: nat)
    requires from < |selected|
    ensures from < i <= |selected| && i == from + RunLength(selected[from..])
  {
    i := from;
    while i < |selected| && selected[i].at == selected[from].at
      invariant from <= i <= |selected|
      invariant forall k :: from <= k < i ==> selected[k].at == selected[from].at
    {
      i := i + 1;
    }
    RunIs(selected[from..], i - from);
  }

  lemma UnrollTrades(gap: Gap, now: Protected, selected: seq<Trade>, from: nat, i: nat, cfg: ConfigData, policy: Option<Policy>)
    requires Priced(selected) && from < i <= |selected| && i == from + RunLength(selected[from..])
    ensures var group := selected[from..i];
            var updated := Advance(now, BestPrice(now.position.basis.side, group), selected[from].at, cfg, policy);
            FromTrades(gap, now, selected[from..], cfg, policy) ==
            if AnyTouched(now.position, group) then
              Uncertain(gap, now, cfg, RecentTrades, if |group| > 1 then SameTimestamp else HistoricalTrigger)
            else if AnyTouched(updated.position, group) then Uncertain(gap, now, cfg, RecentTrades, SameTimestamp)
            else FromTrades(gap, updated, selected[i..], cfg, policy)
  {
    hide FromTrades, AnyTouched, RunLength, Uncertain, BestPrice;
    var tail, group := selected[from..], selected[from..i];
    assert tail[..i - from] == group && tail[i - from..] == selected[i..];
    UnrollGroup(gap, now, tail, i - from, group, selected[i..], cfg, policy);
  }

  lemma UnrollGroup(gap: Gap, now: Protected, tail: seq<Trade>, n: nat, group: seq<Trade>, rest: seq<Trade>, cfg: ConfigData, policy: Option<Policy>)
    requires Priced(tail) && tail != [] && n == RunLength(tail) && group == tail[..n] && rest == tail[n..]
    ensures var updated := Advance(now, BestPrice(now.position.basis.side, group), tail[0].at, cfg, policy);
            FromTrades(gap, now, tail, cfg, policy) ==
            if AnyTouched(now.position, group) then Uncertain(gap, now, cfg, RecentTrades, if n > 1 then SameTimestamp else HistoricalTrigger)
            else if AnyTouched(updated.position, group) then Uncertain(gap, now, cfg, RecentTrades, SameTimestamp)
            else FromTrades(gap, updated, rest, cfg, policy)
  {
    hide Advance, Settle, AnyTouched, RunLength, Uncertain, BestPrice;
  }

  /** The public trades, grouped by instant. */
  method RecoverFromTrades(gap: Gap, selected: seq<Trade>, cfg: ConfigData, policy: Option<Policy>) returns (r: Result)
    requires Priced(selected)
    ensures r == FromTrades(gap, gap.start, selected, cfg, policy)
  {
    hide Advance, Settle, AnyTouched, RunLength, FromTrades, Uncertain;
    var now, i := gap.start, 0;
    while i < |selected|
      invariant i <= |selected|
      invariant FromTrades(gap, gap.start, selected, cfg, policy) == FromTrades(gap, now, selected[i..], cfg, policy)
    {
      var from, at := i, selected[i].at;
      i := TakeGroup(selected, from);
      var group := selected[from..i];
      UnrollTrades(gap, now, selected, from, i, cfg, policy);
      var touched := ScanGroup(now.position, group, at, cfg);
      if touched { return Uncertain(gap, now, cfg, RecentTrades, if |group| > 1 then SameTimestamp else HistoricalTrigger); }
      var best := BestOf(now.position.basis.side, group);
      var updated := Advance(now, best, at, cfg, policy);
      touched := ScanGroup(updated.position, group, at, cfg);
      if touched { return Uncertain(gap, now, cfg, RecentTrades, SameTimestamp); }
      now := updated;
    }
    assert selected[i..] == [];
    NoMoreTrades(gap, now, cfg, policy);
    return Done(Recovered(now, None, Evidence(gap.since, gap.quote.at, RecentTrades, BoundedTrades, None)));
  }

  lemma NoMoreTrades(gap: Gap, now: Protected, cfg: ConfigData, policy: Option<Policy>)
    ensures FromTrades(gap, now, [], cfg, policy) ==
            Done(Recovered(now, None, Evidence(gap.since, gap.quote.at, RecentTrades, BoundedTrades, None)))
  {
  }

  /** Looks for a trade of the group that exits the position. */
  method ScanGroup(p: Position, group: seq<Trade>, at: int, cfg: ConfigData) returns (touched: bool)
    ensures touched == AnyTouched(p, group)
  {
    for k := 0 to |group|
      invariant forall j :: 0 <= j < k ==> !Touched(p, group[j].price)
    {
      if PriceExit(p, group[k].price, at, cfg).Some? {
        assert group[k] in group;
        return true;
      }
    }
    return false;
  }

  lemma RunIs(trades: seq<Trade>, n: nat)
    requires 0 < n <= |trades|
    requires forall i :: 0 <= i < n ==> trades[i].at == trades[0].at
    requires n < |trades| ==> trades[n].at != trades[0].at
    ensures RunLength(trades) == n
  {
  }

  method BestOf(side: Side, group: seq<Trade>) returns (best: Price)
    requires group != [] && Priced(group)
    ensures best == BestPrice(side, group)
  {
    best := group[0].price;
    var k := 1;
    while k < |group|
      invariant 1 <= k <= |group|
      invariant forall j :: 0 <= j < k ==> Favours(side, best, group[j].price)
      invariant exists j :: 0 <= j < k && group[j].price == best
    {
      if Behind(side, best, group[k].price) { best := group[k].price; }
      k := k + 1;
    }
    ghost var t :| t in group && t.price == BestPrice(side, group);
  }

  /** The minutes closed by the quote, one by one. */
  method RecoverFromMinutes(gap: Gap, cfg: ConfigData, policy: Option<Policy>) returns (r: Result)
    ensures r == FromMinutes(gap, gap.start, MinuteOf(gap.since), CompleteMinutes, cfg, policy)
  {
    hide Advance, Settle, CandleExit;
    var now, time, quality := gap.start, MinuteOf(gap.since), CompleteMinutes;
    while time < gap.quote.at
      invariant FromMinutes(gap, gap.start, MinuteOf(gap.since), CompleteMinutes, cfg, policy) == FromMinutes(gap, now, time, quality, cfg, policy)
      decreases gap.quote.at - time
    {
      if time + MINUTE > gap.quote.at { return Uncertain(gap, now, cfg, MinuteOhlc, UnobservedMinute); }
      if time !in gap.inputs.minutes { return Incomplete; }
      var c := gap.inputs.minutes[time];
      if c.symbol != now.position.basis.symbol || !ValidCandle(c) { return Incomplete; }
      var partial := time < gap.since;
      if CandleExit(Unpinned(now.position), c, time, cfg).Some? {
        return Uncertain(gap, now, cfg, MinuteOhlc, if partial then PartialTouch else HistoricalTrigger);
      }
      var side, at, during := now.position.basis.side, time + MINUTE, PolicyThroughout(policy, time);
      var updated := Advance(now, Favourable(side, c), at, cfg, during);
      var changed := updated.position.stop != now.position.stop || updated.position.trailing != now.position.trailing;
      if partial {
        quality := BoundedMinutes;
        if changed { return Uncertain(gap, now, cfg, MinuteOhlc, PartialChange); }
      } else {
        if PriceExit(updated.position, Adverse(side, c), at, cfg).Some? { return Uncertain(gap, now, cfg, MinuteOhlc, IntrabarOrder); }
        now := Advance(updated, c.close, at, cfg, during);
      }
      time := time + MINUTE;
    }
    return Done(Recovered(now, None, Evidence(gap.since, gap.quote.at, MinuteOhlc, quality, None)));
  }

  method RecoverCausalRuntimeGap(gap: Gap, cfg: ConfigData, policy: Option<Policy>) returns (r: Result)
    ensures r == CausalRecovery(gap, cfg, policy)
  {
    hide Advance, Settle, CandleExit;
    if gap.quote.at < gap.since { return Incomplete; }
    SelectedArePriced(gap);
    var selected := SelectTrades(gap);
    if selected.Some? {
      r := RecoverFromTrades(gap, selected.value, cfg, policy);
      return;
    }
    if gap.quote.at == gap.since {
      if gap.inputs.strict { return Uncertain(gap, gap.start, cfg, MinuteOhlc, SameTimestamp); }
      return Done(Recovered(gap.start, None, Evidence(gap.since, gap.quote.at, MinuteOhlc, CompleteMinutes, None)));
    }
    if !gap.inputs.strict {
      r := RecoverRuntimeGap(gap, cfg);
      return;
    }
    r := RecoverFromMinutes(gap, cfg, policy);
  }
}
