/**
 Rebuilding a gap in the price stream from public trades or from minute bars:
 either the position every consistent price path would have, or a declared ambiguity.
 */
module Recovery {
  import opened Common
  import opened Engine

  datatype Ambiguity = PartialTouch | PartialChange | IntrabarOrder | UnobservedMinute | SameTimestamp | HistoricalTrigger
                     | UnreconstructedGap
  datatype Source = MinuteOhlc | RecentTrades | JournalProtection
  datatype Quality = CompleteMinutes | BoundedMinutes | Ambiguous | BoundedTrades | IncompleteHistory

  datatype Evidence = Evidence(fromAt: int, toAt: int, source: Source, quality: Quality, ambiguity: Option<Ambiguity>)

  datatype Trade = Trade(id: int, symbol: string, price: real, at: int)

  /** Everything fetched for one recovery. */
  datatype Inputs = Inputs(minutes: map<int, Candle>, recent: Option<seq<Trade>>, anchorId: Option<int>,
                           anchorPrice: Option<real>, quoteId: Option<int>, strict: bool)

  datatype Gap = Gap(start: Protected, since: int, quote: Quote, inputs: Inputs)

  datatype Recovered = Recovered(now: Protected, settlement: Option<Settlement>, evidence: Evidence)

  datatype Result = Done(value: Recovered) | Incomplete

  const MINUTE := 60000

  function MinuteOf(t: int): int { t / MINUTE * MINUTE }

  // ---------------------------------------------------------------- choosing the trades

  function FindTrade(trades: seq<Trade>, id: int): Option<Trade> {
    if trades == [] then None
    else if trades[0].id == id then Some(trades[0])
    else FindTrade(trades[1..], id)
  }

  function InsertByTime(t: Trade, sorted: seq<Trade>): seq<Trade> {
    if sorted == [] || t.at <= sorted[0].at then [t] + sorted
    else [sorted[0]] + InsertByTime(t, sorted[1..])
  }

  /** The trades strictly inside the gap, by time; equal times keep their order. */
  function InsideByTime(trades: seq<Trade>, since: int, until: int): seq<Trade> {
    if trades == [] then []
    else
      var rest := InsideByTime(trades[1..], since, until);
      if since < trades[0].at < until then InsertByTime(trades[0], rest) else rest
  }

  predicate DistinctIds(trades: seq<Trade>) {
    forall i, j :: 0 <= i < j < |trades| ==> trades[i].id != trades[j].id
  }

  /** Both boundary trades are present and agree with everything else known at their instants. */
  predicate BoundariesCovered(gap: Gap, trades: seq<Trade>, anchor: Trade, end: Trade) {
    && anchor.at == gap.since
    && end.at == gap.quote.at
    && end.price == gap.quote.price
    && (forall t :: t in trades ==> t.symbol == gap.quote.symbol && t.price > 0.0)
    && (gap.inputs.anchorPrice.Some? ==> anchor.price == gap.inputs.anchorPrice.value)
    && DistinctIds(trades)
    && (forall t :: t in trades ==>
          && (t.at == gap.since ==> t.price == anchor.price)
          && (t.at == gap.quote.at ==> t.price == gap.quote.price))
  }

  function SelectTrades(gap: Gap): Option<seq<Trade>> {
    var inputs := gap.inputs;
    if inputs.recent.None? || inputs.anchorId.None? || inputs.quoteId.None? then None
    else
      var trades := inputs.recent.value;
      var anchor, end := FindTrade(trades, inputs.anchorId.value), FindTrade(trades, inputs.quoteId.value);
      if anchor.Some? && end.Some? && BoundariesCovered(gap, trades, anchor.value, end.value)
      then Some(InsideByTime(trades, gap.since, gap.quote.at))
      else None
  }

  // ---------------------------------------------------------------- public trades, one instant at a time

  predicate Priced(trades: seq<Trade>) {
    forall t :: t in trades ==> t.price > 0.0
  }

  /** How many leading trades share the first one's instant. */
  function RunLength(trades: seq<Trade>): (n: nat)
    ensures n <= |trades|
    ensures trades != [] ==> n > 0
    ensures forall i :: 0 <= i < n ==> trades[i].at == trades[0].at
    ensures n < |trades| ==> trades[n].at != trades[0].at
  {
    if trades == [] then 0
    else if |trades| > 1 && trades[1].at == trades[0].at then 1 + RunLength(trades[1..])
    else 1
  }

  function BestPrice(side: Side, group: seq<Trade>): (best: Price)
    requires group != [] && Priced(group)
    ensures exists t :: t in group && t.price == best
    ensures forall t :: t in group ==> Favours(side, best, t.price)
  {
    if |group| == 1 then assert group[0] in group; group[0].price
    else
      var rest := BestPrice(side, group[1..]);
      assert group[0] in group;
      Join(side, group[0].price, rest)
  }

  predicate AnyTouched(p: Position, trades: seq<Trade>) {
    exists t :: t in trades && Touched(p, t.price)
  }

  function Uncertain(gap: Gap, now: Protected, cfg: ConfigData, source: Source, ambiguity: Ambiguity): Result {
    Done(Recovered(now,
                   Some(Settle(now.position, gap.quote.price, gap.quote.at, RecoveryExit, cfg)),
                   Evidence(gap.since, gap.quote.at, source, Ambiguous, Some(ambiguity))))
  }

  function FromTrades(gap: Gap, now: Protected, trades: seq<Trade>, cfg: ConfigData, policy: Option<Policy>): Result
    requires Priced(trades)
    decreases |trades|
  {
    if trades == [] then
      Done(Recovered(now, None, Evidence(gap.since, gap.quote.at, RecentTrades, BoundedTrades, None)))
    else
      var n := RunLength(trades);
      var group := trades[..n];
      if AnyTouched(now.position, group) then
        Uncertain(gap, now, cfg, RecentTrades, if n > 1 then SameTimestamp else HistoricalTrigger)
      else
        var updated := Advance(now, BestPrice(now.position.basis.side, group), group[0].at, cfg, policy);
        if AnyTouched(updated.position, group) then Uncertain(gap, now, cfg, RecentTrades, SameTimestamp)
        else FromTrades(gap, updated, trades[n..], cfg, policy)
  }

  // ---------------------------------------------------------------- minutes closed by the quote

  function PolicyThroughout(policy: Option<Policy>, minute: int): Option<Policy> {
    if policy.Some? && policy.value.enabledAt <= minute then policy else None
  }

  function Unpinned(p: Position): Position {
    p.(exitPinned := false)
  }

  predicate LevelsChanged(p: Position, q: Position) {
    p.stop != q.stop || p.trailing != q.trailing
  }

  function FromMinutes(gap: Gap, now: Protected, time: int, quality: Quality, cfg: ConfigData, policy: Option<Policy>): Result
    decreases gap.quote.at - time
  {
    if time >= gap.quote.at then Done(Recovered(now, None, Evidence(gap.since, gap.quote.at, MinuteOhlc, quality, None)))
    else if time + MINUTE > gap.quote.at then Uncertain(gap, now, cfg, MinuteOhlc, UnobservedMinute)
    else if time !in gap.inputs.minutes then Incomplete
    else
      var c := gap.inputs.minutes[time];
      var side := now.position.basis.side;
      if c.symbol != now.position.basis.symbol || !ValidCandle(c) then Incomplete
      else if CandleExit(Unpinned(now.position), c, time, cfg).Some? then
        Uncertain(gap, now, cfg, MinuteOhlc, if time < gap.since then PartialTouch else HistoricalTrigger)
      else
        var during := PolicyThroughout(policy, time);
        var updated := Advance(now, Favourable(side, c), time + MINUTE, cfg, during);
        if time < gap.since then
          if LevelsChanged(updated.position, now.position) then Uncertain(gap, now, cfg, MinuteOhlc, PartialChange)
          else FromMinutes(gap, now, time + MINUTE, BoundedMinutes, cfg, policy)
        else if Touched(updated.position, Adverse(side, c)) then Uncertain(gap, now, cfg, MinuteOhlc, IntrabarOrder)
        else FromMinutes(gap, Advance(updated, c.close, time + MINUTE, cfg, during), time + MINUTE, quality, cfg, policy)
  }

  // ---------------------------------------------------------------- the earlier minute recovery

  datatype MinuteRange = MinuteRange(start: int, end: int)

  function RuntimeRecoveryMinuteRange(since: int, through: int): MinuteRange {
    MinuteRange(MinuteOf(since), through - 1)
  }

  predicate Complete(gap: Gap, time: int) {
    gap.since <= time && time + MINUTE <= gap.quote.at
  }

  /** Every minute from `time` through `to` is present and well formed. */
  predicate MinutesPresent(minutes: map<int, Candle>, time: int, last: int)
    decreases last - time
  {
    time > last || (time in minutes && ValidCandle(minutes[time]) && MinutesPresent(minutes, time + MINUTE, last))
  }

  function LegacyFrom(gap: Gap, now: Position, time: int, last: int, evidence: Evidence, cfg: ConfigData): Recovered
    requires MinutesPresent(gap.inputs.minutes, time, last)
    decreases last - time
  {
    var at := Protected(now, gap.start.state);
    if time > last then Recovered(at, None, evidence)
    else
      var c := gap.inputs.minutes[time];
      var exit := CandleExit(now, c, time, cfg);
      var updated := UpdateProtection(now, Favourable(now.basis.side, c), cfg, cfg.exit);
      var atQuote := Some(Settle(now, gap.quote.price, gap.quote.at, RecoveryExit, cfg));
      if exit.Some? then
        if Complete(gap, time) then Recovered(at, Some(exit.value.(closedAt := time + MINUTE)), evidence)
        else Recovered(at, atQuote, evidence.(quality := Ambiguous, ambiguity := Some(PartialTouch)))
      else if !Complete(gap, time) && LevelsChanged(updated, now) then
        Recovered(at, atQuote, evidence.(quality := Ambiguous, ambiguity := Some(PartialChange)))
      else if Touched(updated, Adverse(now.basis.side, c)) then
        Recovered(Protected(updated, gap.start.state),
                  Some(Settle(updated, gap.quote.price, gap.quote.at, RecoveryExit, cfg)),
                  evidence.(quality := Ambiguous, ambiguity := Some(IntrabarOrder)))
      else LegacyFrom(gap, if Complete(gap, time) then updated else now, time + MINUTE, last, evidence, cfg)
  }

  function LegacyUnpinned(gap: Gap, cfg: ConfigData): Result {
    if gap.quote.at < gap.since then Incomplete
    else
      var quality := if gap.since % MINUTE == 0 && gap.quote.at % MINUTE == 0 then CompleteMinutes else BoundedMinutes;
      var evidence := Evidence(gap.since, gap.quote.at, MinuteOhlc, quality, None);
      var range := RuntimeRecoveryMinuteRange(gap.since, gap.quote.at);
      if gap.quote.at == gap.since then Done(Recovered(gap.start, None, evidence))
      else if !MinutesPresent(gap.inputs.minutes, range.start, MinuteOf(range.end)) then Incomplete
      else Done(LegacyFrom(gap, gap.start.position, range.start, MinuteOf(range.end), evidence, cfg))
  }

  /** With a pinned exit policy the fill of a historical touch is unknown, so any exit is taken at the quote. */
  function LegacyRecovery(gap: Gap, cfg: ConfigData): Result {
    if !gap.start.position.exitPinned then LegacyUnpinned(gap, cfg)
    else
      match LegacyUnpinned(gap.(start := gap.start.(position := Unpinned(gap.start.position))), cfg)
      case Incomplete => Incomplete
      case Done(r) =>
        var now := r.now.(position := r.now.position.(exitPinned := true));
        if r.settlement.None? then Done(r.(now := now))
        else Done(Recovered(now, Some(Settle(now.position, gap.quote.price, gap.quote.at, RecoveryExit, cfg)),
                            r.evidence.(quality := Ambiguous, ambiguity := Some(IntrabarOrder))))
  }

  // ---------------------------------------------------------------- the whole decision

  lemma InsidePriced(trades: seq<Trade>, since: int, until: int)
    requires Priced(trades)
    ensures Priced(InsideByTime(trades, since, until))
  {
    if trades != [] {
      InsidePriced(trades[1..], since, until);
      InsertElements(trades[0], InsideByTime(trades[1..], since, until));
    }
  }

  lemma InsertElements(t: Trade, sorted: seq<Trade>)
    ensures multiset(InsertByTime(t, sorted)) == multiset(sorted) + multiset{t}
    ensures forall u :: u in InsertByTime(t, sorted) <==> u == t || u in sorted
  {
    if sorted == [] || t.at <= sorted[0].at {
    } else {
      InsertElements(t, sorted[1..]);
      assert sorted == [sorted[0]] + sorted[1..];
    }
  }

  lemma SelectedArePriced(gap: Gap)
    ensures SelectTrades(gap).Some? ==> Priced(SelectTrades(gap).value)
  {
    if SelectTrades(gap).Some? {
      InsidePriced(gap.inputs.recent.value, gap.since, gap.quote.at);
    }
  }

  function CausalRecovery(gap: Gap, cfg: ConfigData, policy: Option<Policy>): Result {
    if gap.quote.at < gap.since then Incomplete
    else
      SelectedArePriced(gap);
      var selected := SelectTrades(gap);
      if selected.Some? then FromTrades(gap, gap.start, selected.value, cfg, policy)
      else if gap.quote.at == gap.since then
        if gap.inputs.strict then Uncertain(gap, gap.start, cfg, MinuteOhlc, SameTimestamp)
        else Done(Recovered(gap.start, None, Evidence(gap.since, gap.quote.at, MinuteOhlc, CompleteMinutes, None)))
      else if !gap.inputs.strict then LegacyRecovery(gap, cfg)
      else FromMinutes(gap, gap.start, MinuteOf(gap.since), CompleteMinutes, cfg, policy)
  }
}
