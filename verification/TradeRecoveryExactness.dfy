/**
 Exactly which trades are used for a gap, that they speak for every trade fetched for it, and exactly when they
 leave the position in doubt.
 */
module TradeRecoveryExactness {
  import opened Common
  import opened Engine
  import opened EngineLaws
  import opened Recovery
  import opened TradeRecoveryLaws

  // ---------------------------------------------------------------- which trades cover a gap

  /** The fetched trades reach from the last processed trade to the quote, and neither boundary millisecond hides another price. */
  predicate Covers(gap: Gap, trades: seq<Trade>, anchor: Trade, end: Trade) {
    && anchor in trades && gap.inputs.anchorId == Some(anchor.id) && anchor.at == gap.since
    && end in trades && gap.inputs.quoteId == Some(end.id) && end.at == gap.quote.at && end.price == gap.quote.price
    && (gap.inputs.anchorPrice.None? || gap.inputs.anchorPrice == Some(anchor.price))
    && (forall i, j :: 0 <= i < |trades| && 0 <= j < |trades| && trades[i].id == trades[j].id ==> i == j)
    && (forall t :: t in trades ==> t.symbol == gap.quote.symbol && t.price > 0.0)
    && (forall t :: t in trades && t.at == gap.since ==> t.price == anchor.price)
    && (forall t :: t in trades && t.at == gap.quote.at ==> t.price == gap.quote.price)
  }

  lemma {:induction false} FoundById(trades: seq<Trade>, id: int)
    ensures var t := FindTrade(trades, id);
            if t.Some? then t.value in trades && t.value.id == id else forall u :: u in trades ==> u.id != id
    decreases |trades|
  {
    if trades != [] {
      assert forall u :: u in trades <==> u == trades[0] || u in trades[1..];
      FoundById(trades[1..], id);
    }
  }

  /** Trades are used if and only if they cover the gap. */
  lemma SelectsExactly(gap: Gap)
    ensures SelectTrades(gap).Some? <==> gap.inputs.recent.Some? && exists anchor, end :: Covers(gap, gap.inputs.recent.value, anchor, end)
  {
    var inputs := gap.inputs;
    if inputs.recent.Some? && inputs.anchorId.Some? && inputs.quoteId.Some? {
      var trades := inputs.recent.value;
      var anchor, end := FindTrade(trades, inputs.anchorId.value), FindTrade(trades, inputs.quoteId.value);
      FoundById(trades, inputs.anchorId.value);
      FoundById(trades, inputs.quoteId.value);
      if SelectTrades(gap).Some? {
        assert Covers(gap, trades, anchor.value, end.value);
      }
      forall a, z | Covers(gap, trades, a, z) ensures SelectTrades(gap).Some? {
        assert anchor.value == a && end.value == z;
        assert BoundariesCovered(gap, trades, a, z);
      }
    }
  }

  // ---------------------------------------------------------------- all fetched trades

  /** The position has taken the price: it is not exited by it, and one more step at it changes nothing. */
  predicate HasTaken(q: Protected, price: real, at: int, cfg: ConfigData, policy: Option<Policy>) {
    price > 0.0 && !Touched(q.position, price) && Advance(q, price, at, cfg, policy) == q
  }

  function Since(trades: seq<Trade>, since: int, until: int): multiset<Trade> {
    if trades == [] then multiset{}
    else (if since <= trades[0].at < until then multiset{trades[0]} else multiset{}) + Since(trades[1..], since, until)
  }

  /** How many leading trades come at or before an instant. */
  function Leading(trades: seq<Trade>, at: int): (n: nat)
    ensures n <= |trades|
    ensures forall i :: 0 <= i < n ==> trades[i].at <= at
    ensures n < |trades| ==> trades[n].at > at
  {
    if trades == [] || trades[0].at > at then 0 else 1 + Leading(trades[1..], at)
  }

  lemma {:induction false} SinceCounts(trades: seq<Trade>, since: int, until: int, t: Trade)
    ensures Since(trades, since, until)[t] == (if since <= t.at < until then multiset(trades)[t] else 0)
    ensures Inside(trades, since, until)[t] == (if since < t.at < until then multiset(trades)[t] else 0)
    decreases |trades|
  {
    if trades != [] {
      assert trades == [trades[0]] + trades[1..];
      SinceCounts(trades[1..], since, until, t);
    }
  }

  lemma LeadingSplits(order: seq<Trade>, since: int)
    requires ByTime(order)
    ensures var n := Leading(order, since);
            (forall t :: t in order[..n] ==> t.at <= since) && (forall t :: t in order[n..] ==> t.at > since) && ByTime(order[n..])
  {
    var n := Leading(order, since);
    forall t | t in order[n..] ensures t.at > since {
      var k :| 0 <= k < |order[n..]| && order[n..][k] == t;
      assert k == 0 || order[n].at <= order[n + k].at;
    }
  }

  lemma OnlySince(trades: seq<Trade>, since: int, until: int, order: seq<Trade>)
    requires multiset(order) == Since(trades, since, until)
    ensures forall t :: t in order ==> t in trades && since <= t.at < until
  {
    forall t | t in order ensures t in trades && since <= t.at < until {
      SinceCounts(trades, since, until, t);
      assert t in multiset(order);
    }
  }

  /** In time order the trades of the first millisecond come first, and the rest lies strictly inside the gap. */
  lemma InsideAfterAnchor(trades: seq<Trade>, since: int, until: int, order: seq<Trade>)
    requires ByTime(order) && multiset(order) == Since(trades, since, until)
    ensures var n := Leading(order, since);
            && (forall t :: t in order[..n] ==> t in trades && t.at == since)
            && ByTime(order[n..]) && multiset(order[n..]) == Inside(trades, since, until)
  {
    hide ByTime, Since, Inside, Leading;
    var n := Leading(order, since);
    var first, rest := order[..n], order[n..];
    LeadingSplits(order, since);
    OnlySince(trades, since, until, order);
    assert order == first + rest;
    forall t | t in first ensures t in trades && t.at == since { assert t in order; }
    forall t: Trade ensures multiset(rest)[t] == Inside(trades, since, until)[t] {
      SinceCounts(trades, since, until, t);
      CountOfParts(first, rest, t);
      assert t in first <==> multiset(first)[t] > 0;
      assert t in rest <==> multiset(rest)[t] > 0;
    }
  }

  lemma CountOfParts(a: seq<Trade>, b: seq<Trade>, t: Trade)
    ensures multiset(a + b)[t] == multiset(a)[t] + multiset(b)[t]
  {
  }

  lemma {:induction false} TakenAgain(q: Protected, trades: seq<Trade>, price: real, at: int, cfg: ConfigData, policy: Option<Policy>)
    requires HasTaken(q, price, at, cfg, policy) && forall t :: t in trades ==> t.price == price && t.at == at
    ensures Priced(trades) && Follow(q, TicksOf(trades), cfg, policy) == Open(q)
    decreases |trades|
  {
    hide Advance, Touched;
    if trades != [] {
      assert trades[0] in trades && forall t :: t in trades[1..] ==> t in trades;
      TakenAgain(q, trades[1..], price, at, cfg, policy);
      assert TicksOf(trades)[1..] == TicksOf(trades[1..]);
    }
  }

  /**
   A quiet recovery from trades speaks for every trade fetched: from a position that has taken the last processed price,
   all trades from that millisecond on, in any order that respects their times, walk without exit to the recovered
   position. Whatever was traded in the quote's millisecond was traded at the quote.
   */
  lemma FetchedTradesInAnyOrder(gap: Gap, anchor: Trade, order: seq<Trade>, cfg: Config, policy: Option<Policy>)
    requires gap.quote.at >= gap.since && SelectTrades(gap).Some?
    requires anchor in gap.inputs.recent.value && Some(anchor.id) == gap.inputs.anchorId
    requires HasTaken(gap.start, anchor.price, gap.since, cfg, policy)
    requires ByTime(order) && multiset(order) == Since(gap.inputs.recent.value, gap.since, gap.quote.at)
    requires CausalRecovery(gap, cfg, policy).Done? && CausalRecovery(gap, cfg, policy).value.settlement.None?
    ensures Priced(order) && Follow(gap.start, TicksOf(order), cfg, policy) == Open(CausalRecovery(gap, cfg, policy).value.now)
    ensures anchor.at == gap.since && forall t :: t in gap.inputs.recent.value && t.at == gap.quote.at ==> t.price == gap.quote.price
  {
    hide CausalRecovery, Advance, Touched, Follow, HasTaken, Covers, Leading, ByTime, Since, Inside, TicksOf;
    var trades := gap.inputs.recent.value;
    BoundaryPrices(gap, anchor);
    InsideAfterAnchor(trades, gap.since, gap.quote.at, order);
    var n := Leading(order, gap.since);
    var first, rest := order[..n], order[n..];
    assert order == first + rest;
    TakenAgain(gap.start, first, anchor.price, gap.since, cfg, policy);
    PublicTradesInAnyOrder(gap, rest, cfg, policy);
    TicksOfParts(first, rest);
    FollowAppend(gap.start, TicksOf(first), TicksOf(rest), cfg, policy);
    OpenNow(gap.start, TicksOf(order), cfg, policy);
  }

  lemma TicksOfParts(a: seq<Trade>, b: seq<Trade>)
    requires Priced(a) && Priced(b)
    ensures Priced(a + b) && TicksOf(a + b) == TicksOf(a) + TicksOf(b)
  {
  }

  lemma OpenNow(q: Protected, ticks: seq<Tick>, cfg: ConfigData, policy: Option<Policy>)
    ensures Follow(q, ticks, cfg, policy).Open? ==> Follow(q, ticks, cfg, policy) == Open(Follow(q, ticks, cfg, policy).now)
  {
  }

  lemma BoundaryPrices(gap: Gap, anchor: Trade)
    requires SelectTrades(gap).Some? && anchor in gap.inputs.recent.value && Some(anchor.id) == gap.inputs.anchorId
    ensures var trades := gap.inputs.recent.value;
            && anchor.at == gap.since && Priced(trades)
            && (forall t :: t in trades && t.at == gap.since ==> t.price == anchor.price)
            && (forall t :: t in trades && t.at == gap.quote.at ==> t.price == gap.quote.price)
  {
    hide SelectTrades;
    SelectsExactly(gap);
    var trades := gap.inputs.recent.value;
    var a, end :| Covers(gap, trades, a, end);
    var i :| 0 <= i < |trades| && trades[i] == a;
    var j :| 0 <= j < |trades| && trades[j] == anchor;
    assert i == j;
  }

  /** A position that a price has just protected has taken that price, unless the price reaches a level it justified itself. */
  lemma JustProtected(q: Protected, price: Price, at: int, cfg: Config, policy: Option<Policy>)
    requires BeforeTake(q.position.basis, price) && !Touched(Advance(q, price, at, cfg, policy).position, price)
    ensures HasTaken(Advance(q, price, at, cfg, policy), price, at, cfg, policy)
  {
    hide Advance, Touched, BeforeTake;
    AdvanceAbsorbs(q, price, price, at, cfg, policy);
  }

  // ---------------------------------------------------------------- exactly when trades leave a doubt

  /** In some order of the trades inside their milliseconds, a walk up to one of them that sees this one once more exits. */
  ghost predicate MayExit(now: Protected, trades: seq<Trade>, cfg: ConfigData, policy: Option<Policy>) {
    exists order, k: nat :: ExitsAt(now, trades, order, k, cfg, policy)
  }

  predicate ExitsAt(now: Protected, trades: seq<Trade>, order: seq<Trade>, k: nat, cfg: ConfigData, policy: Option<Policy>) {
    && ByTime(order) && multiset(order) == multiset(trades) && k < |order| && Priced(order)
    && Follow(now, TicksOf(order[..k + 1]) + [Tick(order[k].price, order[k].at)], cfg, policy).Exited?
  }

  /** Prices of one quiet millisecond, in any number and order, leave the position open. */
  lemma {:induction false} InstantStaysOpen(q: Protected, best: Price, done: Price, ticks: seq<Tick>, at: int, cfg: Config, policy: Option<Policy>)
    requires BeforeTake(q.position.basis, best) && BeforeTake(q.position.basis, done) && Favours(q.position.basis.side, best, done)
    requires forall t :: t in ticks ==> t.at == at && Favours(q.position.basis.side, best, t.price) && BeforeTake(q.position.basis, t.price)
                                        && !Touched(Advance(q, best, at, cfg, policy).position, t.price)
    ensures Follow(Advance(q, done, at, cfg, policy), ticks, cfg, policy).Open?
    decreases |ticks|
  {
    hide Advance, BeforeTake, Touched;
    if ticks != [] {
      var x := ticks[0].price;
      assert ticks[0] in ticks && forall t :: t in ticks[1..] ==> t in ticks;
      var now, top := Advance(q, done, at, cfg, policy), Advance(q, best, at, cfg, policy);
      StepsAccumulate(q, done, best, at, cfg, policy);
      StepsAccumulate(q, done, x, at, cfg, policy);
      assert Join(q.position.basis.side, done, best) == best;
      AdvanceTightens(now, best, at, cfg, policy);
      if Touched(now.position, x) { TouchedMonotone(top.position, now.position, x); }
      InstantStaysOpen(q, best, Join(q.position.basis.side, done, x), ticks[1..], at, cfg, policy);
    }
  }

  /** Every tick is one of the group's prices at that time. */
  predicate TicksFrom(ticks: seq<Tick>, group: seq<Trade>, at: int) {
    forall t :: t in ticks ==> exists g :: g in group && t.price == g.price && t.at == at
  }

  /** The same from the position before the instant. */
  lemma QuietTicksStayOpen(q: Protected, group: seq<Trade>, ticks: seq<Tick>, cfg: Config, policy: Option<Policy>)
    requires group != [] && Priced(group) && !AnyTouched(q.position, group)
    requires !AnyTouched(AfterInstant(q, group, cfg, policy).position, group)
    requires TicksFrom(ticks, group, group[0].at)
    ensures Follow(q, ticks, cfg, policy).Open?
  {
    hide Advance, BeforeTake, Touched, AnyTouched;
    var best, at := BestPrice(q.position.basis.side, group), group[0].at;
    var peak :| peak in group && peak.price == best;
    NoneTouched(q.position, group, peak);
    forall t | t in ticks
      ensures t.at == at && Favours(q.position.basis.side, best, t.price) && BeforeTake(q.position.basis, t.price) && !Touched(q.position, t.price)
      ensures !Touched(Advance(q, best, at, cfg, policy).position, t.price)
    {
      var g :| g in group && t.price == g.price;
      NoneTouched(q.position, group, g);
      NoneTouched(Advance(q, best, at, cfg, policy).position, group, g);
    }
    if ticks != [] {
      assert ticks[0] in ticks && forall t :: t in ticks[1..] ==> t in ticks;
      InstantStaysOpen(q, best, ticks[0].price, ticks[1..], at, cfg, policy);
    }
  }

  // The quiet direction: no such walk exits.

  lemma {:induction false} QuietNeverExits(gap: Gap, now: Protected, trades: seq<Trade>, order: seq<Trade>, k: nat, cfg: Config, policy: Option<Policy>)
    requires Priced(trades) && ByTime(trades) && ByTime(order) && multiset(order) == multiset(trades) && k < |order|
    requires FromTrades(gap, now, trades, cfg, policy).Done? && FromTrades(gap, now, trades, cfg, policy).value.settlement.None?
    ensures Priced(order) && Follow(now, TicksOf(order[..k + 1]) + [Tick(order[k].price, order[k].at)], cfg, policy).Open?
    decreases |trades|
  {
    hide Advance, Touched, Settle, FromTrades, FirstOf, RestOf, TicksOf, ByTime, Follow;
    SameElements(order, trades);
    assert order[k] in order;
    PartsOf(trades);
    PartsOf(order);
    SameFirstInstant(trades, order);
    QuietInstant(gap, now, trades, cfg, policy);
    var group, first, rest := FirstOf(trades), FirstOf(order), RestOf(order);
    SameElements(first, group);
    SplitAt(order, k);
    if k < |first| {
      QuietTicksStayOpen(now, group, TicksOf(order[..k + 1]) + [Tick(order[k].price, order[k].at)], cfg, policy);
    } else {
      var next, j := AfterInstant(now, group, cfg, policy), k - |first|;
      QuietNeverExits(gap, next, RestOf(trades), rest, j, cfg, policy);
      GroupIsOrderFree(now, group, first, cfg, policy);
      FollowAppend(now, TicksOf(first), TicksOf(rest[..j + 1]) + [Tick(rest[j].price, rest[j].at)], cfg, policy);
    }
  }

  /** A walk up to a trade and that trade once more, inside the first instant or beyond it. */
  lemma SplitAt(order: seq<Trade>, k: nat)
    requires order != [] && ByTime(order) && Priced(order) && k < |order|
    ensures var first, rest, again := FirstOf(order), RestOf(order), Tick(order[k].price, order[k].at);
            && Priced(order[..k + 1]) && Priced(first) && Priced(rest)
            && (k < |first| ==> TicksFrom(TicksOf(order[..k + 1]) + [again], first, order[0].at))
            && (k >= |first| ==>
                  var j := k - |first|;
                  && j < |rest| && rest[j] == order[k] && Priced(rest[..j + 1])
                  && TicksOf(order[..k + 1]) + [again] == TicksOf(first) + (TicksOf(rest[..j + 1]) + [again]))
  {
    hide ByTime;
    PartsOf(order);
    TicksSplit(order);
    var first, rest, again := FirstOf(order), RestOf(order), Tick(order[k].price, order[k].at);
    if k < |first| {
      var walk := TicksOf(order[..k + 1]) + [again];
      forall t | t in walk ensures exists g :: g in first && t.price == g.price && t.at == order[0].at {
        var i :| 0 <= i < k + 2 && walk[i] == t;
        var g := order[if i <= k then i else k];
        assert g == first[if i <= k then i else k];
      }
    } else {
      var j := k - |first|;
      assert order[..k + 1] == first + rest[..j + 1];
      TicksOfParts(first, rest[..j + 1]);
    }
  }

  // The doubtful direction: there is such a walk.

  lemma {:induction false} DoubtMayExit(gap: Gap, now: Protected, trades: seq<Trade>, cfg: Config, policy: Option<Policy>)
    requires Priced(trades) && ByTime(trades)
    requires FromTrades(gap, now, trades, cfg, policy).Done? && FromTrades(gap, now, trades, cfg, policy).value.settlement.Some?
    ensures MayExit(now, trades, cfg, policy)
    decreases |trades|
  {
    hide Advance, Touched, Settle, FromTrades, FirstOf, RestOf, ByTime, Follow, AnyTouched, ExitsAt;
    DoubtStep(gap, now, trades, cfg, policy);
    PartsOf(trades);
    var group, rest := FirstOf(trades), RestOf(trades);
    if AnyTouched(now.position, group) {
      var j := TouchingIndex(now.position, trades);
      TouchedFirst(now, trades, j, cfg, policy);
    } else {
      var next := AfterInstant(now, group, cfg, policy);
      if AnyTouched(next.position, group) {
        var j := TouchingIndex(next.position, trades);
        BestFirst(now, trades, j, cfg, policy);
      } else {
        DoubtMayExit(gap, next, rest, cfg, policy);
        var order, k: nat :| ExitsAt(next, rest, order, k, cfg, policy);
        GroupIsOrderFree(now, group, group, cfg, policy);
        AfterQuietInstant(now, next, trades, order, k, cfg, policy);
      }
    }
  }

  lemma DoubtStep(gap: Gap, now: Protected, trades: seq<Trade>, cfg: ConfigData, policy: Option<Policy>)
    requires Priced(trades) && FromTrades(gap, now, trades, cfg, policy).Done? && FromTrades(gap, now, trades, cfg, policy).value.settlement.Some?
    ensures trades != [] && Priced(FirstOf(trades)) && FirstOf(trades) != []
    ensures AnyTouched(now.position, FirstOf(trades))
            || AnyTouched(AfterInstant(now, FirstOf(trades), cfg, policy).position, FirstOf(trades))
            || FromTrades(gap, AfterInstant(now, FirstOf(trades), cfg, policy), RestOf(trades), cfg, policy) == FromTrades(gap, now, trades, cfg, policy)
  {
    hide Advance, Touched, Settle;
  }

  lemma TouchingIndex(p: Position, trades: seq<Trade>) returns (j: nat)
    requires AnyTouched(p, FirstOf(trades))
    ensures j < |FirstOf(trades)| <= |trades| && FirstOf(trades)[j] == trades[j] && Touched(p, trades[j].price)
  {
    hide Touched;
    var t :| t in FirstOf(trades) && Touched(p, t.price);
    j :| 0 <= j < |FirstOf(trades)| && FirstOf(trades)[j] == t;
  }

  /** Bringing a trade of the first instant forward respects the times. */
  lemma BroughtForward(trades: seq<Trade>, j: nat)
    requires ByTime(trades) && Priced(trades) && j < |trades| && trades[j].at == trades[0].at
    ensures var order := [trades[j]] + trades[..j] + trades[j + 1..];
            ByTime(order) && multiset(order) == multiset(trades) && Priced(order) && order[0] == trades[j]
            && forall i :: 0 <= i < j ==> order[i + 1] == trades[i]
  {
    hide Priced, ByTime;
    var a, t, c := trades[..j], trades[j], trades[j + 1..];
    assert trades == a + [t] + c;
    ForwardByTime(a, t, c);
    PricedParts(a, t, c);
  }

  lemma ForwardByTime(a: seq<Trade>, t: Trade, c: seq<Trade>)
    requires ByTime(a + [t] + c) && (a + [t] + c)[0].at == t.at
    ensures ByTime([t] + a + c)
  {
    var trades, order := a + [t] + c, [t] + a + c;
    forall i | 0 <= i <= |a| ensures trades[i].at == t.at {
      assert trades[0].at <= trades[i].at && trades[i].at <= trades[|a|].at;
    }
    forall i | 0 <= i <= |a| ensures order[i].at == t.at {
      if i > 0 { assert order[i] == trades[i - 1]; }
    }
    forall i | |a| < i < |trades| ensures order[i] == trades[i] { }
  }

  lemma PricedParts(a: seq<Trade>, t: Trade, c: seq<Trade>)
    requires Priced(a + [t] + c)
    ensures Priced([t] + a + c)
  {
    assert t in a + [t] + c && (forall x :: x in a ==> x in a + [t] + c) && forall x :: x in c ==> x in a + [t] + c;
  }

  lemma TouchedFirst(now: Protected, trades: seq<Trade>, j: nat, cfg: ConfigData, policy: Option<Policy>)
    requires ByTime(trades) && Priced(trades) && j < |trades| && trades[j].at == trades[0].at && Touched(now.position, trades[j].price)
    ensures MayExit(now, trades, cfg, policy)
  {
    hide Touched, Advance, ByTime;
    BroughtForward(trades, j);
    var order := [trades[j]] + trades[..j] + trades[j + 1..];
    assert (TicksOf(order[..1]) + [Tick(order[0].price, order[0].at)])[0] == Tick(order[0].price, order[0].at);
    assert ExitsAt(now, trades, order, 0, cfg, policy);
  }

  lemma BestFirst(now: Protected, trades: seq<Trade>, j: nat, cfg: ConfigData, policy: Option<Policy>)
    requires ByTime(trades) && Priced(trades) && trades != [] && j < |FirstOf(trades)| && !AnyTouched(now.position, FirstOf(trades))
    requires Touched(AfterInstant(now, FirstOf(trades), cfg, policy).position, trades[j].price)
    ensures MayExit(now, trades, cfg, policy)
  {
    hide Touched, Advance, ByTime;
    PartsOf(trades);
    var group := FirstOf(trades);
    var best := BestPrice(now.position.basis.side, group);
    var m :| 0 <= m < |group| && group[m].price == best;
    assert trades[m] == group[m] && trades[j] == group[j] && group[m] in group && group[j] in group;
    BroughtForward(trades, j);
    var order := [trades[j]] + trades[..j] + trades[j + 1..];
    if m == j {
      ExitsAtSecond(now, trades, order, 0, cfg, policy);
    } else {
      var i := if m < j then m + 1 else m;
      assert order[i] == trades[m];
      BroughtForward(order, i);
      var again := [order[i]] + order[..i] + order[i + 1..];
      assert again[1] == trades[j];
      ExitsAtSecond(now, trades, again, 1, cfg, policy);
    }
  }

  /** The first trade does not exit, and the position after it is touched by the next trade taken or seen again. */
  lemma ExitsAtSecond(now: Protected, trades: seq<Trade>, order: seq<Trade>, k: nat, cfg: ConfigData, policy: Option<Policy>)
    requires ByTime(order) && Priced(order) && multiset(order) == multiset(trades) && k < |order| && k <= 1
    requires order[0].price > 0.0 && !Touched(now.position, order[0].price)
    requires Touched(Advance(now, order[0].price, order[0].at, cfg, policy).position, order[k].price)
    ensures MayExit(now, trades, cfg, policy)
  {
    hide Touched, Advance, ByTime;
    var walk := TicksOf(order[..k + 1]) + [Tick(order[k].price, order[k].at)];
    assert walk[0] == Tick(order[0].price, order[0].at) && walk[1..][0] == Tick(order[k].price, order[k].at);
    assert Follow(Advance(now, walk[0].price, walk[0].at, cfg, policy), walk[1..], cfg, policy).Exited?;
    assert ExitsAt(now, trades, order, k, cfg, policy);
  }

  lemma LaterRest(trades: seq<Trade>, order: seq<Trade>)
    requires trades != [] && ByTime(trades) && ByTime(order) && multiset(order) == multiset(RestOf(trades))
    ensures ByTime(FirstOf(trades) + order) && multiset(FirstOf(trades) + order) == multiset(trades)
  {
    hide RestOf, FirstOf;
    SameElements(order, RestOf(trades));
    PartsInOrder(trades);
    var first, whole := FirstOf(trades), FirstOf(trades) + order;
    assert trades == first + RestOf(trades);
    forall i, k | 0 <= i < k < |whole| ensures whole[i].at <= whole[k].at {
      if i < |first| { assert whole[i] in first; }
      if k >= |first| { assert whole[k] in order; } else { assert whole[k] in first; }
    }
  }

  lemma PartsInOrder(trades: seq<Trade>)
    requires trades != [] && ByTime(trades)
    ensures trades == FirstOf(trades) + RestOf(trades)
    ensures (forall t :: t in FirstOf(trades) ==> t.at == trades[0].at) && forall t :: t in RestOf(trades) ==> t.at >= trades[0].at
  {
  }

  lemma AfterQuietInstant(now: Protected, next: Protected, trades: seq<Trade>, order: seq<Trade>, k: nat, cfg: ConfigData, policy: Option<Policy>)
    requires ByTime(trades) && Priced(trades) && trades != [] && Priced(FirstOf(trades))
    requires Follow(now, TicksOf(FirstOf(trades)), cfg, policy) == Open(next) && ExitsAt(next, RestOf(trades), order, k, cfg, policy)
    ensures MayExit(now, trades, cfg, policy)
  {
    hide Follow, ByTime, RestOf, FirstOf;
    var first := FirstOf(trades);
    var whole, again := first + order, [Tick(order[k].price, order[k].at)];
    LaterRest(trades, order);
    assert whole[..|first| + k + 1] == first + order[..k + 1];
    TicksOfParts(first, order[..k + 1]);
    assert TicksOf(whole[..|first| + k + 1]) + again == TicksOf(first) + (TicksOf(order[..k + 1]) + again);
    FollowAppend(now, TicksOf(first), TicksOf(order[..k + 1]) + again, cfg, policy);
    TicksOfParts(first, order);
    assert ExitsAt(now, trades, whole, |first| + k, cfg, policy);
  }

  /**
   Recovery from trades leaves the position in doubt if and only if, in some order of the trades inside their
   milliseconds, a walk up to one of them that sees this one once more exits.
   */
  lemma DoubtsExactly(gap: Gap, now: Protected, trades: seq<Trade>, cfg: Config, policy: Option<Policy>)
    requires Priced(trades) && ByTime(trades)
    ensures FromTrades(gap, now, trades, cfg, policy).Done?
    ensures FromTrades(gap, now, trades, cfg, policy).value.settlement.Some? <==> MayExit(now, trades, cfg, policy)
  {
    hide FromTrades, Follow, Advance, ByTime, Priced;
    AlwaysAnswers(gap, now, trades, cfg, policy);
    if FromTrades(gap, now, trades, cfg, policy).value.settlement.Some? {
      DoubtMayExit(gap, now, trades, cfg, policy);
    } else {
      forall order, k: nat | ExitsAt(now, trades, order, k, cfg, policy) ensures false {
        QuietNeverExits(gap, now, trades, order, k, cfg, policy);
      }
    }
  }

  lemma {:induction false} AlwaysAnswers(gap: Gap, now: Protected, trades: seq<Trade>, cfg: ConfigData, policy: Option<Policy>)
    requires Priced(trades)
    ensures FromTrades(gap, now, trades, cfg, policy).Done?
    decreases |trades|
  {
    hide Advance, Touched, Settle, AnyTouched;
    if trades != [] {
      var n := RunLength(trades);
      assert Priced(trades[..n]) && Priced(trades[n..]);
      AlwaysAnswers(gap, AfterInstant(now, trades[..n], cfg, policy), trades[n..], cfg, policy);
    }
  }

  // ---------------------------------------------------------------- what is answered

  /** In doubt the position is closed at the quote, as it was before the millisecond in doubt; otherwise nothing is settled. */
  predicate AnswersFromTrades(gap: Gap, r: Recovered, cfg: ConfigData) {
    && r.evidence.fromAt == gap.since && r.evidence.toAt == gap.quote.at && r.evidence.source == RecentTrades
    && if r.settlement.None? then r.evidence.quality == BoundedTrades && r.evidence.ambiguity.None?
       else
         && r.settlement == Some(Settle(r.now.position, gap.quote.price, gap.quote.at, RecoveryExit, cfg))
         && r.evidence.quality == Ambiguous && r.evidence.ambiguity in {Some(SameTimestamp), Some(HistoricalTrigger)}
  }

  /** The millisecond in doubt: the walk over all trades before it leads to the position closed, and it is a trigger only if one single trade exits. */
  ghost predicate InDoubtAt(now: Protected, trades: seq<Trade>, n: nat, r: Recovered, cfg: ConfigData, policy: Option<Policy>) {
    && n < |trades| && Priced(trades) && Priced(trades[..n]) && (n > 0 ==> trades[n - 1].at < trades[n].at)
    && Follow(now, TicksOf(trades[..n]), cfg, policy) == Open(r.now)
    && (r.evidence.ambiguity == Some(HistoricalTrigger) <==>
          Touched(r.now.position, trades[n].price) && (n + 1 < |trades| ==> trades[n + 1].at > trades[n].at))
  }

  lemma {:induction false} DoubtIsLocated(gap: Gap, now: Protected, trades: seq<Trade>, cfg: Config, policy: Option<Policy>)
    requires Priced(trades) && ByTime(trades) && FromTrades(gap, now, trades, cfg, policy).Done?
    ensures var r := FromTrades(gap, now, trades, cfg, policy).value;
            AnswersFromTrades(gap, r, cfg) && (r.settlement.Some? ==> exists n: nat :: InDoubtAt(now, trades, n, r, cfg, policy))
    decreases |trades|
  {
    hide Advance, Touched, Settle, FirstOf, RestOf, ByTime, AnyTouched, InDoubtAt, BestPrice;
    if trades != [] {
      PartsOf(trades);
      DoubtAnswer(gap, now, trades, cfg, policy);
      var group, rest := FirstOf(trades), RestOf(trades);
      var next, r := AfterInstant(now, group, cfg, policy), FromTrades(gap, now, trades, cfg, policy).value;
      if AnyTouched(now.position, group) || AnyTouched(next.position, group) {
        DoubtAtOnce(now, trades, r, cfg, policy);
      } else {
        AlwaysAnswers(gap, next, rest, cfg, policy);
        DoubtIsLocated(gap, next, rest, cfg, policy);
        if r.settlement.Some? {
          GroupIsOrderFree(now, group, group, cfg, policy);
          var n: nat :| InDoubtAt(next, rest, n, r, cfg, policy);
          DoubtLater(now, next, trades, n, r, cfg, policy);
        }
      }
    }
  }

  lemma DoubtAnswer(gap: Gap, now: Protected, trades: seq<Trade>, cfg: ConfigData, policy: Option<Policy>)
    requires Priced(trades) && trades != []
    ensures FirstOf(trades) != [] && Priced(FirstOf(trades)) && Priced(RestOf(trades))
    ensures var group := FirstOf(trades);
            var next, all := AfterInstant(now, group, cfg, policy), FromTrades(gap, now, trades, cfg, policy);
            if AnyTouched(now.position, group) || AnyTouched(next.position, group)
            then all.Done? && all.value.now == now && AnswersFromTrades(gap, all.value, cfg) && all.value.settlement.Some?
                 && (all.value.evidence.ambiguity == Some(HistoricalTrigger) <==> AnyTouched(now.position, group) && |group| == 1)
            else all == FromTrades(gap, next, RestOf(trades), cfg, policy)
  {
    hide Advance, Touched, Settle, AnyTouched;
  }

  lemma DoubtAtOnce(now: Protected, trades: seq<Trade>, r: Recovered, cfg: ConfigData, policy: Option<Policy>)
    requires Priced(trades) && trades != [] && ByTime(trades) && r.now == now
    requires r.evidence.ambiguity == Some(HistoricalTrigger) <==> AnyTouched(now.position, FirstOf(trades)) && |FirstOf(trades)| == 1
    ensures InDoubtAt(now, trades, 0, r, cfg, policy)
  {
    hide Touched;
    var group := FirstOf(trades);
    if |group| == 1 { assert group == [trades[0]]; }
    if |trades| > 1 && trades[1].at > trades[0].at { assert group == [trades[0]]; }
  }

  lemma DoubtLater(now: Protected, next: Protected, trades: seq<Trade>, n: nat, r: Recovered, cfg: ConfigData, policy: Option<Policy>)
    requires Priced(trades) && trades != [] && ByTime(trades) && Priced(FirstOf(trades)) && InDoubtAt(next, RestOf(trades), n, r, cfg, policy)
    requires Follow(now, TicksOf(FirstOf(trades)), cfg, policy) == Open(next)
    ensures InDoubtAt(now, trades, |FirstOf(trades)| + n, r, cfg, policy)
  {
    hide Touched, Follow;
    var first, rest := FirstOf(trades), RestOf(trades);
    assert trades[..|first| + n] == first + rest[..n];
    TicksOfParts(first, rest[..n]);
    FollowAppend(now, TicksOf(first), TicksOf(rest[..n]), cfg, policy);
    StaysOpen(now, TicksOf(first), TicksOf(rest[..n]), cfg, policy);
    assert trades[|first| + n] == rest[n];
  }

  lemma {:induction false} StaysOpen(q: Protected, a: seq<Tick>, b: seq<Tick>, cfg: ConfigData, policy: Option<Policy>)
    requires Follow(q, a, cfg, policy).Open? && Follow(Follow(q, a, cfg, policy).now, b, cfg, policy).Open?
    ensures Follow(q, a + b, cfg, policy) == Follow(Follow(q, a, cfg, policy).now, b, cfg, policy)
    decreases |a|
  {
    hide Advance, Touched;
    if a == [] {
      assert a + b == b;
    } else {
      assert (a + b)[0] == a[0] && (a + b)[1..] == a[1..] + b;
      StaysOpen(Advance(q, a[0].price, a[0].at, cfg, policy), a[1..], b, cfg, policy);
    }
  }

  /** A trigger is an exit in every order: the walk over all trades before it and then that single trade exits. */
  lemma TriggerAlwaysExits(now: Protected, trades: seq<Trade>, n: nat, r: Recovered, cfg: Config, policy: Option<Policy>)
    requires InDoubtAt(now, trades, n, r, cfg, policy) && r.evidence.ambiguity == Some(HistoricalTrigger)
    ensures Follow(now, TicksOf(trades), cfg, policy).Exited?
  {
    hide Touched, Advance;
    var first, rest := trades[..n], trades[n..];
    assert trades == first + rest;
    TicksOfParts(first, rest);
    FollowAppend(now, TicksOf(first), TicksOf(rest), cfg, policy);
    assert TicksOf(rest)[0].price == trades[n].price;
  }

  /** A recovery from public trades, as a whole: the order in which the trades are listed does not matter. */
  lemma PublicTradesDoubtExactly(gap: Gap, trades: seq<Trade>, cfg: Config, policy: Option<Policy>)
    requires gap.quote.at >= gap.since && SelectTrades(gap).Some?
    requires multiset(trades) == Inside(gap.inputs.recent.value, gap.since, gap.quote.at)
    ensures CausalRecovery(gap, cfg, policy).Done? && AnswersFromTrades(gap, CausalRecovery(gap, cfg, policy).value, cfg)
    ensures CausalRecovery(gap, cfg, policy).value.settlement.Some? <==> MayExit(gap.start, trades, cfg, policy)
  {
    hide FromTrades, Follow, Inside, AnswersFromTrades;
    SelectedArePriced(gap);
    var selected := SelectTrades(gap).value;
    SelectionIsTheGap(gap.inputs.recent.value, gap.since, gap.quote.at);
    DoubtsExactly(gap, gap.start, selected, cfg, policy);
    DoubtIsLocated(gap, gap.start, selected, cfg, policy);
    assert forall order, k: nat :: ExitsAt(gap.start, selected, order, k, cfg, policy) <==> ExitsAt(gap.start, trades, order, k, cfg, policy);
  }

  // ---------------------------------------------------------------- a doubt without an exit

  /** Entry at 100 with a fee of 10 and no other costs: the break-even level is 110, and due at 110. */
  function AtBreakEven(): Protected {
    Protected(Position(Basis("BTC", Long, 0, 100.0, 1.0, 10.0, 0.0, 200.0, None, None, false), false, 100.0, 90.0, None), None)
  }

  function AtOneRisk(): Config {
    Config(10.0, ExitParams(0.0, 1.0, 0.0), Costs(0.0, 0.0), 60000)
  }

  /** A single trade at the very level that its price justifies leaves a doubt, although the walk over it does not exit. */
  lemma OwnLevelIsADoubt(gap: Gap, t: Trade)
    requires t.price == 110.0
    ensures var r := FromTrades(gap, AtBreakEven(), [t], AtOneRisk(), None); r.Done? && r.value.settlement.Some?
    ensures Follow(AtBreakEven(), [Tick(t.price, t.at)], AtOneRisk(), None).Open?
  {
    var q, cfg := AtBreakEven(), AtOneRisk();
    var price: Price := 110.0;
    assert BreakEven(q.position.basis, cfg) == 110.0 && InitialRisk(q.position.basis, cfg) == 10.0;
    assert StrategyStop(q.position.basis, cfg, cfg.exit, price) == Some(110.0);
    var after := Advance(q, price, t.at, cfg, None);
    assert after.position.stop == 110.0 && Touched(after.position, price) && !Touched(q.position, price);
    assert [t][..1] == [t] && t in [t];
    assert AnyTouched(after.position, [t]);
  }
}
