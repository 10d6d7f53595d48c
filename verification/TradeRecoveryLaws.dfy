/**
 Recovery from public trades: the order of trades inside one millisecond is unknown, and a result
 without a settlement is the same for every order.
 */
module TradeRecoveryLaws {
  import opened Common
  import opened Engine
  import opened EngineLaws
  import opened Recovery

  predicate ByTime(trades: seq<Trade>) {
    forall i, j :: 0 <= i < j < |trades| ==> trades[i].at <= trades[j].at
  }

  function TicksOf(trades: seq<Trade>): seq<Tick>
    requires Priced(trades)
  {
    seq(|trades|, i requires 0 <= i < |trades| => (assert trades[i] in trades; Tick(trades[i].price, trades[i].at)))
  }

  // ---------------------------------------------------------------- the selection

  lemma InsertKeepsOrder(t: Trade, sorted: seq<Trade>)
    requires ByTime(sorted)
    ensures ByTime(InsertByTime(t, sorted))
  {
    if sorted == [] || t.at <= sorted[0].at {
    } else {
      InsertKeepsOrder(t, sorted[1..]);
      var rest := InsertByTime(t, sorted[1..]);
      InsertElements(t, sorted[1..]);
      forall i | 0 <= i < |rest| ensures sorted[0].at <= rest[i].at {
        assert rest[i] in rest;
      }
    }
  }

  function Inside(trades: seq<Trade>, since: int, until: int): multiset<Trade> {
    if trades == [] then multiset{}
    else (if since < trades[0].at < until then multiset{trades[0]} else multiset{}) + Inside(trades[1..], since, until)
  }

  /** The selection is exactly the trades strictly between the boundaries, ordered by time. */
  lemma {:induction false} SelectionIsTheGap(trades: seq<Trade>, since: int, until: int)
    ensures ByTime(InsideByTime(trades, since, until))
    ensures multiset(InsideByTime(trades, since, until)) == Inside(trades, since, until)
  {
    hide ByTime, InsertByTime;
    if trades != [] {
      SelectionIsTheGap(trades[1..], since, until);
      var rest := InsideByTime(trades[1..], since, until);
      InsertKeepsOrder(trades[0], rest);
      InsertElements(trades[0], rest);
    } else {
      NothingByTime();
    }
  }

  lemma NothingByTime()
    ensures ByTime([])
  {
  }

  lemma {:induction false} SelectedFrom(trades: seq<Trade>, since: int, until: int, t: Trade)
    ensures t in InsideByTime(trades, since, until) <==> t in trades && since < t.at < until
  {
    hide InsertByTime;
    if trades != [] {
      SelectedFrom(trades[1..], since, until, t);
      InsertElements(trades[0], InsideByTime(trades[1..], since, until));
    }
  }

  // ---------------------------------------------------------------- one instant

  lemma FollowAppend(q: Protected, a: seq<Tick>, b: seq<Tick>, cfg: ConfigData, policy: Option<Policy>)
    ensures Follow(q, a, cfg, policy).Open? ==>
              Follow(q, a + b, cfg, policy).Open? == Follow(Follow(q, a, cfg, policy).now, b, cfg, policy).Open?
    ensures Follow(q, a, cfg, policy).Open? && Follow(q, a + b, cfg, policy).Open? ==>
              Follow(q, a + b, cfg, policy).now == Follow(Follow(q, a, cfg, policy).now, b, cfg, policy).now
    decreases |a|
  {
    if a == [] {
      assert a + b == b;
    } else if !Touched(q.position, a[0].price) {
      FollowAppend(Advance(q, a[0].price, a[0].at, cfg, policy), a[1..], b, cfg, policy);
      assert (a + b)[1..] == a[1..] + b;
    }
  }

  /** Steps at one instant accumulate to a single step with the best of their prices. */
  lemma StepsAccumulate(q: Protected, x: Price, y: Price, at: int, cfg: Config, policy: Option<Policy>)
    requires BeforeTake(q.position.basis, x) && BeforeTake(q.position.basis, y)
    ensures Advance(Advance(q, x, at, cfg, policy), y, at, cfg, policy) ==
            Advance(q, Join(q.position.basis.side, x, y), at, cfg, policy)
  {
    hide Advance, BeforeTake;
    if Favours(q.position.basis.side, x, y) { AdvanceAbsorbs(q, x, y, at, cfg, policy); }
    else { AdvanceAbsorbs(q, y, x, at, cfg, policy); }
  }

  lemma NoneTouched(p: Position, trades: seq<Trade>, t: Trade)
    requires !AnyTouched(p, trades) && t in trades
    ensures !Touched(p, t.price) && BeforeTake(p.basis, t.price)
  {
  }

  /**
   After some trades of the instant the position stands at their best price; if neither the position
   before the instant nor the one after its best price is touched, no order of the rest can exit.
   */
  lemma {:induction false} InstantIsOrderFree(q: Protected, best: Price, done: Price, rest: seq<Trade>, at: int, cfg: Config, policy: Option<Policy>)
    requires Priced(rest)
    requires BeforeTake(q.position.basis, best) && BeforeTake(q.position.basis, done)
    requires Favours(q.position.basis.side, best, done)
    requires forall t :: t in rest ==> t.at == at && Favours(q.position.basis.side, best, t.price)
    requires done == best || exists t :: t in rest && t.price == best
    requires !AnyTouched(Advance(q, best, at, cfg, policy).position, rest)
    ensures Follow(Advance(q, done, at, cfg, policy), TicksOf(rest), cfg, policy) == Open(Advance(q, best, at, cfg, policy))
    decreases |rest|
  {
    hide Advance, BeforeTake;
    var side := q.position.basis.side;
    var now := Advance(q, done, at, cfg, policy);
    if rest != [] {
      var x: Price := rest[0].price;
      assert rest[0] in rest;
      var done' := Join(side, done, x);
      AdvanceTightens(q, best, at, cfg, policy);
      NoneTouched(Advance(q, best, at, cfg, policy).position, rest, rest[0]);
      StepsAccumulate(q, done, best, at, cfg, policy);
      StepsAccumulate(q, done, x, at, cfg, policy);
      AdvanceTightens(now, best, at, cfg, policy);
      if Touched(now.position, x) {
        TouchedMonotone(Advance(q, best, at, cfg, policy).position, now.position, x);
        assert false;
      }
      if done' != best {
        var t :| t in rest && t.price == best;
        assert t != rest[0];
        assert t in rest[1..];
      }
      InstantIsOrderFree(q, best, done', rest[1..], at, cfg, policy);
      assert TicksOf(rest)[1..] == TicksOf(rest[1..]);
      assert TicksOf(rest)[0] == Tick(x, at);
    }
  }

  lemma GroupIsOrderFree(q: Protected, group: seq<Trade>, order: seq<Trade>, cfg: Config, policy: Option<Policy>)
    requires group != [] && Priced(group) && multiset(order) == multiset(group)
    requires forall t :: t in group ==> t.at == group[0].at
    requires !AnyTouched(q.position, group)
    requires !AnyTouched(Advance(q, BestPrice(q.position.basis.side, group), group[0].at, cfg, policy).position, group)
    ensures Priced(order)
    ensures Follow(q, TicksOf(order), cfg, policy) ==
            Open(Advance(q, BestPrice(q.position.basis.side, group), group[0].at, cfg, policy))
  {
    hide Advance, BeforeTake;
    var side := q.position.basis.side;
    var at := group[0].at;
    var best := BestPrice(side, group);
    SameElements(order, group);
    var x: Price := order[0].price;
    assert order[0] in group;
    var rest := order[1..];
    forall t | t in rest ensures t in group { assert t in order; }
    var top :| top in group && top.price == best;
    assert order == [order[0]] + rest;
    NoneTouched(q.position, group, top);
    NoneTouched(q.position, group, order[0]);
    InstantIsOrderFree(q, best, x, rest, at, cfg, policy);
    assert TicksOf(order)[1..] == TicksOf(rest);
    assert TicksOf(order)[0] == Tick(x, at);
  }

  lemma SameElements<T>(a: seq<T>, b: seq<T>)
    requires multiset(a) == multiset(b)
    ensures |a| == |b|
    ensures forall x :: x in a <==> x in b
  {
    assert |a| == |multiset(a)|;
    forall x ensures x in a <==> x in b {
      assert x in a <==> x in multiset(a);
    }
  }

  // ---------------------------------------------------------------- the whole gap

  function FirstOf(trades: seq<Trade>): seq<Trade> { trades[..RunLength(trades)] }

  function RestOf(trades: seq<Trade>): seq<Trade> { trades[RunLength(trades)..] }

  /** In time order, the first instant's trades are a prefix that the elements alone determine. */
  lemma FirstInstantCount(trades: seq<Trade>, t: Trade)
    requires trades != [] && ByTime(trades)
    ensures multiset(FirstOf(trades))[t] == if t.at == trades[0].at then multiset(trades)[t] else 0
    ensures multiset(RestOf(trades))[t] == if t.at == trades[0].at then 0 else multiset(trades)[t]
  {
    var n := RunLength(trades);
    var tail := RestOf(trades);
    assert trades == FirstOf(trades) + tail;
    forall i | 0 <= i < |tail| ensures tail[i].at != trades[0].at {
      assert trades[n].at <= trades[n + i].at && trades[0].at <= trades[n].at;
    }
  }

  lemma SameFirstInstant(a: seq<Trade>, b: seq<Trade>)
    requires a != [] && ByTime(a) && ByTime(b) && multiset(a) == multiset(b)
    ensures b != []
    ensures a[0].at == b[0].at
    ensures multiset(FirstOf(a)) == multiset(FirstOf(b))
    ensures multiset(RestOf(a)) == multiset(RestOf(b))
  {
    hide FirstOf, RestOf;
    SameElements(a, b);
    assert a[0] in b && b[0] in a;
    forall t: Trade ensures multiset(FirstOf(a))[t] == multiset(FirstOf(b))[t] {
      FirstInstantCount(a, t);
      FirstInstantCount(b, t);
    }
    forall t: Trade ensures multiset(RestOf(a))[t] == multiset(RestOf(b))[t] {
      FirstInstantCount(a, t);
      FirstInstantCount(b, t);
    }
  }

  function AfterInstant(now: Protected, group: seq<Trade>, cfg: ConfigData, policy: Option<Policy>): Protected
    requires group != [] && Priced(group)
  {
    Advance(now, BestPrice(now.position.basis.side, group), group[0].at, cfg, policy)
  }

  lemma QuietInstant(gap: Gap, now: Protected, trades: seq<Trade>, cfg: ConfigData, policy: Option<Policy>)
    requires Priced(trades) && trades != []
    requires FromTrades(gap, now, trades, cfg, policy).Done? && FromTrades(gap, now, trades, cfg, policy).value.settlement.None?
    ensures var next := AfterInstant(now, FirstOf(trades), cfg, policy);
            && !AnyTouched(now.position, FirstOf(trades)) && !AnyTouched(next.position, FirstOf(trades))
            && FromTrades(gap, next, RestOf(trades), cfg, policy) == FromTrades(gap, now, trades, cfg, policy)
  {
    hide Advance, BeforeTake, Touched, Settle;
  }

  /**
   When recovery from public trades finds no exit, taking the same trades one at a time, in any order
   that respects their times, finds none either and ends in exactly the same position and policy state.
   */
  lemma {:induction false} TradesInAnyOrder(gap: Gap, now: Protected, trades: seq<Trade>, order: seq<Trade>, cfg: Config, policy: Option<Policy>)
    requires Priced(trades) && ByTime(trades) && ByTime(order) && multiset(order) == multiset(trades)
    requires FromTrades(gap, now, trades, cfg, policy).Done? && FromTrades(gap, now, trades, cfg, policy).value.settlement.None?
    ensures Priced(order)
    ensures Follow(now, TicksOf(order), cfg, policy) == Open(FromTrades(gap, now, trades, cfg, policy).value.now)
    decreases |trades|
  {
    hide Advance, BeforeTake, Touched, Settle, FromTrades, FirstOf, RestOf, TicksOf, ByTime;
    SameElements(order, trades);
    if trades != [] {
      PartsOf(trades);
      PartsOf(order);
      SameFirstInstant(trades, order);
      QuietInstant(gap, now, trades, cfg, policy);
      var group, first := FirstOf(trades), FirstOf(order);
      GroupIsOrderFree(now, group, first, cfg, policy);
      var next := AfterInstant(now, group, cfg, policy);
      var best := BestPrice(now.position.basis.side, group);
      AdvanceTightens(now, best, group[0].at, cfg, policy);
      TradesInAnyOrder(gap, next, RestOf(trades), RestOf(order), cfg, policy);
      FollowAppend(now, TicksOf(first), TicksOf(RestOf(order)), cfg, policy);
      TicksSplit(order);
    } else {
      assert trades == [] == order;
      NoTrades(gap, now, cfg, policy);
    }
  }

  lemma TicksSplit(trades: seq<Trade>)
    requires Priced(trades)
    ensures Priced(FirstOf(trades)) && Priced(RestOf(trades))
    ensures TicksOf(trades) == TicksOf(FirstOf(trades)) + TicksOf(RestOf(trades))
  {
    assert trades == FirstOf(trades) + RestOf(trades);
  }

  lemma PartsOf(trades: seq<Trade>)
    requires trades != [] && ByTime(trades) && Priced(trades)
    ensures FirstOf(trades) != [] && FirstOf(trades)[0] == trades[0] && |RestOf(trades)| < |trades|
    ensures Priced(FirstOf(trades)) && Priced(RestOf(trades)) && ByTime(RestOf(trades))
    ensures forall t :: t in FirstOf(trades) ==> t.at == trades[0].at
  {
    assert trades == FirstOf(trades) + RestOf(trades);
  }

  lemma NoTrades(gap: Gap, now: Protected, cfg: ConfigData, policy: Option<Policy>)
    ensures FromTrades(gap, now, [], cfg, policy).Done? && FromTrades(gap, now, [], cfg, policy).value.now == now
    ensures Follow(now, TicksOf([]), cfg, policy) == Open(now)
  {
  }

  /** The recovery from selected public trades, as a whole, is independent of the order inside a millisecond. */
  lemma PublicTradesInAnyOrder(gap: Gap, order: seq<Trade>, cfg: Config, policy: Option<Policy>)
    requires gap.quote.at >= gap.since && SelectTrades(gap).Some?
    requires ByTime(order) && multiset(order) == Inside(gap.inputs.recent.value, gap.since, gap.quote.at)
    requires CausalRecovery(gap, cfg, policy).Done? && CausalRecovery(gap, cfg, policy).value.settlement.None?
    ensures Priced(order)
    ensures Follow(gap.start, TicksOf(order), cfg, policy) == Open(CausalRecovery(gap, cfg, policy).value.now)
  {
    var trades := gap.inputs.recent.value;
    SelectionIsTheGap(trades, gap.since, gap.quote.at);
    SelectedArePriced(gap);
    forall t | t in SelectTrades(gap).value ensures t in trades { SelectedFrom(trades, gap.since, gap.quote.at, t); }
    TradesInAnyOrder(gap, gap.start, SelectTrades(gap).value, order, cfg, policy);
  }
}
