/** Exactly when minute recovery speaks for the loop, whatever path the prices took: what policy and holding limit may not do. */
module RecoveryExactness {
  import opened Common
  import opened Engine
  import opened EngineLaws
  import opened Recovery
  import opened MinuteRecoveryLaws
  import opened RecoveryTheorems
  import opened TickProcessor
  import opened TickProcessorLaws
  import opened BatchLaws
  import opened RuntimeTheorems

  // ---------------------------------------------------------------- soundness of a gap's times

  predicate Fitting(gap: Gap, path: Path, since: int, until: int) {
    && gap.since == since && gap.quote.at == until && gap.start.position.basis.openedAt <= since
    && PeaksBeforeTake(gap.start) && FitsFrom(gap, path, MinuteOf(since))
  }

  predicate Quiet(r: Result) {
    r.Done? && r.value.settlement.None?
  }

  /** The loop takes all of these ticks without closing the position and ends at the recovered levels. */
  predicate Kept(live: Live, events: seq<Event>, env: Env, r: Result) {
    r.Done? && !Ended(Fold(live, events, env)) && SameLevels(r.value.now.position, Fold(live, events, env).live.now.position)
  }

  /**
   Whenever recovery of a gap with these times does not exit, for a position with this holding deadline, it speaks for
   the loop: had the loop received any path inside the bars, on the position's stream and without a signal, it would
   have kept the position and hold the recovered levels.
   */
  ghost predicate Sound(strict: bool, since: int, until: int, policy: Option<Policy>, deadline: Option<int>) {
    forall gap: Gap, path: Path, live: Live, events: seq<Event>, env: Env ::
      Fitting(gap, path, since, until) && gap.inputs.strict == strict && SelectTrades(gap).None? && env.policy == policy
      && HoldingDeadline(gap.start.position.basis) == deadline && Missed(gap, Ticks(path, MinuteOf(since), until), live, events, env)
      && Quiet(CausalRecovery(gap, env.cfg, policy))
      ==> Kept(live, events, env, CausalRecovery(gap, env.cfg, policy))
  }

  /** A position that is still open then can have this deadline. */
  predicate Possible(since: int, deadline: Option<int>) {
    deadline.Some? ==> since < deadline.value <= since + MAX_HOLDING
  }

  /** The deadline does not fall before the end of the gap. */
  predicate Outlasts(deadline: Option<int>, until: int) {
    deadline.None? || deadline.value >= until
  }

  // ---------------------------------------------------------------- a gap of flat bars and at most one peak

  /** The first whole price at which the policy moves the stop to break-even. */
  function Peak(policy: Policy): (peak: Top)
    ensures peak > 100 && peak as real - 100.0 >= 2.0 * policy.breakEvenR
  {
    var move := 2.0 * policy.breakEvenR;
    100 + move.Floor + if move == move.Floor as real then 0 else 1
  }

  function PlainConfig(): Config {
    Config(2.0, ExitParams(0.0, 0.0, 0.0), Costs(0.0, 0.0), MINUTE)
  }

  type Top = n: int | n >= 100 witness 100

  /** What a gap of this kind is made of: its times, the peak traded at one instant, and the deadline of the position. */
  datatype Plan = Plan(since: int, until: int, top: Top, at: int, deadline: Option<int>, strict: bool)

  predicate Planned(plan: Plan) {
    plan.since <= plan.at < plan.until && Possible(plan.since, plan.deadline)
  }

  /** Opened when the gap begins, or as late as the deadline allows. */
  function OpenedAt(plan: Plan): int {
    if plan.deadline.Some? && plan.deadline.value < plan.since + MIN_HOLDING then plan.deadline.value - MIN_HOLDING else plan.since
  }

  /** Whole prices from one up to the take price, which is one above the peak. */
  function PlanRules(plan: Plan): Rules {
    Rules(1.0, 1.0, (plan.top + 1) as real)
  }

  function PlainBasis(plan: Plan): Basis
    requires Possible(plan.since, plan.deadline)
  {
    GridValue(100.0, 100, 1.0);
    GridValue((plan.top + 1) as real, plan.top + 1, 1.0);
    Basis("BTC", Long, OpenedAt(plan), 100.0, 1.0, 0.0, 0.0, (plan.top + 1) as real, Some(PlanRules(plan)),
          if plan.deadline.Some? then Some(ExitPlan(Some(plan.deadline.value - OpenedAt(plan)), None)) else None, false)
  }

  function Bar(plan: Plan, time: int): Candle {
    Candle("BTC", 100.0, if time == MinuteOf(plan.at) then plan.top as real else 100.0, 100.0, 100.0)
  }

  function Start(plan: Plan): Protected
    requires Possible(plan.since, plan.deadline)
  {
    Protected(Position(PlainBasis(plan), false, 100.0, 98.0, None), None)
  }

  function PlanGap(plan: Plan): Gap
    requires Possible(plan.since, plan.deadline)
  {
    Gap(Start(plan), plan.since, Quote("BTC", 100.0, plan.until),
        Inputs(map t | MinuteOf(plan.since) <= t < plan.until && t % MINUTE == 0 :: Bar(plan, t), None, None, None, None, plan.strict))
  }

  /** The peak at its instant; in every other minute of the gap one flat tick. */
  function PlanMinute(plan: Plan, minute: int): seq<Tick> {
    if minute == MinuteOf(plan.at) then [Tick(plan.top as real, plan.at)]
    else if plan.since <= minute && minute + MINUTE <= plan.until then [Tick(100.0, minute)]
    else []
  }

  function PlanPath(plan: Plan): Path {
    (minute: int) => PlanMinute(plan, minute)
  }

  function PlanTicks(plan: Plan): seq<Tick> {
    Ticks(PlanPath(plan), MinuteOf(plan.since), plan.until)
  }

  function PlanEvents(ticks: seq<Tick>): seq<Event> {
    seq(|ticks|, i requires 0 <= i < |ticks| => Event(i + 1, ticks[i].price, ticks[i].at, ticks[i].at, 1))
  }

  function PlanLive(plan: Plan): Live
    requires Possible(plan.since, plan.deadline)
  {
    Live(Start(plan), plan.since, Some(1), 100.0, Some(0), None)
  }

  function PlanEnv(policy: Option<Policy>, events: seq<Event>): Env {
    Env(PlainConfig(), policy, None, (now: Protected, since: int, e: Event, anchor: Option<int>) => Incomplete, false, None, events)
  }

  lemma {:induction false} PlanFits(plan: Plan, time: int)
    requires Planned(plan) && MinuteOf(plan.since) <= time && time % MINUTE == 0
    ensures FitsFrom(PlanGap(plan), PlanPath(plan), time)
    decreases plan.until - time
  {
    if time < plan.until {
      var gap, ticks := PlanGap(plan), PlanPath(plan)(time);
      if Complete(gap, time) { assert ticks[0].price == Favourable(Long, Bar(plan, time)); }
      PlanFits(plan, time + MINUTE);
    }
  }

  lemma {:induction false} BarsPresent(plan: Plan, time: int, last: int)
    requires Planned(plan) && MinuteOf(plan.since) <= time && time % MINUTE == 0 && last < plan.until
    ensures MinutesPresent(PlanGap(plan).inputs.minutes, time, last)
    decreases last - time
  {
    if time <= last {
      assert time in PlanGap(plan).inputs.minutes && PlanGap(plan).inputs.minutes[time] == Bar(plan, time);
      BarsPresent(plan, time + MINUTE, last);
    }
  }

  lemma PlanIsMissed(plan: Plan, policy: Option<Policy>)
    requires Planned(plan)
    ensures var gap, events := PlanGap(plan), PlanEvents(PlanTicks(plan));
            && Fitting(gap, PlanPath(plan), plan.since, plan.until) && gap.inputs.strict == plan.strict && SelectTrades(gap).None?
            && HoldingDeadline(gap.start.position.basis) == plan.deadline
            && Missed(gap, PlanTicks(plan), PlanLive(plan), events, PlanEnv(policy, events))
    ensures forall e :: e in PlanEvents(PlanTicks(plan)) ==> plan.since <= e.observedAt < plan.until
  {
    hide FitsFrom, MinutesPresent, Ticks;
    var gap := PlanGap(plan);
    PlanFits(plan, MinuteOf(plan.since));
    BarsPresent(plan, MinuteOf(plan.since), MinuteOf(plan.until - 1));
    TicksInGap(gap, PlanPath(plan), MinuteOf(plan.since));
    AsEvents(PlanTicks(plan), plan.since, plan.until);
  }

  lemma AsEvents(ticks: seq<Tick>, since: int, until: int)
    requires AllWithin(ticks, since, until)
    ensures TicksIn(PlanEvents(ticks)) == ticks
    ensures forall e :: e in PlanEvents(ticks) ==> e.stream == 1 && since <= e.observedAt < until
  {
  }

  // ---------------------------------------------------------------- recovery of such a gap moves nothing

  /** What recovery makes of the position: the first stop, no trailing level, and at most a flat tracked peak. */
  predicate StillFirst(q: Protected, plan: Plan, policy: Option<Policy>)
    requires Possible(plan.since, plan.deadline)
  {
    && q.position.basis == PlainBasis(plan) && q.position.stop == 98.0 && q.position.trailing.None? && !q.position.exitPinned
    && (q.state.Some? ==> policy == Some(q.state.value.policy) && q.state.value.best == 100.0)
  }

  lemma NoStrategyLevels(b: Basis, best: Price)
    ensures StrategyStop(b, PlainConfig(), PlainConfig().exit, best).None? && StrategyTrailing(b, PlainConfig(), PlainConfig().exit, best).None?
  {
  }

  lemma FlatBarStep(q: Protected, plan: Plan, policy: Option<Policy>, at: int, during: Option<Policy>)
    requires Possible(plan.since, plan.deadline) && StillFirst(q, plan, policy) && (during.Some? ==> during == policy)
    ensures StillFirst(Advance(q, 100.0, at, PlainConfig(), during), plan, policy)
  {
    hide StrategyStop, StrategyTrailing;
    AdvanceJoinsLevels(q, 100.0, at, PlainConfig(), during);
    NoStrategyLevels(PlainBasis(plan), Join(Long, q.position.best, 100.0));
  }

  lemma PeakBarStep(q: Protected, plan: Plan, policy: Option<Policy>, at: int)
    requires Possible(plan.since, plan.deadline) && StillFirst(q, plan, policy)
    ensures StillFirst(Advance(q, plan.top as real, at, PlainConfig(), None), plan, policy)
  {
    hide StrategyStop, StrategyTrailing;
    AdvanceJoinsLevels(q, plan.top as real, at, PlainConfig(), None);
    NoStrategyLevels(q.position.basis, Join(Long, q.position.best, plan.top as real));
  }

  lemma NoBarExit(q: Protected, plan: Plan, policy: Option<Policy>, time: int)
    requires Possible(plan.since, plan.deadline) && StillFirst(q, plan, policy)
    ensures CandleExit(q.position, Bar(plan, time), time, PlainConfig()).None? && !Touched(q.position, 100.0)
    ensures Unpinned(q.position) == q.position && ValidCandle(Bar(plan, time))
  {
    hide Settle;
  }

  /** There is no peak, or the policy is off when its bar begins. */
  predicate Unread(plan: Plan, policy: Option<Policy>) {
    plan.top == 100 || policy.None? || MinuteOf(plan.at) < policy.value.enabledAt
  }

  lemma BarStep(q: Protected, plan: Plan, policy: Option<Policy>, time: int)
    requires Possible(plan.since, plan.deadline) && StillFirst(q, plan, policy) && Unread(plan, policy)
    ensures StillFirst(Advance(q, Bar(plan, time).high, time + MINUTE, PlainConfig(), PolicyThroughout(policy, time)), plan, policy)
  {
    hide Advance;
    if time == MinuteOf(plan.at) && plan.top != 100 { PeakBarStep(q, plan, policy, time + MINUTE); }
    else { FlatBarStep(q, plan, policy, time + MINUTE, PolicyThroughout(policy, time)); }
  }

  lemma SameLevelsHere(q: Protected, u: Protected, plan: Plan, policy: Option<Policy>)
    requires Possible(plan.since, plan.deadline) && StillFirst(q, plan, policy) && StillFirst(u, plan, policy)
    ensures !LevelsChanged(u.position, q.position)
  {
  }

  /** A closed bar that exits nothing is one step of strict recovery. */
  lemma UnrollMinute(gap: Gap, q: Protected, time: int, quality: Quality, cfg: ConfigData, policy: Option<Policy>)
    requires time + MINUTE <= gap.quote.at && time in gap.inputs.minutes
    requires gap.inputs.minutes[time].symbol == q.position.basis.symbol && ValidCandle(gap.inputs.minutes[time])
    requires CandleExit(Unpinned(q.position), gap.inputs.minutes[time], time, cfg).None?
    ensures var c, during, side := gap.inputs.minutes[time], PolicyThroughout(policy, time), q.position.basis.side;
            var u := Advance(q, Favourable(side, c), time + MINUTE, cfg, during);
            && (time < gap.since && !LevelsChanged(u.position, q.position) ==>
                  FromMinutes(gap, q, time, quality, cfg, policy) == FromMinutes(gap, q, time + MINUTE, BoundedMinutes, cfg, policy))
            && (time >= gap.since && !Touched(u.position, Adverse(side, c)) ==>
                  FromMinutes(gap, q, time, quality, cfg, policy)
                  == FromMinutes(gap, Advance(u, c.close, time + MINUTE, cfg, during), time + MINUTE, quality, cfg, policy))
  {
    hide Advance, CandleExit, Settle, Touched, LevelsChanged;
  }

  lemma BarOfGap(plan: Plan, time: int)
    requires Possible(plan.since, plan.deadline) && MinuteOf(plan.since) <= time < plan.until && time % MINUTE == 0
    ensures var gap, c := PlanGap(plan), Bar(plan, time);
            && time in gap.inputs.minutes && gap.inputs.minutes[time] == c && gap.quote.at == plan.until && gap.since == plan.since
            && c.symbol == "BTC" && c.low == 100.0 == c.close
  {
  }

  /** One bar of the gap: strict recovery goes on, still at the first stop. */
  lemma StrictBar(plan: Plan, q: Protected, policy: Option<Policy>, time: int, quality: Quality) returns (next: Protected, quality': Quality)
    requires Planned(plan) && Unread(plan, policy) && StillFirst(q, plan, policy) && plan.until % MINUTE == 0
    requires MinuteOf(plan.since) <= time < plan.until && time % MINUTE == 0
    ensures StillFirst(next, plan, policy)
    ensures FromMinutes(PlanGap(plan), q, time, quality, PlainConfig(), policy) == FromMinutes(PlanGap(plan), next, time + MINUTE, quality', PlainConfig(), policy)
  {
    hide Advance, CandleExit, Settle, Touched, FromMinutes, PlanGap, Bar, LevelsChanged;
    var c, during, cfg := Bar(plan, time), PolicyThroughout(policy, time), PlainConfig();
    BarOfGap(plan, time);
    NoBarExit(q, plan, policy, time);
    var u := Advance(q, Favourable(Long, c), time + MINUTE, cfg, during);
    BarStep(q, plan, policy, time);
    NoBarExit(u, plan, policy, time);
    UnrollMinute(PlanGap(plan), q, time, quality, cfg, policy);
    if time < plan.since {
      SameLevelsHere(q, u, plan, policy);
      return q, BoundedMinutes;
    } else {
      FlatBarStep(u, plan, policy, time + MINUTE, during);
      return Advance(u, 100.0, time + MINUTE, cfg, during), quality;
    }
  }

  lemma {:induction false} StrictKeepsStop(plan: Plan, q: Protected, policy: Option<Policy>, time: int, quality: Quality)
    requires Planned(plan) && Unread(plan, policy) && StillFirst(q, plan, policy) && plan.until % MINUTE == 0
    requires MinuteOf(plan.since) <= time && time % MINUTE == 0
    ensures var r := FromMinutes(PlanGap(plan), q, time, quality, PlainConfig(), policy); Quiet(r) && r.value.now.position.stop == 98.0
    decreases plan.until - time
  {
    hide FromMinutes;
    if time < plan.until {
      var next, quality' := StrictBar(plan, q, policy, time, quality);
      StrictKeepsStop(plan, next, policy, time + MINUTE, quality');
    } else {
      NoMoreMinutes(PlanGap(plan), q, time, quality, PlainConfig(), policy);
    }
  }

  lemma NoMoreMinutes(gap: Gap, q: Protected, time: int, quality: Quality, cfg: ConfigData, policy: Option<Policy>)
    requires time >= gap.quote.at
    ensures var r := FromMinutes(gap, q, time, quality, cfg, policy); Quiet(r) && r.value.now == q
  {
  }

  lemma {:induction false} LegacyKeepsStop(plan: Plan, now: Position, time: int, last: int, evidence: Evidence)
    requires Planned(plan) && StillFirst(Protected(now, None), plan, None)
    requires MinuteOf(plan.since) <= time && time % MINUTE == 0 && last < plan.until && MinutesPresent(PlanGap(plan).inputs.minutes, time, last)
    ensures var r := LegacyFrom(PlanGap(plan), now, time, last, evidence, PlainConfig()); r.settlement.None? && r.now.position.stop == 98.0
    decreases last - time
  {
    hide Advance, UpdateProtection, CandleExit, Settle, Touched;
    if time <= last {
      var c, cfg, q := Bar(plan, time), PlainConfig(), Protected(now, None);
      BarOfGap(plan, time);
      NoBarExit(q, plan, None, time);
      BarStep(q, plan, None, time);
      OwnStep(q, Favourable(Long, c), time + MINUTE, cfg);
      var u := UpdateProtection(now, Favourable(Long, c), cfg, cfg.exit);
      NoBarExit(Protected(u, None), plan, None, time);
      LegacyKeepsStop(plan, u, time + MINUTE, last, evidence);
      LegacyKeepsStop(plan, now, time + MINUTE, last, evidence);
    }
  }

  /** Neither recovery of such a gap exits or moves the stop: the strict one if the policy is off for the peak, the earlier one always. */
  lemma PlanIsQuiet(plan: Plan, policy: Option<Policy>)
    requires Planned(plan)
    requires plan.strict ==> Unread(plan, policy) && plan.until % MINUTE == 0
    ensures var r := CausalRecovery(PlanGap(plan), PlainConfig(), policy); Quiet(r) && r.value.now.position.stop == 98.0
  {
    hide FromMinutes, LegacyFrom, MinutesPresent;
    if plan.strict {
      StrictKeepsStop(plan, Start(plan), policy, MinuteOf(plan.since), CompleteMinutes);
    } else {
      var last := MinuteOf(plan.until - 1);
      BarsPresent(plan, MinuteOf(plan.since), last);
      var quality := if plan.since % MINUTE == 0 && plan.until % MINUTE == 0 then CompleteMinutes else BoundedMinutes;
      LegacyKeepsStop(plan, Start(plan).position, MinuteOf(plan.since), last, Evidence(plan.since, plan.until, MinuteOhlc, quality, None));
    }
  }

  // ---------------------------------------------------------------- the walk moves the stop

  lemma FlatTick(q: Protected, plan: Plan, policy: Policy, at: int)
    requires Possible(plan.since, plan.deadline) && q == Start(plan) && at < policy.enabledAt
    ensures !Touched(q.position, 100.0) && Advance(q, 100.0, at, PlainConfig(), Some(policy)) == q
  {
  }

  lemma PeakTick(q: Protected, plan: Plan, policy: Policy)
    requires Possible(plan.since, plan.deadline) && q == Start(plan) && plan.top == Peak(policy)
    requires policy.enabledAt <= plan.at && plan.since <= plan.at
    ensures var p := Advance(q, plan.top as real, plan.at, PlainConfig(), Some(policy)).position; p.basis == q.position.basis && p.stop == 100.0
  {
    hide StrategyStop, StrategyTrailing, PolicyTrailing;
    var b, cfg := q.position.basis, PlainConfig();
    AdvanceJoinsLevels(q, plan.top as real, plan.at, cfg, Some(policy));
    NoStrategyLevels(b, plan.top as real);
    assert BreakEven(b, cfg) == 100.0;
    assert PolicyStop(b, cfg, policy, plan.top as real) == Some(100.0);
  }

  lemma {:induction false} FollowTightens(q: Protected, ticks: seq<Tick>, cfg: ConfigData, policy: Option<Policy>)
    ensures Follow(q, ticks, cfg, policy).Open? ==> Tighter(Follow(q, ticks, cfg, policy).now.position, q.position)
    decreases |ticks|
  {
    hide Advance, Touched;
    if ticks != [] && !Touched(q.position, ticks[0].price) {
      var next := Advance(q, ticks[0].price, ticks[0].at, cfg, policy);
      AdvanceTightens(q, ticks[0].price, ticks[0].at, cfg, policy);
      FollowTightens(next, ticks[1..], cfg, policy);
      if Follow(q, ticks, cfg, policy).Open? {
        TighterTransitive(Follow(next, ticks[1..], cfg, policy).now.position, next.position, q.position);
      }
    }
  }

  /** The peak is traded while the policy is on, and everything before it while the policy is off. */
  predicate PeakWhileOn(plan: Plan, policy: Policy) {
    && plan.top == Peak(policy) && policy.enabledAt <= plan.at
    && (MinuteOf(plan.at) <= policy.enabledAt || MinuteOf(plan.at) == MinuteOf(plan.since))
  }

  lemma {:induction false} WalkMovesStop(plan: Plan, q: Protected, policy: Policy, time: int)
    requires Planned(plan) && PeakWhileOn(plan, policy) && q == Start(plan)
    requires MinuteOf(plan.since) <= time <= MinuteOf(plan.at) && time % MINUTE == 0
    ensures var walk := Follow(q, Ticks(PlanPath(plan), time, plan.until), PlainConfig(), Some(policy)); walk.Open? ==> walk.now.position.stop >= 100.0
    decreases plan.until - time
  {
    hide Follow, PlanPath;
    var rest := Ticks(PlanPath(plan), time + MINUTE, plan.until);
    if time == MinuteOf(plan.at) {
      WalkThePeak(plan, q, policy, rest);
    } else {
      WalkFlatMinute(plan, q, policy, time, rest);
      WalkMovesStop(plan, q, policy, time + MINUTE);
    }
  }

  lemma WalkThePeak(plan: Plan, q: Protected, policy: Policy, rest: seq<Tick>)
    requires Planned(plan) && PeakWhileOn(plan, policy) && q == Start(plan)
    ensures var walk := Follow(q, PlanPath(plan)(MinuteOf(plan.at)) + rest, PlainConfig(), Some(policy));
            walk.Open? ==> walk.now.position.stop >= 100.0
  {
    hide Advance, Touched, Follow;
    assert PlanPath(plan)(MinuteOf(plan.at)) == [Tick(plan.top as real, plan.at)];
    AfterFirst(q, Tick(plan.top as real, plan.at), rest, PlainConfig(), Some(policy));
    PeakTick(q, plan, policy);
    FollowTightens(Advance(q, plan.top as real, plan.at, PlainConfig(), Some(policy)), rest, PlainConfig(), Some(policy));
  }

  lemma WalkFlatMinute(plan: Plan, q: Protected, policy: Policy, time: int, rest: seq<Tick>)
    requires Planned(plan) && PeakWhileOn(plan, policy) && q == Start(plan)
    requires MinuteOf(plan.since) <= time < MinuteOf(plan.at) && time % MINUTE == 0
    ensures var walk := Follow(q, PlanPath(plan)(time) + rest, PlainConfig(), Some(policy));
            walk.Open? ==> walk == Follow(q, rest, PlainConfig(), Some(policy))
  {
    hide Advance, Touched, Follow;
    var here: seq<Tick> := PlanPath(plan)(time);
    if here == [] {
      assert here + rest == rest;
    } else {
      assert here == [Tick(100.0, time)];
      FlatTick(q, plan, policy, time);
      AfterFirst(q, Tick(100.0, time), rest, PlainConfig(), Some(policy));
    }
  }

  lemma AfterFirst(q: Protected, tick: Tick, rest: seq<Tick>, cfg: ConfigData, policy: Option<Policy>)
    ensures Follow(q, [tick] + rest, cfg, policy).Open? ==>
              && !Touched(q.position, tick.price)
              && var next := Follow(Advance(q, tick.price, tick.at, cfg, policy), rest, cfg, policy);
                 next.Open? && Follow(q, [tick] + rest, cfg, policy) == next
  {
    hide Advance, Touched;
    assert ([tick] + rest)[0] == tick && ([tick] + rest)[1..] == rest;
  }

  // ---------------------------------------------------------------- the two ways to fail

  /** A peak traded while the policy is on, in a bar that recovery reads with the policy off. */
  lemma PolicyIsMissed(plan: Plan, policy: Policy)
    requires Planned(plan) && PeakWhileOn(plan, policy) && Outlasts(plan.deadline, plan.until)
    requires plan.strict ==> MinuteOf(plan.at) < policy.enabledAt && plan.until % MINUTE == 0
    ensures !Sound(plan.strict, plan.since, plan.until, Some(policy), plan.deadline)
  {
    hide CausalRecovery, Follow, Fold, Fitting, Missed, PlanGap, PlanPath, Ticks, SelectTrades, OneStream, Silent;
    var events := PlanEvents(PlanTicks(plan));
    var live, env := PlanLive(plan), PlanEnv(Some(policy), events);
    PlanIsMissed(plan, Some(policy));
    PlanIsQuiet(plan, Some(policy));
    WalkMovesStop(plan, Start(plan), policy, MinuteOf(plan.since));
    MissedMeans(PlanGap(plan), PlanTicks(plan), live, events, env);
    AllBeforeDeadline(events, plan.since, plan.deadline);
    LoopFollowsPrices(live, events, env);
    assert events[..|events|] == events;
    assert !Kept(live, events, env, CausalRecovery(PlanGap(plan), env.cfg, Some(policy)));
  }

  lemma MissedMeans(gap: Gap, ticks: seq<Tick>, live: Live, events: seq<Event>, env: Env)
    requires Missed(gap, ticks, live, events, env)
    ensures live.now == gap.start && live.through == gap.since && TicksIn(events) == ticks
    ensures OneStream(live, events) && Silent(live, events, env)
  {
  }

  /** Flat bars, and a tick at the last instant before the quote: the loop has closed by the holding limit, recovery has not. */
  lemma DeadlineIsMissed(since: int, until: int, policy: Option<Policy>, deadline: Option<int>, strict: bool)
    requires since < until && Possible(since, deadline) && !Outlasts(deadline, until) && (strict ==> until % MINUTE == 0)
    ensures !Sound(strict, since, until, policy, deadline)
  {
    hide CausalRecovery, Follow, Fold, Fitting, Missed, PlanGap, PlanPath, Ticks, SelectTrades, OneStream, Silent, PlanMinute, TradedAt;
    var plan := Plan(since, until, 100, until - 1, deadline, strict);
    var events := PlanEvents(PlanTicks(plan));
    var live, env := PlanLive(plan), PlanEnv(policy, events);
    PlanIsMissed(plan, policy);
    PlanIsQuiet(plan, policy);
    MissedMeans(PlanGap(plan), PlanTicks(plan), live, events, env);
    LastInstantTraded(plan, MinuteOf(since));
    var e := TradedEvent(PlanTicks(plan), until - 1);
    LateTickCloses(live, events, env, e);
    assert !Kept(live, events, env, CausalRecovery(PlanGap(plan), env.cfg, policy));
  }

  lemma TradedEvent(ticks: seq<Tick>, at: int) returns (e: Event)
    requires TradedAt(ticks, at)
    ensures e in PlanEvents(ticks) && e.observedAt == at
  {
    var i :| 0 <= i < |ticks| && ticks[i].at == at;
    e := PlanEvents(ticks)[i];
  }

  predicate TradedAt(ticks: seq<Tick>, at: int) {
    exists i :: 0 <= i < |ticks| && ticks[i].at == at
  }

  lemma TradedInEither(a: seq<Tick>, b: seq<Tick>, at: int)
    ensures TradedAt(a, at) || TradedAt(b, at) ==> TradedAt(a + b, at)
  {
    if TradedAt(a, at) { var i :| 0 <= i < |a| && a[i].at == at; assert (a + b)[i].at == at; }
    if TradedAt(b, at) { var i :| 0 <= i < |b| && b[i].at == at; assert (a + b)[|a| + i].at == at; }
  }

  lemma {:induction false} LastInstantTraded(plan: Plan, time: int)
    requires Planned(plan) && plan.at == plan.until - 1 && time % MINUTE == 0 && time <= MinuteOf(plan.at)
    ensures TradedAt(Ticks(PlanPath(plan), time, plan.until), plan.until - 1)
    decreases plan.until - time
  {
    hide TradedAt;
    TradedInEither(PlanPath(plan)(time), Ticks(PlanPath(plan), time + MINUTE, plan.until), plan.until - 1);
    if time == MinuteOf(plan.at) { PeakIsTraded(plan); } else { LastInstantTraded(plan, time + MINUTE); }
  }

  lemma PeakIsTraded(plan: Plan)
    ensures TradedAt(PlanPath(plan)(MinuteOf(plan.at)), plan.at)
  {
    assert PlanPath(plan)(MinuteOf(plan.at))[0].at == plan.at;
  }

  // ---------------------------------------------------------------- strict recovery, exactly

  /** Strict recovery that exits nothing has taken the next bar, which the quote closes. */
  lemma QuietBar(gap: Gap, now: Protected, time: int, quality: Quality, cfg: ConfigData, policy: Option<Policy>)
    returns (next: Protected, quality': Quality)
    requires time < gap.quote.at && Quiet(FromMinutes(gap, now, time, quality, cfg, policy))
    ensures time + MINUTE <= gap.quote.at
    ensures FromMinutes(gap, now, time, quality, cfg, policy) == FromMinutes(gap, next, time + MINUTE, quality', cfg, policy)
  {
    hide Advance, CandleExit, Settle, Touched, LevelsChanged, PolicyThroughout;
    var c, during := gap.inputs.minutes[time], PolicyThroughout(policy, time);
    var u := Advance(now, Favourable(now.position.basis.side, c), time + MINUTE, cfg, during);
    if time < gap.since { return now, BoundedMinutes; }
    return Advance(u, c.close, time + MINUTE, cfg, during), quality;
  }

  /** A quote inside a minute always ends strict recovery in doubt. */
  lemma {:induction false} OpenMinuteIsUncertain(gap: Gap, now: Protected, time: int, quality: Quality, cfg: ConfigData, policy: Option<Policy>)
    requires time % MINUTE == 0 && gap.quote.at % MINUTE != 0 && time < gap.quote.at
    ensures !Quiet(FromMinutes(gap, now, time, quality, cfg, policy))
    decreases gap.quote.at - time
  {
    hide FromMinutes;
    if Quiet(FromMinutes(gap, now, time, quality, cfg, policy)) {
      var next, quality' := QuietBar(gap, now, time, quality, cfg, policy);
      OpenMinuteIsUncertain(gap, next, time + MINUTE, quality', cfg, policy);
    }
  }

  lemma StrictIsKept(gap: Gap, path: Path, since: int, until: int, live: Live, events: seq<Event>, env: Env)
    requires since < until && Fitting(gap, path, since, until) && gap.inputs.strict && SelectTrades(gap).None?
    requires until % MINUTE != 0 || (!SplitsBar(since, until, env.policy) && Outlasts(HoldingDeadline(gap.start.position.basis), until))
    requires Missed(gap, Ticks(path, MinuteOf(since), until), live, events, env) && Quiet(CausalRecovery(gap, env.cfg, env.policy))
    ensures Kept(live, events, env, CausalRecovery(gap, env.cfg, env.policy))
  {
    hide FromMinutes, Follow, FitsFrom, SelectTrades, LegacyRecovery, Fold, OneStream, Silent, Ticks, MinutesPresent;
    if until % MINUTE != 0 {
      OpenMinuteIsUncertain(gap, gap.start, MinuteOf(since), CompleteMinutes, env.cfg, env.policy);
    } else {
      MissedTicksChangeNothing(gap, path, live, events, env);
      StrictMinutesPresent(gap, gap.start, MinuteOf(since), CompleteMinutes, env.cfg, env.policy);
      InTime(gap, path, live, events, env);
    }
  }

  /** Strict recovery that exits nothing has read every bar of the gap. */
  lemma {:induction false} StrictMinutesPresent(gap: Gap, now: Protected, time: int, quality: Quality, cfg: ConfigData, policy: Option<Policy>)
    requires time % MINUTE == 0 && Quiet(FromMinutes(gap, now, time, quality, cfg, policy))
    ensures MinutesPresent(gap.inputs.minutes, time, MinuteOf(gap.quote.at - 1))
    decreases gap.quote.at - time
  {
    hide FromMinutes;
    if time < gap.quote.at {
      var next, quality' := QuietBar(gap, now, time, quality, cfg, policy);
      BarWasRead(gap, now, time, quality, cfg, policy);
      StrictMinutesPresent(gap, next, time + MINUTE, quality', cfg, policy);
    }
  }

  lemma BarWasRead(gap: Gap, now: Protected, time: int, quality: Quality, cfg: ConfigData, policy: Option<Policy>)
    requires time < gap.quote.at && Quiet(FromMinutes(gap, now, time, quality, cfg, policy))
    ensures time in gap.inputs.minutes && ValidCandle(gap.inputs.minutes[time])
  {
    hide Advance, CandleExit, Settle, Touched, LevelsChanged, PolicyThroughout;
  }

  /** No tick inside the gap reaches a deadline that outlasts it. */
  lemma {:induction false} InTime(gap: Gap, path: Path, live: Live, events: seq<Event>, env: Env)
    requires gap.since < gap.quote.at && FitsFrom(gap, path, MinuteOf(gap.since))
    requires MinutesPresent(gap.inputs.minutes, MinuteOf(gap.since), MinuteOf(gap.quote.at - 1))
    requires Missed(gap, Ticks(path, MinuteOf(gap.since), gap.quote.at), live, events, env)
    requires Outlasts(HoldingDeadline(gap.start.position.basis), gap.quote.at)
    ensures BeforeDeadline(events, live.through, HoldingDeadline(gap.start.position.basis)) == |events|
  {
    hide FitsFrom, MinutesPresent, Ticks, OneStream, Silent;
    var ticks := Ticks(path, MinuteOf(gap.since), gap.quote.at);
    TicksInGap(gap, path, MinuteOf(gap.since));
    forall e | e in events ensures e.observedAt < gap.quote.at {
      var i :| 0 <= i < |events| && events[i] == e;
      assert ticks[i] == TicksIn(events)[i];
    }
    AllBeforeDeadline(events, live.through, HoldingDeadline(gap.start.position.basis));
  }

  /**
   Strict recovery of a gap speaks for the loop, whatever path the prices took, if and only if the quote falls inside a
   minute, in which case it always ends in doubt, or the policy does not switch on inside a bar of the gap and the
   holding limit does not end before the quote. On a minute boundary the policy may switch; and a policy that came on
   before the gap, but after the first bar began, is as bad as one that comes on later inside a bar.
   */
  lemma StrictSoundnessIsExact(since: int, until: int, policy: Option<Policy>, deadline: Option<int>)
    requires since < until && Possible(since, deadline)
    ensures Sound(true, since, until, policy, deadline) <==>
              until % MINUTE != 0 || (!SplitsBar(since, until, policy) && Outlasts(deadline, until))
  {
    hide CausalRecovery, Kept, Fitting, SelectTrades, Missed, Ticks, Fold;
    if until % MINUTE == 0 && !Outlasts(deadline, until) {
      DeadlineIsMissed(since, until, policy, deadline, true);
    } else if until % MINUTE == 0 && SplitsBar(since, until, policy) {
      PolicyIsMissed(Plan(since, until, Peak(policy.value), Max(policy.value.enabledAt, since), deadline, true), policy.value);
    } else {
      forall gap: Gap, path: Path, live: Live, events: seq<Event>, env: Env |
        Fitting(gap, path, since, until) && gap.inputs.strict && SelectTrades(gap).None? && env.policy == policy
        && HoldingDeadline(gap.start.position.basis) == deadline && Missed(gap, Ticks(path, MinuteOf(since), until), live, events, env)
        && Quiet(CausalRecovery(gap, env.cfg, policy))
        ensures Kept(live, events, env, CausalRecovery(gap, env.cfg, policy))
      {
        StrictIsKept(gap, path, since, until, live, events, env);
      }
    }
  }

  // ---------------------------------------------------------------- the earlier recovery, exactly

  lemma LegacyIsKept(gap: Gap, path: Path, since: int, until: int, live: Live, events: seq<Event>, env: Env)
    requires since < until && Fitting(gap, path, since, until) && !gap.inputs.strict && SelectTrades(gap).None?
    requires (env.policy.None? || env.policy.value.enabledAt >= until) && Outlasts(HoldingDeadline(gap.start.position.basis), until)
    requires Missed(gap, Ticks(path, MinuteOf(since), until), live, events, env) && Quiet(CausalRecovery(gap, env.cfg, env.policy))
    ensures Kept(live, events, env, CausalRecovery(gap, env.cfg, env.policy))
  {
    hide Follow, FitsFrom, SelectTrades, LegacyRecovery, Fold, OneStream, Silent, Ticks, MinutesPresent, FromMinutes;
    MissedTicksOfEarlierRecovery(gap, path, live, events, env);
    LegacyMinutesPresent(gap, env.cfg);
    InTime(gap, path, live, events, env);
  }

  lemma LegacyMinutesPresent(gap: Gap, cfg: ConfigData)
    requires gap.since < gap.quote.at && LegacyRecovery(gap, cfg).Done?
    ensures MinutesPresent(gap.inputs.minutes, MinuteOf(gap.since), MinuteOf(gap.quote.at - 1))
  {
    hide LegacyFrom, MinutesPresent, Settle;
  }

  /**
   The earlier recovery, which reads no policy, speaks for the loop if and only if the policy is off until the quote and
   the holding limit does not end before it.
   */
  lemma LegacySoundnessIsExact(since: int, until: int, policy: Option<Policy>, deadline: Option<int>)
    requires since < until && Possible(since, deadline)
    ensures Sound(false, since, until, policy, deadline) <==>
              (policy.None? || policy.value.enabledAt >= until) && Outlasts(deadline, until)
  {
    hide CausalRecovery, Kept, Fitting, SelectTrades, Missed, Ticks, Fold;
    if !Outlasts(deadline, until) {
      DeadlineIsMissed(since, until, policy, deadline, false);
    } else if policy.Some? && policy.value.enabledAt < until {
      PolicyIsMissed(Plan(since, until, Peak(policy.value), Max(policy.value.enabledAt, since), deadline, false), policy.value);
    } else {
      forall gap: Gap, path: Path, live: Live, events: seq<Event>, env: Env |
        Fitting(gap, path, since, until) && !gap.inputs.strict && SelectTrades(gap).None? && env.policy == policy
        && HoldingDeadline(gap.start.position.basis) == deadline && Missed(gap, Ticks(path, MinuteOf(since), until), live, events, env)
        && Quiet(CausalRecovery(gap, env.cfg, policy))
        ensures Kept(live, events, env, CausalRecovery(gap, env.cfg, policy))
      {
        LegacyIsKept(gap, path, since, until, live, events, env);
      }
    }
  }

  /** A policy enabled twenty seconds before a gap begins, ten seconds into its first minute, is on throughout and still missed. */
  lemma EnabledBeforeTheGap()
    ensures !Sound(true, 30000, 60000, Some(Policy(10000, 0.5, 1.0, 0.5)), None)
  {
    StrictSoundnessIsExact(30000, 60000, Some(Policy(10000, 0.5, 1.0, 0.5)), None);
  }

  /** A position with the shortest holding limit, opened when a gap of two minutes begins. */
  lemma LimitInsideTheGap()
    ensures !Sound(true, 0, 120000, None, Some(60000)) && !Sound(false, 0, 120000, None, Some(60000))
  {
    StrictSoundnessIsExact(0, 120000, None, Some(60000));
    LegacySoundnessIsExact(0, 120000, None, Some(60000));
  }
}
