/**
 Recovery from minute bars: a result without a settlement speaks for every price path inside the bars.
 The path and the recovery are kept in step minute by minute; the path may know a better peak than the
 recovery does, but only one whose levels the recovery already holds.
 */
module MinuteRecoveryLaws {
  import opened Common
  import opened Engine
  import opened EngineLaws
  import opened Recovery
  import opened TradeRecoveryLaws

  // ---------------------------------------------------------------- the path beside the recovery

  predicate Holds(p: Position, stop: Option<real>, trailing: Option<real>) {
    FavoursOpt(p.basis.side, Some(p.stop), stop) && FavoursOpt(p.basis.side, p.trailing, trailing)
  }

  predicate HoldsOwn(p: Position, cfg: ConfigData, best: Price) {
    Holds(p, StrategyStop(p.basis, cfg, cfg.exit, best), StrategyTrailing(p.basis, cfg, cfg.exit, best))
  }

  predicate HoldsExtra(p: Position, cfg: ConfigData, policy: Policy, peak: Price) {
    Holds(p, PolicyStop(p.basis, cfg, policy, peak), PolicyTrailing(p.basis, cfg, policy, peak))
  }

  predicate LevelsUpTo(p: Position, q: Position) {
    Favours(q.basis.side, q.stop, p.stop) && FavoursOpt(q.basis.side, q.trailing, p.trailing)
  }

  /** The path `a` has at least the peaks of `r`, and any better peak is already in its levels. */
  predicate Ahead(r: Protected, a: Protected, cfg: ConfigData, policy: Option<Policy>, on: bool)
    requires on ==> policy.Some?
  {
    && a.position.basis == r.position.basis
    && Favours(r.position.basis.side, a.position.best, r.position.best)
    && (a.position.best == r.position.best || HoldsOwn(a.position, cfg, a.position.best))
    && if !on then a.state == r.state
       else
         var mine, theirs := TrackedPeak(policy.value, a.state), TrackedPeak(policy.value, r.state);
         && FavoursOpt(r.position.basis.side, mine, theirs)
         && (mine == theirs || HoldsExtra(a.position, cfg, policy.value, mine.value))
  }

  predicate SameLevels(p: Position, q: Position) {
    p.stop == q.stop && p.trailing == q.trailing
  }

  /** The levels and peaks that the favourable extreme `top` justifies are in `u`. */
  predicate Tops(r: Protected, u: Protected, top: Price, cfg: ConfigData, policy: Option<Policy>, on: bool)
    requires on ==> policy.Some?
  {
    var side := r.position.basis.side;
    && u.position.basis == r.position.basis
    && u.position.best == Join(side, r.position.best, top)
    && LevelsUpTo(r.position, u.position)
    && HoldsOwn(u.position, cfg, u.position.best)
    && if !on then u.state == r.state
       else
         && u.state.Some? && u.state.value.policy == policy.value
         && u.state.value.best == (match TrackedPeak(policy.value, r.state) case None => top case Some(p) => Join(side, p, top))
         && HoldsExtra(u.position, cfg, policy.value, u.state.value.best)
  }

  lemma StepTops(r: Protected, top: Price, at: int, cfg: ConfigData, policy: Option<Policy>, on: bool)
    requires on == PolicyActive(r.position.basis, policy, at)
    ensures Tops(r, Advance(r, top, at, cfg, policy), top, cfg, policy, on)
  {
    hide StrategyStop, StrategyTrailing, PolicyStop, PolicyTrailing;
    AdvanceJoinsLevels(r, top, at, cfg, policy);
  }

  /** `u` holds whatever a peak no better than its own justifies. */
  lemma HoldsBelow(u: Position, cfg: Config, policy: Option<Policy>, best: Price, top: Price)
    requires Favours(u.basis.side, top, best) && BeforeTake(u.basis, top)
    ensures HoldsOwn(u, cfg, top) ==> HoldsOwn(u, cfg, best)
    ensures policy.Some? && HoldsExtra(u, cfg, policy.value, top) ==> HoldsExtra(u, cfg, policy.value, best)
  {
    hide StrategyStop, StrategyTrailing, PolicyStop, PolicyTrailing;
    StrategyStopMonotone(u.basis, cfg, cfg.exit, best, top);
    StrategyTrailingMonotone(u.basis, cfg, best, top);
    if policy.Some? {
      PolicyStopMonotone(u.basis, cfg, policy.value, best, top);
      PolicyTrailingMonotone(u.basis, cfg, policy.value, best, top);
    }
  }

  lemma HoldsUpTo(p: Position, u: Position, cfg: ConfigData, policy: Policy, best: Price)
    requires p.basis == u.basis && LevelsUpTo(p, u)
    ensures HoldsOwn(p, cfg, best) ==> HoldsOwn(u, cfg, best)
    ensures HoldsExtra(p, cfg, policy, best) ==> HoldsExtra(u, cfg, policy, best)
  {
    hide StrategyStop, StrategyTrailing, PolicyStop, PolicyTrailing;
  }

  // ---------------------------------------------------------------- inside one minute

  /** Part of the minute has been walked: the path is between the recovery before and after its extreme. */
  predicate Midway(r: Protected, u: Protected, a: Protected, cfg: ConfigData, policy: Option<Policy>, on: bool)
    requires on ==> policy.Some?
  {
    && u.position.basis == r.position.basis && Ahead(r, a, cfg, policy, on)
    && LevelsUpTo(r.position, a.position) && LevelsUpTo(a.position, u.position)
  }

  /** Every peak of the path has its levels in place. */
  predicate Settled(a: Protected, cfg: ConfigData, policy: Option<Policy>, on: bool)
    requires on ==> policy.Some?
  {
    && HoldsOwn(a.position, cfg, a.position.best)
    && (on ==> a.state.Some? && a.state.value.policy == policy.value && HoldsExtra(a.position, cfg, policy.value, a.state.value.best))
  }

  /** Whatever the path's next peak is, its levels are already among those of `u`. */
  lemma NextPeakIsCovered(r: Protected, u: Protected, a: Protected, top: Price, x: Price, at: int, cfg: Config, policy: Option<Policy>, on: bool)
    requires on == PolicyActive(r.position.basis, policy, at)
    requires Tops(r, u, top, cfg, policy, on) && Midway(r, u, a, cfg, policy, on)
    requires Favours(r.position.basis.side, top, x)
    requires PeaksBeforeTake(u)
    ensures HoldsOwn(u.position, cfg, Join(r.position.basis.side, a.position.best, x))
    ensures on ==> HoldsExtra(u.position, cfg, policy.value, NextProfitState(r.position.basis, x, at, policy.value, a.state).best)
  {
    hide StrategyStop, StrategyTrailing, PolicyStop, PolicyTrailing, Holds;
    var side := r.position.basis.side;
    HoldsBelow(u.position, cfg, policy, x, u.position.best);
    HoldsBelow(u.position, cfg, policy, r.position.best, u.position.best);
    if policy.Some? { HoldsUpTo(a.position, u.position, cfg, policy.value, a.position.best); }
    OwnUpTo(a.position, u.position, cfg, a.position.best);
    if on {
      var peak := TrackedPeak(policy.value, a.state);
      HoldsBelow(u.position, cfg, policy, x, u.state.value.best);
      if peak.Some? {
        HoldsUpTo(a.position, u.position, cfg, policy.value, peak.value);
        if peak == TrackedPeak(policy.value, r.state) {
          HoldsBelow(u.position, cfg, policy, peak.value, u.state.value.best);
        }
      }
    }
  }

  lemma OwnUpTo(p: Position, u: Position, cfg: ConfigData, best: Price)
    requires p.basis == u.basis && LevelsUpTo(p, u)
    ensures HoldsOwn(p, cfg, best) ==> HoldsOwn(u, cfg, best)
  {
    hide StrategyStop, StrategyTrailing;
  }

  /** Joining levels that `u` already holds stays below `u`, and the joined levels are then held. */
  lemma JoinStaysBelow(p: Position, u: Position, l: Levels)
    requires p.basis == u.basis && LevelsUpTo(p, u)
    requires Holds(u, l.stop, l.trailing) && Holds(u, l.extraStop, l.extraTrailing)
    ensures var q := TightenAll(p, l);
            && q.basis == p.basis && q.best == p.best && LevelsUpTo(p, q) && LevelsUpTo(q, u)
            && Holds(q, l.stop, l.trailing) && Holds(q, l.extraStop, l.extraTrailing)
  {
  }

  lemma StepStaysMidway(r: Protected, u: Protected, a: Protected, top: Price, x: Price, at: int, cfg: Config, policy: Option<Policy>, on: bool)
    requires on == PolicyActive(r.position.basis, policy, at)
    requires Tops(r, u, top, cfg, policy, on) && Midway(r, u, a, cfg, policy, on)
    requires Favours(r.position.basis.side, top, x) && PeaksBeforeTake(u)
    ensures var next := Advance(a, x, at, cfg, policy);
            && Midway(r, u, next, cfg, policy, on) && Settled(next, cfg, policy, on)
            && Favours(r.position.basis.side, next.position.best, x)
            && (on ==> Favours(r.position.basis.side, next.state.value.best, x))
  {
    hide StrategyStop, StrategyTrailing, PolicyStop, PolicyTrailing, Tighten, TightenAll, Holds;
    var best: Price := Join(r.position.basis.side, a.position.best, x);
    NextPeakIsCovered(r, u, a, top, x, at, cfg, policy, on);
    AdvanceJoinsLevels(a, x, at, cfg, policy);
    var levels := LevelsAt(a.position.basis, cfg, best, at, policy, StateAfter(a, x, at, policy));
    HoldsNothing(u.position);
    JoinStaysBelow(a.position.(best := best), u.position, levels);
    LevelsUpToTrans(r.position, a.position, Advance(a, x, at, cfg, policy).position);
  }

  lemma HoldsNothing(p: Position)
    ensures Holds(p, None, None)
  {
  }

  lemma LevelsUpToTrans(p: Position, q: Position, r: Position)
    requires p.basis == q.basis == r.basis && LevelsUpTo(p, q) && LevelsUpTo(q, r)
    ensures LevelsUpTo(p, r)
  {
  }

  /** Prices of the minute: no better than `top`, no worse than `bottom`, all on the same side of the policy's switch. */
  predicate InsideMinute(b: Basis, ticks: seq<Tick>, top: real, bottom: real, policy: Option<Policy>, on: bool) {
    forall i :: 0 <= i < |ticks| ==>
      && Favours(b.side, top, ticks[i].price) && Favours(b.side, ticks[i].price, bottom)
      && on == PolicyActive(b, policy, ticks[i].at)
  }

  lemma Untouched(r: Position, u: Position, a: Position, x: real, top: real, bottom: real)
    requires r.basis == u.basis == a.basis && LevelsUpTo(a, u)
    requires Favours(r.basis.side, top, x) && Favours(r.basis.side, x, bottom)
    requires !StopTouched(u, bottom) && !TakeTouched(r, top)
    ensures !Touched(a, x)
  {
    assert Favours(r.basis.side, NearestLevel(u).price, NearestLevel(a).price);
  }

  lemma StillBeforeTake(p: Position, top: real, x: real)
    requires !TakeTouched(p, top) && Favours(p.basis.side, top, x)
    ensures BeforeTake(p.basis, x)
  {
  }

  predicate Reaches(b: Basis, a: Protected, ticks: seq<Tick>, on: bool) {
    && (on && ticks != [] ==> a.state.Some?)
    && forall i :: 0 <= i < |ticks| ==>
         && Favours(b.side, a.position.best, ticks[i].price)
         && (on ==> Favours(b.side, a.state.value.best, ticks[i].price))
  }

  /** Walking the minute's prices one at a time never exits and stays between the recovery's two positions. */
  lemma {:induction false} WalkMinute(r: Protected, u: Protected, a: Protected, top: Price, bottom: real, ticks: seq<Tick>, cfg: Config, policy: Option<Policy>, on: bool)
    requires on ==> policy.Some?
    requires Tops(r, u, top, cfg, policy, on) && Midway(r, u, a, cfg, policy, on)
    requires PeaksBeforeTake(u) && PeaksBeforeTake(a)
    requires InsideMinute(r.position.basis, ticks, top, bottom, policy, on)
    requires !StopTouched(u.position, bottom) && !TakeTouched(r.position, top)
    ensures var walk := Follow(a, ticks, cfg, policy);
            && walk.Open? && Midway(r, u, walk.now, cfg, policy, on) && PeaksBeforeTake(walk.now)
            && (ticks != [] ==> Settled(walk.now, cfg, policy, on))
            && Tighter(walk.now.position, a.position)
            && (on && a.state.Some? && a.state.value.policy == policy.value ==>
                  walk.now.state.Some? && Favours(r.position.basis.side, walk.now.state.value.best, a.state.value.best))
            && Reaches(r.position.basis, walk.now, ticks, on)
    decreases |ticks|
  {
    hide Advance, StopTouched, TakeTouched, Tops, HoldsOwn, HoldsExtra;
    if ticks != [] {
      var x, at := ticks[0].price, ticks[0].at;
      var next := Advance(a, x, at, cfg, policy);
      Untouched(r.position, u.position, a.position, x, top, bottom);
      StepStaysMidway(r, u, a, top, x, at, cfg, policy, on);
      StillBeforeTake(r.position, top, x);
      PeaksStayBeforeTake(a, x, at, cfg, policy);
      AdvanceTightens(a, x, at, cfg, policy);
      StatePeak(a, x, at, cfg, policy);
      WalkMinute(r, u, next, top, bottom, ticks[1..], cfg, policy, on);
    }
  }

  lemma StatePeak(q: Protected, x: Price, at: int, cfg: ConfigData, policy: Option<Policy>)
    ensures Advance(q, x, at, cfg, policy).state == StateAfter(q, x, at, policy)
    ensures PolicyActive(q.position.basis, policy, at) && q.state.Some? && q.state.value.policy == policy.value ==>
              Favours(q.position.basis.side, StateAfter(q, x, at, policy).value.best, q.state.value.best)
  {
    hide StrategyStop, StrategyTrailing, PolicyStop, PolicyTrailing;
    AdvanceJoinsLevels(q, x, at, cfg, policy);
  }

  // ---------------------------------------------------------------- at the end of a minute

  /** A step adds nothing beyond what its peaks justify. */
  lemma StepIsLeast(r: Protected, top: Price, at: int, cfg: ConfigData, policy: Option<Policy>, p: Position)
    requires p.basis == r.position.basis && LevelsUpTo(r.position, p)
    requires HoldsOwn(p, cfg, Join(r.position.basis.side, r.position.best, top))
    requires PolicyActive(r.position.basis, policy, at) ==>
               HoldsExtra(p, cfg, policy.value, NextProfitState(r.position.basis, top, at, policy.value, r.state).best)
    ensures LevelsUpTo(Advance(r, top, at, cfg, policy).position, p)
  {
    hide StrategyStop, StrategyTrailing, PolicyStop, PolicyTrailing;
    AdvanceJoinsLevels(r, top, at, cfg, policy);
  }

  lemma LevelsMeet(p: Position, q: Position)
    requires p.basis == q.basis && LevelsUpTo(p, q) && LevelsUpTo(q, p)
    ensures SameLevels(p, q)
  {
  }

  /** The path and the recovery hold the same levels, the path at least the same peaks. */
  predicate InStep(r: Protected, a: Protected, cfg: ConfigData, policy: Option<Policy>, on: bool)
    requires on ==> policy.Some?
  {
    Ahead(r, a, cfg, policy, on) && SameLevels(r.position, a.position)
  }

  /** A minute of which everything belongs to the gap: its favourable extreme was really traded. */
  lemma CompleteMinute(r: Protected, a: Protected, top: Price, bottom: real, end: int, during: Option<Policy>, ticks: seq<Tick>,
                       cfg: Config, policy: Option<Policy>, on: bool)
    requires (on ==> policy.Some? && during == policy) && on == PolicyActive(r.position.basis, during, end)
    requires InStep(r, a, cfg, policy, on) && PeaksBeforeTake(r) && PeaksBeforeTake(a)
    requires InsideMinute(r.position.basis, ticks, top, bottom, policy, on)
    requires exists i :: 0 <= i < |ticks| && ticks[i].price == top
    requires var u := Advance(r, top, end, cfg, during); !StopTouched(u.position, bottom) && !TakeTouched(r.position, top)
    ensures var u := Advance(r, top, end, cfg, during);
            var walk := Follow(a, ticks, cfg, policy);
            walk.Open? && InStep(u, walk.now, cfg, policy, on) && PeaksBeforeTake(u) && PeaksBeforeTake(walk.now)
  {
    hide Advance, StopTouched, TakeTouched, Follow, HoldsOwn, HoldsExtra;
    var u := Advance(r, top, end, cfg, during);
    StepTopsDuring(r, top, end, cfg, policy, during, on);
    StillBeforeTake(r.position, top, top);
    PeaksStayBeforeTake(r, top, end, cfg, during);
    WalkMinute(r, u, a, top, bottom, ticks, cfg, policy, on);
    var now := Follow(a, ticks, cfg, policy).now;
    var i :| 0 <= i < |ticks| && ticks[i].price == top;
    HoldsBelow(now.position, cfg, policy, u.position.best, now.position.best);
    if on {
      StatePeak(r, top, end, cfg, policy);
      HoldsBelow(now.position, cfg, policy, u.state.value.best, now.state.value.best);
    }
    StepIsLeast(r, top, end, cfg, during, now.position);
    LevelsMeet(u.position, now.position);
  }

  lemma StepTopsDuring(r: Protected, top: Price, end: int, cfg: ConfigData, policy: Option<Policy>, during: Option<Policy>, on: bool)
    requires (on ==> policy.Some? && during == policy) && on == PolicyActive(r.position.basis, during, end)
    ensures Tops(r, Advance(r, top, end, cfg, during), top, cfg, policy, on)
  {
    StepTops(r, top, end, cfg, during, on);
  }

  /** A minute only part of which belongs to the gap: its extremes are bounds, and they move no level. */
  lemma PartialMinute(r: Protected, a: Protected, top: Price, bottom: real, end: int, during: Option<Policy>, ticks: seq<Tick>,
                      cfg: Config, policy: Option<Policy>, on: bool)
    requires (on ==> policy.Some? && during == policy) && on == PolicyActive(r.position.basis, during, end)
    requires InStep(r, a, cfg, policy, on) && PeaksBeforeTake(r) && PeaksBeforeTake(a)
    requires InsideMinute(r.position.basis, ticks, top, bottom, policy, on)
    requires var u := Advance(r, top, end, cfg, during);
             SameLevels(u.position, r.position) && !StopTouched(u.position, bottom) && !TakeTouched(r.position, top)
    ensures var walk := Follow(a, ticks, cfg, policy);
            walk.Open? && InStep(r, walk.now, cfg, policy, on) && PeaksBeforeTake(walk.now)
  {
    hide Advance, StopTouched, TakeTouched, Follow, HoldsOwn, HoldsExtra;
    var u := Advance(r, top, end, cfg, during);
    StepTopsDuring(r, top, end, cfg, policy, during, on);
    StillBeforeTake(r.position, top, top);
    PeaksStayBeforeTake(r, top, end, cfg, during);
    WalkMinute(r, u, a, top, bottom, ticks, cfg, policy, on);
    LevelsMeet(r.position, Follow(a, ticks, cfg, policy).now.position);
  }

  // ---------------------------------------------------------------- price paths inside the bars

  /** A price path, given as the ticks of each minute. */
  type Path = int -> seq<Tick>

  function Ticks(path: Path, time: int, end: int): seq<Tick>
    decreases end - time
  {
    if time >= end then [] else path(time) + Ticks(path, time + MINUTE, end)
  }

  /** The ticks of one minute lie in its bar and in the gap; a minute wholly inside the gap attains its favourable extreme. */
  predicate FitsMinute(gap: Gap, ticks: seq<Tick>, time: int)
    requires time in gap.inputs.minutes
  {
    var c, side := gap.inputs.minutes[time], gap.start.position.basis.side;
    && (forall i :: 0 <= i < |ticks| ==>
          && c.low <= ticks[i].price <= c.high
          && gap.since <= ticks[i].at < gap.quote.at
          && time <= ticks[i].at < time + MINUTE)
    && (Complete(gap, time) ==> exists i :: 0 <= i < |ticks| && ticks[i].price == Favourable(side, c))
  }

  predicate FitsFrom(gap: Gap, path: Path, time: int)
    decreases gap.quote.at - time
  {
    time < gap.quote.at ==>
      (time in gap.inputs.minutes ==> FitsMinute(gap, path(time), time)) && FitsFrom(gap, path, time + MINUTE)
  }

  /** The policy switches on inside a bar of the gap, which recovery must judge as a whole; on a boundary it may. */
  predicate SplitsBar(since: int, until: int, policy: Option<Policy>) {
    policy.Some? && MinuteOf(since) < policy.value.enabledAt < until && policy.value.enabledAt % MINUTE != 0
  }

  /** The policy is on for the whole minute that begins at `time`. */
  predicate OnFrom(policy: Option<Policy>, time: int) {
    policy.Some? && policy.value.enabledAt <= time
  }

  lemma TickActivity(gap: Gap, b: Basis, ticks: seq<Tick>, time: int, policy: Option<Policy>)
    requires time in gap.inputs.minutes && FitsMinute(gap, ticks, time) && b == gap.start.position.basis
    requires b.openedAt <= gap.since && MinuteOf(gap.since) <= time && time % MINUTE == 0 && !SplitsBar(gap.since, gap.quote.at, policy)
    ensures var c := gap.inputs.minutes[time];
            InsideMinute(b, ticks, Favourable(b.side, c), Adverse(b.side, c), policy, OnFrom(policy, time))
  {
    hide SplitsBar, OnFrom, PolicyActive;
    var c := gap.inputs.minutes[time];
    forall i | 0 <= i < |ticks|
      ensures OnFrom(policy, time) == PolicyActive(b, policy, ticks[i].at)
    {
      TickIsOn(gap.since, gap.quote.at, b, time, ticks[i].at, policy);
    }
  }

  lemma TickIsOn(since: int, until: int, b: Basis, time: int, at: int, policy: Option<Policy>)
    requires b.openedAt <= since <= at < until && MinuteOf(since) <= time <= at < time + MINUTE && time % MINUTE == 0
    requires !SplitsBar(since, until, policy)
    ensures OnFrom(policy, time) == PolicyActive(b, policy, at)
  {
  }

  /** A policy that comes on between two minutes finds path and recovery with the same tracked peak. */
  lemma SwitchKeepsStep(r: Protected, a: Protected, time: int, later: int, cfg: ConfigData, policy: Option<Policy>)
    requires InStep(r, a, cfg, policy, OnFrom(policy, time)) && time <= later
    ensures InStep(r, a, cfg, policy, OnFrom(policy, later))
  {
    hide HoldsOwn, HoldsExtra;
  }

  /** What a bar without an exit says about the position entering it. */
  lemma QuietCandle(p: Position, c: Candle, time: int, cfg: ConfigData)
    requires CandleExit(p, c, time, cfg).None?
    ensures !StopTouched(p, Adverse(p.basis.side, c)) && !TakeTouched(p, Favourable(p.basis.side, c))
  {
    hide Settle;
  }

  lemma QuietUnpinned(p: Position, c: Candle, time: int, cfg: ConfigData)
    requires CandleExit(Unpinned(p), c, time, cfg).None?
    ensures !StopTouched(p, Adverse(p.basis.side, c)) && !TakeTouched(p, Favourable(p.basis.side, c))
  {
    QuietCandle(Unpinned(p), c, time, cfg);
  }

  lemma SameTouch(p: Position, q: Position, price: real)
    requires p.basis == q.basis && SameLevels(p, q)
    ensures StopTouched(p, price) == StopTouched(q, price)
  {
  }

  lemma QuietStep(gap: Gap, r: Protected, time: int, quality: Quality, cfg: Config, policy: Option<Policy>)
    requires time < gap.quote.at
    requires FromMinutes(gap, r, time, quality, cfg, policy).Done? && FromMinutes(gap, r, time, quality, cfg, policy).value.settlement.None?
    ensures time + MINUTE <= gap.quote.at && time in gap.inputs.minutes && ValidCandle(gap.inputs.minutes[time])
    ensures var c, side := gap.inputs.minutes[time], r.position.basis.side;
            var during := PolicyThroughout(policy, time);
            var u := Advance(r, Favourable(side, c), time + MINUTE, cfg, during);
            && !StopTouched(r.position, Adverse(side, c)) && !TakeTouched(r.position, Favourable(side, c))
            && (time < gap.since ==>
                  && SameLevels(u.position, r.position)
                  && FromMinutes(gap, r, time + MINUTE, BoundedMinutes, cfg, policy) == FromMinutes(gap, r, time, quality, cfg, policy))
            && (time >= gap.since ==>
                  && !StopTouched(u.position, Adverse(side, c))
                  && FromMinutes(gap, Advance(u, c.close, time + MINUTE, cfg, during), time + MINUTE, quality, cfg, policy) ==
                     FromMinutes(gap, r, time, quality, cfg, policy))
  {
    hide Advance, Settle, CandleExit, StopTouched, TakeTouched;
    if CandleExit(Unpinned(r.position), gap.inputs.minutes[time], time, cfg).None? {
      QuietUnpinned(r.position, gap.inputs.minutes[time], time, cfg);
    }
  }

  lemma InStepBasis(r: Protected, a: Protected, cfg: ConfigData, policy: Option<Policy>, on: bool)
    requires (on ==> policy.Some?) && InStep(r, a, cfg, policy, on)
    ensures a.position.basis == r.position.basis && SameLevels(r.position, a.position)
  {
  }

  /** Recovery hands a bar to the policy exactly when the policy is on from its beginning. */
  lemma OnForMinute(b: Basis, time: int, policy: Option<Policy>)
    requires b.openedAt <= time + MINUTE
    ensures var during := PolicyThroughout(policy, time);
            && (OnFrom(policy, time) ==> policy.Some? && during == policy)
            && OnFrom(policy, time) == PolicyActive(b, during, time + MINUTE)
  {
  }

  /** Minute by minute, every path inside the bars stays open and in step with the recovery. */
  lemma {:induction false} MinutesAreSound(gap: Gap, r: Protected, a: Protected, time: int, quality: Quality, path: Path, cfg: Config, policy: Option<Policy>)
    requires time % MINUTE == 0 && MinuteOf(gap.since) <= time
    requires r.position.basis == gap.start.position.basis && r.position.basis.openedAt <= gap.since
    requires !SplitsBar(gap.since, gap.quote.at, policy) && FitsFrom(gap, path, time)
    requires InStep(r, a, cfg, policy, OnFrom(policy, time)) && PeaksBeforeTake(r) && PeaksBeforeTake(a)
    requires FromMinutes(gap, r, time, quality, cfg, policy).Done? && FromMinutes(gap, r, time, quality, cfg, policy).value.settlement.None?
    ensures var walk := Follow(a, Ticks(path, time, gap.quote.at), cfg, policy);
            walk.Open? && SameLevels(FromMinutes(gap, r, time, quality, cfg, policy).value.now.position, walk.now.position)
    decreases gap.quote.at - time
  {
    hide Advance, Settle, StopTouched, TakeTouched, FromMinutes, Follow, InStep, CandleExit;
    var on := OnFrom(policy, time);
    InStepBasis(r, a, cfg, policy, on);
    if time < gap.quote.at {
      QuietStep(gap, r, time, quality, cfg, policy);
      var c, side := gap.inputs.minutes[time], r.position.basis.side;
      var top: Price, end, during := Favourable(side, c), time + MINUTE, PolicyThroughout(policy, time);
      var u := Advance(r, top, end, cfg, during);
      TickActivity(gap, r.position.basis, path(time), time, policy);
      OnForMinute(r.position.basis, time, policy);
      AdvanceTightens(r, top, end, cfg, during);
      FollowAppend(a, path(time), Ticks(path, end, gap.quote.at), cfg, policy);
      if time < gap.since {
        SameTouch(u.position, r.position, Adverse(side, c));
        PartialMinute(r, a, top, Adverse(side, c), end, during, path(time), cfg, policy, on);
        SwitchKeepsStep(r, Follow(a, path(time), cfg, policy).now, time, end, cfg, policy);
        MinutesAreSound(gap, r, Follow(a, path(time), cfg, policy).now, end, BoundedMinutes, path, cfg, policy);
      } else {
        CompleteMinute(r, a, top, Adverse(side, c), end, during, path(time), cfg, policy, on);
        StillBeforeTake(r.position, top, top);
        AdvanceAbsorbs(r, top, c.close, end, cfg, during);
        SwitchKeepsStep(u, Follow(a, path(time), cfg, policy).now, time, end, cfg, policy);
        MinutesAreSound(gap, u, Follow(a, path(time), cfg, policy).now, end, quality, path, cfg, policy);
      }
    } else {
      MinutesEnd(gap, r, a, time, quality, path, cfg, policy);
    }
  }

  lemma MinutesEnd(gap: Gap, r: Protected, a: Protected, time: int, quality: Quality, path: Path, cfg: ConfigData, policy: Option<Policy>)
    requires time >= gap.quote.at
    ensures FromMinutes(gap, r, time, quality, cfg, policy).Done? && FromMinutes(gap, r, time, quality, cfg, policy).value.now == r
    ensures Follow(a, Ticks(path, time, gap.quote.at), cfg, policy) == Open(a)
  {
  }

  // ---------------------------------------------------------------- the earlier recovery

  lemma QuietLegacyStep(gap: Gap, now: Position, time: int, last: int, evidence: Evidence, cfg: Config)
    requires time <= last && MinutesPresent(gap.inputs.minutes, time, last)
    requires LegacyFrom(gap, now, time, last, evidence, cfg).settlement.None?
    ensures var c, side := gap.inputs.minutes[time], now.basis.side;
            var u := UpdateProtection(now, Favourable(side, c), cfg, cfg.exit);
            && !StopTouched(now, Adverse(side, c)) && !TakeTouched(now, Favourable(side, c))
            && !StopTouched(u, Adverse(side, c))
            && (!Complete(gap, time) ==> SameLevels(u, now))
            && LegacyFrom(gap, if Complete(gap, time) then u else now, time + MINUTE, last, evidence, cfg) ==
               LegacyFrom(gap, now, time, last, evidence, cfg)
  {
    hide UpdateProtection, Settle, CandleExit, StopTouched, TakeTouched;
    if CandleExit(now, gap.inputs.minutes[time], time, cfg).None? {
      QuietCandle(now, gap.inputs.minutes[time], time, cfg);
    }
  }

  lemma {:induction false} LegacyIsSound(gap: Gap, r: Protected, a: Protected, time: int, evidence: Evidence, path: Path, cfg: Config)
    requires var last := MinuteOf(gap.quote.at - 1);
             && MinutesPresent(gap.inputs.minutes, time, last)
             && LegacyFrom(gap, r.position, time, last, evidence, cfg).settlement.None?
    requires time % MINUTE == 0 && MinuteOf(gap.since) <= time && r.state == gap.start.state
    requires r.position.basis == gap.start.position.basis && r.position.basis.openedAt <= gap.since
    requires FitsFrom(gap, path, time)
    requires InStep(r, a, cfg, None, false) && PeaksBeforeTake(r) && PeaksBeforeTake(a)
    ensures var walk := Follow(a, Ticks(path, time, gap.quote.at), cfg, None);
            walk.Open? && SameLevels(LegacyFrom(gap, r.position, time, MinuteOf(gap.quote.at - 1), evidence, cfg).now.position, walk.now.position)
    decreases gap.quote.at - time
  {
    hide Advance, UpdateProtection, Settle, StopTouched, TakeTouched, LegacyFrom, Follow, CandleExit;
    var last := MinuteOf(gap.quote.at - 1);
    if time < gap.quote.at {
      QuietLegacyStep(gap, r.position, time, last, evidence, cfg);
      var c, side := gap.inputs.minutes[time], r.position.basis.side;
      var top: Price, end := Favourable(side, c), time + MINUTE;
      var u := Advance(r, top, end, cfg, None);
      OwnStep(r, top, end, cfg);
      TickActivity(gap, r.position.basis, path(time), time, None);
      AdvanceTightens(r, top, end, cfg, None);
      FollowAppend(a, path(time), Ticks(path, end, gap.quote.at), cfg, None);
      if Complete(gap, time) {
        CompleteMinute(r, a, top, Adverse(side, c), end, None, path(time), cfg, None, false);
        LegacyIsSound(gap, u, Follow(a, path(time), cfg, None).now, end, evidence, path, cfg);
      } else {
        PartialMinute(r, a, top, Adverse(side, c), end, None, path(time), cfg, None, false);
        LegacyIsSound(gap, r, Follow(a, path(time), cfg, None).now, end, evidence, path, cfg);
      }
    } else {
      LegacyEnd(gap, r.position, a, time, evidence, path, cfg);
    }
  }

  lemma OwnStep(r: Protected, top: Price, at: int, cfg: ConfigData)
    ensures Advance(r, top, at, cfg, None) == Protected(UpdateProtection(r.position, top, cfg, cfg.exit), r.state)
  {
  }

  lemma LegacyEnd(gap: Gap, now: Position, a: Protected, time: int, evidence: Evidence, path: Path, cfg: ConfigData)
    requires time >= gap.quote.at
    ensures var last := MinuteOf(gap.quote.at - 1);
            time > last && LegacyFrom(gap, now, time, last, evidence, cfg).now.position == now
    ensures Follow(a, Ticks(path, time, gap.quote.at), cfg, None) == Open(a)
  {
  }
}
