/** The side path that looks for an exit at confirmed levels while a position waits for its history. */
module PriorityExit {
  import opened Common
  import opened Engine
  import opened EngineLaws
  import opened Recovery
  import opened TickProcessor
  import opened TickProcessorLaws
  import opened BatchLaws
  import opened TickExactness

  function IdsUpTo(events: seq<Event>, id: int): seq<Event> {
    if events == [] then []
    else (if events[0].id <= id then [events[0]] else []) + IdsUpTo(events[1..], id)
  }

  /** The stored ticks up to the latest one, and the latest one itself if it is not among them. */
  function PriorityCandidates(events: seq<Event>, latest: Event): seq<Event> {
    var known := IdsUpTo(events, latest.id);
    if latest.id > (if known == [] then 0 else known[|known| - 1].id) then known + [latest] else known
  }

  method CollectCandidates(events: seq<Event>, latest: Event) returns (candidates: seq<Event>)
    ensures candidates == PriorityCandidates(events, latest)
  {
    candidates := [];
    for i := 0 to |events|
      invariant IdsUpTo(events, latest.id) == candidates + IdsUpTo(events[i..], latest.id)
    {
      assert events[i..][0] == events[i] && events[i..][1..] == events[i + 1..];
      if events[i].id <= latest.id { candidates := candidates + [events[i]]; }
    }
    assert events[|events|..] == [];
    if latest.id > (if candidates == [] then 0 else candidates[|candidates| - 1].id) { candidates := candidates + [latest]; }
  }

  method SelectPriorityExit(p: Position, through: int, events: seq<Event>, latest: Event, cfg: Config) returns (selected: Option<Found>)
    ensures selected == FirstExit(p, through, PriorityCandidates(events, latest), cfg)
  {
    var candidates := CollectCandidates(events, latest);
    selected := FindExit(p, through, candidates, cfg);
  }

  /** The stored ticks up to the latest one in order, and the latest one itself if none of them has its id. */
  ghost predicate Prioritised(events: seq<Event>, latest: Event, candidates: seq<Event>) {
    && Rising(candidates)
    && forall x :: x in candidates <==> (x in events && x.id <= latest.id) || (x == latest && forall y :: y in events ==> y.id != latest.id)
  }

  lemma {:induction false} IdsUpToExactly(events: seq<Event>, id: int)
    requires Rising(events)
    ensures Rising(IdsUpTo(events, id)) && forall x :: x in IdsUpTo(events, id) <==> x in events && x.id <= id
    decreases |events|
  {
    hide Rising;
    if events == [] {
      NothingRises();
    } else {
      var e, rest := events[0], IdsUpTo(events[1..], id);
      RisingTail(events);
      IdsUpToExactly(events[1..], id);
      assert forall x :: x in events <==> x == e || x in events[1..];
      OneBefore(e, rest);
      assert [] + rest == rest;
    }
  }

  /** The side path closes with the first of these ticks that closes the position as confirmed, and with none if none does. */
  lemma PriorityExitExactly(p: Position, through: int, events: seq<Event>, latest: Event, cfg: Config) returns (candidates: seq<Event>)
    requires Rising(events) && latest.id > 0
    ensures Prioritised(events, latest, candidates)
    ensures var found := FirstExit(p, through, PriorityCandidates(events, latest), cfg);
            if found.None? then forall e :: e in candidates ==> !Closes(p, through, e)
            else exists i: nat :: FirstToClose(p, through, candidates, i) && found.value.event == candidates[i]
                                  && ClosesWith(p, candidates[i], found.value.settlement, cfg)
  {
    hide FirstExit, Closes, ClosesWith, FirstToClose, IdsUpTo;
    candidates := PriorityCandidates(events, latest);
    IdsUpToExactly(events, latest.id);
    var known := IdsUpTo(events, latest.id);
    if known != [] {
      RisingLast(known);
      assert known[|known| - 1] in known;
    }
    FirstExitExactly(p, through, candidates, cfg);
  }

  lemma {:induction false} FoundExits(p: Position, through: int, events: seq<Event>, cfg: Config)
    ensures var found := FirstExit(p, through, events, cfg);
            found.Some? ==> && found.value.event in events && found.value.event.observedAt >= p.basis.openedAt
                            && TickExit(p, found.value.event.price, found.value.event.observedAt, cfg) == Some(found.value.settlement)
    decreases |events|
  {
    hide TickExit;
    if events != [] { FoundExits(p, through, events[1..], cfg); }
  }

  /** A tick that exits a position exits every tighter one, at any later reading of the clock. */
  lemma ExitIsMonotone(p: Position, q: Position, price: Price, at: int, later: int, cfg: Config)
    requires Tighter(q, p) && later >= at && TickExit(p, price, at, cfg).Some?
    ensures TickExit(q, price, later, cfg).Some?
  {
    hide Settle, Touched;
    if Touched(p, price) { TouchedMonotone(q, p, price); }
  }

  lemma StepExits(live: Live, e: Event, env: Env, p: Position)
    requires SafeRecover(env) && Tighter(live.now.position, p) && !PreOpen(live, e)
    requires TickExit(p, e.price, e.observedAt, env.cfg).Some?
    ensures StepOn(live, e, env).Stepped? ==> StepOn(live, e, env).settlement.Some?
    ensures !StepOn(live, e, env).SignalFailed?
  {
    hide Advance, PriceExit, HoldingExit, Settle, ScanSignals, Touched, TickExit;
    var now := live.now.position;
    if StreamChanged(live, e) {
      var r := env.recover(live.now, live.through, e.(observedAt := QuoteAt(live, e)), live.anchor);
      if r.Done? {
        now := r.value.now.position;
        TighterTransitive(now, live.now.position, p);
        ExitIsMonotone(p, now, e.price, e.observedAt, QuoteAt(live, e), env.cfg);
      }
    } else {
      ExitIsMonotone(p, now, e.price, e.observedAt, QuoteAt(live, e), env.cfg);
    }
  }

  function Answer(live: Live, e: Event, env: Env): Result {
    env.recover(live.now, live.through, e.(observedAt := QuoteAt(live, e)), live.anchor)
  }

  /** Every recovery that the run asks for, up to its end, is answered. */
  predicate Answered(live: Live, events: seq<Event>, env: Env)
    decreases |events|
  {
    events != [] ==>
      if PreOpen(live, events[0]) then Answered(live, events[1..], env)
      else
        && (StreamChanged(live, events[0]) ==> Answer(live, events[0], env).Done?)
        && var s := StepOn(live, events[0], env);
           (s.Stepped? && s.settlement.None? ==> Answered(s.live, events[1..], env))
  }

  lemma FailsUnanswered(live: Live, e: Event, env: Env)
    ensures StepOn(live, e, env).RecoveryFailed? <==> StreamChanged(live, e) && !Answer(live, e, env).Done?
  {
    hide Advance, PriceExit, HoldingExit, Settle, ScanSignals;
  }

  lemma {:induction false} FoldExitsBy(live: Live, events: seq<Event>, k: nat, env: Env, p: Position)
    requires SafeRecover(env) && SignalsWellFormed(env, live.now.position.basis)
    requires Tighter(live.now.position, p) && k < |events|
    requires events[k].observedAt >= p.basis.openedAt
    requires TickExit(p, events[k].price, events[k].observedAt, env.cfg).Some?
    ensures ExitsBy(live, events, k, env)
    decreases |events|
  {
    hide StepOn, TickExit, SafeRecover, SignalsWellFormed, Answer;
    var e := events[0];
    if PreOpen(live, e) {
      FoldExitsBy(live, events[1..], k - 1, env, p);
    } else {
      FailsUnanswered(live, e, env);
      StepNeverRejectsSignals(live, e, env);
      if k == 0 { StepExits(live, e, env, p); }
      var s := StepOn(live, e, env);
      if s.Stepped? && s.settlement.None? {
        StepIsMonotone(live, e, env);
        TighterTransitive(s.live.now.position, live.now.position, p);
        FoldExitsBy(s.live, events[1..], k - 1, env, p);
      }
    }
  }

  /** The run ends by tick k: it closes the position exactly if its recoveries are answered, and otherwise stops for one. */
  predicate ExitsBy(live: Live, events: seq<Event>, k: nat, env: Env) {
    var f := Fold(live, events, env);
    && f.count <= k + 1
    && (f.settlement.Some? <==> Answered(live, events, env))
    && (f.settlement.None? <==> f.stopped == Some(RecoveryMissing))
  }

  /**
   A priority exit is never spurious: if the scan at fixed levels selects a tick, full processing of any list of ticks
   containing it, from that position, closes at that tick or earlier if and only if the recoveries it asks for until
   then are answered; the only other way it can end is at the first one that is not.
   */
  lemma PriorityExitsAreReal(live: Live, events: seq<Event>, latest: Event, list: seq<Event>, k: nat, env: Env)
    requires SafeRecover(env) && SignalsWellFormed(env, live.now.position.basis)
    requires var found := FirstExit(live.now.position, live.through, PriorityCandidates(events, latest), env.cfg);
             found.Some? && k < |list| && list[k] == found.value.event
    ensures var f := Fold(live, list, env);
            && f.count <= k + 1
            && (f.settlement.Some? <==> Answered(live, list, env))
            && (f.settlement.None? <==> f.stopped == Some(RecoveryMissing))
  {
    hide TickExit, Fold, SafeRecover, SignalsWellFormed, Answered;
    FoundExits(live.now.position, live.through, PriorityCandidates(events, latest), env.cfg);
    FoldExitsBy(live, list, k, env, live.now.position);
  }
}
