/** What a live batch records at its checkpoints is enough to replay them. */
module LiveRecording {
  import opened Common
  import opened Engine
  import opened Recovery
  import opened TickProcessor
  import opened TickProcessorLaws
  import opened BatchLaws
  import opened RuntimeTheorems
  import opened TraceReplay
  import opened ReplayLaws

  type Fetch = (int, int, Option<int>) -> Inputs

  /** The rules of a live batch: histories are fetched per tick, everything is protected first. */
  ghost predicate LiveRules(env: Env, b: Basis, fetch: Fetch) {
    && env.recover == RuntimeRecover(env.cfg, env.policy, fetch)
    && env.signals.Some? == b.signalExitEnabled
    && SignalsWellFormed(env, b)
    && (env.latest.Some? ==>
          env.batch != [] && (env.latest.value in env.batch || env.latest.value.id > Last(env.batch).id || env.latest.value.id < env.batch[0].id))
  }

  /** The recoveries performed while these ticks were taken, with the inputs fetched for each. */
  function GapsIn(live: Live, events: seq<Event>, env: Env, fetch: Fetch): seq<RecordedRecovery>
    decreases |events|
  {
    if events == [] then []
    else
      var e := events[0];
      if PreOpen(live, e) then GapsIn(live, events[1..], env, fetch)
      else
        var own := if StreamChanged(live, e) then [RecordedRecovery(e.id, live.through, true, fetch(e.id, live.through, live.anchor))] else [];
        var s := StepOn(live, e, env);
        own + if s.Stepped? && s.settlement.None? then GapsIn(s.live, events[1..], env, fetch) else []
  }

  /** Signals were loaded while these ticks were taken. */
  predicate Consulted(live: Live, events: seq<Event>, env: Env)
    decreases |events|
  {
    events != [] &&
      if PreOpen(live, events[0]) then Consulted(live, events[1..], env)
      else
        var s := StepOn(live, events[0], env);
        s.Stepped? && (s.consulted || (s.settlement.None? && Consulted(s.live, events[1..], env)))
  }

  /** The trace inputs at the checkpoint of a prefix: what had been loaded and recovered by then. */
  function InputsAt(live: Live, taken: seq<Event>, env: Env, fetch: Fetch): TraceInputs
    requires env.batch != []
  {
    TraceInputs(env.batch[0].id, env.policy,
                if env.signals.Some? && Consulted(live, taken, env) then env.signals.value else [],
                GapsIn(live, taken, env, fetch), env.protectFirst, env.latest)
  }

  function RecordOf(cp: Checkpoint, inputs: TraceInputs): Record {
    var levels := LevelsOf(cp.now.position);
    Record(cp.event.id,
           Payload(Some(inputs), if cp.settlement.Some? then Close(cp.settlement.value, Some(levels)) else Update(levels),
                   cp.mark, cp.through, cp.now.state, cp.signalAt))
  }

  // ---------------------------------------------------------------- the recorded recoveries are found again

  lemma {:induction false} GapsAppend(live: Live, a: seq<Event>, b: seq<Event>, env: Env, fetch: Fetch, mid: Live)
    requires Ran(live, a, env, mid)
    ensures GapsIn(live, a + b, env, fetch) == GapsIn(live, a, env, fetch) + GapsIn(mid, b, env, fetch)
    ensures Consulted(live, a + b, env) == (Consulted(live, a, env) || Consulted(mid, b, env))
    decreases |a|
  {
    hide StepOn, PreOpen, StreamChanged, TakeTick, OpensWithin;
    if a == [] {
      assert a + b == b;
    } else {
      assert (a + b)[0] == a[0] && (a + b)[1..] == a[1..] + b;
      if PreOpen(live, a[0]) { GapsAppend(live, a[1..], b, env, fetch, mid); }
      else { GapsAppend(StepOn(live, a[0], env).live, a[1..], b, env, fetch, mid); }
    }
  }

  lemma {:induction false} GapIds(live: Live, events: seq<Event>, env: Env, fetch: Fetch, g: RecordedRecovery)
    ensures g in GapsIn(live, events, env, fetch) ==> exists e :: e in events && e.id == g.eventId
    decreases |events|
  {
    hide StepOn, PreOpen, StreamChanged;
    if events != [] {
      assert events[0] in events;
      forall e | e in events[1..] ensures e in events { }
      GapIds(live, events[1..], env, fetch, g);
      if StepOn(live, events[0], env).Stepped? { GapIds(StepOn(live, events[0], env).live, events[1..], env, fetch, g); }
    }
  }

  lemma {:induction false} GapIsFound(live: Live, events: seq<Event>, env: Env, fetch: Fetch, g: RecordedRecovery)
    requires InOrderIds(events) && g in GapsIn(live, events, env, fetch)
    ensures FindRecovery(GapsIn(live, events, env, fetch), g.eventId) == Some(g)
    decreases |events|
  {
    hide StepOn, PreOpen, StreamChanged;
    var e := events[0];
    if PreOpen(live, e) {
      GapIsFound(live, events[1..], env, fetch, g);
    } else {
      var s := StepOn(live, e, env);
      var own := if StreamChanged(live, e) then [RecordedRecovery(e.id, live.through, true, fetch(e.id, live.through, live.anchor))] else [];
      var rest := if s.Stepped? && s.settlement.None? then GapsIn(s.live, events[1..], env, fetch) else [];
      assert GapsIn(live, events, env, fetch) == own + rest;
      assert own == [] ==> own + rest == rest;
      assert own != [] ==> (own + rest)[1..] == rest;
      if g in rest {
        GapIsFound(s.live, events[1..], env, fetch, g);
        GapIds(s.live, events[1..], env, fetch, g);
        var later :| later in events[1..] && later.id == g.eventId;
        IdsInside(events[1..], e.id);
      }
    }
  }

  // ---------------------------------------------------------------- the recorded rules give the live steps

  /** Every gap of this run is among the recorded recoveries, and the recorded signals suffice for it. */
  ghost predicate Suffices(live: Live, events: seq<Event>, env: Env, fetch: Fetch, inputs: TraceInputs) {
    && inputs.policy == env.policy
    && (forall g :: g in GapsIn(live, events, env, fetch) ==> Recorded(inputs.recoveries, g.eventId, g.since) == Some(g))
    && (env.signals.Some? ==> inputs.signals == env.signals.value || !Consulted(live, events, env))
  }

  lemma TickWithoutSignals(live: Live, e: Event, env: Env, env': Env, gap: Option<GapNote>)
    requires env'.cfg == env.cfg && env'.policy == env.policy
    requires env'.signals == env.signals
      || (env.signals.Some? && env'.signals.Some? && TakeTick(live, e, env, gap).Stepped? && !TakeTick(live, e, env, gap).consulted)
    ensures TakeTick(live, e, env', gap) == TakeTick(live, e, env, gap)
  {
    hide Advance, PriceExit, HoldingExit, Settle, ScanSignals, TickExit, LastClosed, Baseline;
  }

  lemma StepFromRecord(live: Live, e: Event, events: seq<Event>, env: Env, fetch: Fetch, inputs: TraceInputs)
    requires LiveRules(env, live.now.position.basis, fetch) && SafeRecover(env)
    requires events != [] && events[0] == e && !PreOpen(live, e)
    requires Suffices(live, events, env, fetch, inputs) && StepOn(live, e, env).Stepped?
    ensures StepOn(live, e, RecordRules(env.cfg, live.now.position.basis, inputs)) == StepOn(live, e, env)
  {
    hide Advance, TakeTick, CausalRecovery, LegacyRecovery, SafeRecover;
    var rules := RecordRules(env.cfg, live.now.position.basis, inputs);
    if StreamChanged(live, e) {
      var g := RecordedRecovery(e.id, live.through, true, fetch(e.id, live.through, live.anchor));
      assert g in GapsIn(live, events, env, fetch);
      var q := e.(observedAt := QuoteAt(live, e));
      assert rules.recover(live.now, live.through, q, live.anchor) == env.recover(live.now, live.through, q, live.anchor);
      var r := env.recover(live.now, live.through, q, live.anchor);
      if r.Done? {
        var gap := Some(GapNote(if live.stream.None? then UnconfirmedStream else StreamChange, r.value.evidence));
        if r.value.settlement.None? { TickWithoutSignals(live.(now := r.value.now), e, env, rules, gap); }
      }
    } else {
      TickWithoutSignals(live, e, env, rules, None);
    }
  }

  lemma SufficesAfter(live: Live, events: seq<Event>, env: Env, fetch: Fetch, inputs: TraceInputs)
    requires events != [] && Suffices(live, events, env, fetch, inputs)
    ensures PreOpen(live, events[0]) ==> Suffices(live, events[1..], env, fetch, inputs)
    ensures !PreOpen(live, events[0]) && StepOn(live, events[0], env).Stepped? && StepOn(live, events[0], env).settlement.None? ==>
              Suffices(StepOn(live, events[0], env).live, events[1..], env, fetch, inputs)
  {
    hide StepOn, PreOpen, StreamChanged, Recorded;
  }

  lemma {:induction false} RecordAgrees(live: Live, events: seq<Event>, env: Env, fetch: Fetch, inputs: TraceInputs)
    requires LiveRules(env, live.now.position.basis, fetch) && SafeRecover(env)
    requires Suffices(live, events, env, fetch, inputs)
    requires Fold(live, events, env).count == |events| && Fold(live, events, env).stopped.None?
    ensures Agrees(live, events, env, RecordRules(env.cfg, live.now.position.basis, inputs))
    decreases |events|
  {
    hide StepOn, PreOpen, LiveRules, SafeRecover, Suffices, RecordRules;
    if events != [] {
      var e := events[0];
      SufficesAfter(live, events, env, fetch, inputs);
      if PreOpen(live, e) {
        RecordAgrees(live, events[1..], env, fetch, inputs);
      } else {
        StepFromRecord(live, e, events, env, fetch, inputs);
        StepIsMonotone(live, e, env);
        if StepOn(live, e, env).settlement.None? { RecordAgrees(StepOn(live, e, env).live, events[1..], env, fetch, inputs); }
      }
    }
  }

  // ---------------------------------------------------------------- the live look-ahead covers the replayed one

  lemma {:induction false} EachIsQuiet(p: Position, through: int, events: seq<Event>, cfg: Config, c: Event)
    requires FirstExit(p, through, events, cfg).None? && c in events
    ensures FirstExit(p, through, [c], cfg).None?
    decreases |events|
  {
    hide TickExit;
    if events[0] != c { EachIsQuiet(p, through, events[1..], cfg, c); }
  }

  function PoolOf(env: Env): seq<Event> {
    env.batch + if env.latest.Some? then [env.latest.value] else []
  }

  lemma PoolIsCandidate(env: Env, b: Basis, fetch: Fetch, e: Event, c: Event)
    requires LiveRules(env, b, fetch) && InOrderIds(env.batch) && e in env.batch && c in PoolOf(env) && c.id >= e.id
    ensures c in Candidates(e, env)
  {
    if c in env.batch {
      IdsFromHas(env.batch, e.id, c);
    } else {
      IdsFromFirst(env.batch);
      IdsFromHas(env.batch, e.id, e);
      var ahead := IdsFrom(env.batch, e.id);
      IdsFromIn(env.batch, e.id, ahead[|ahead| - 1]);
      IdsInside(env.batch, env.batch[0].id - 1);
    }
  }

  lemma {:induction false} QuietIsNothingAhead(live: Live, events: seq<Event>, env: Env, fetch: Fetch, b: Basis)
    requires LiveRules(env, b, fetch) && InOrderIds(env.batch) && (forall e :: e in events ==> e in env.batch)
    requires QuietAhead(live, events, env)
    ensures NothingAhead(live, events, env, PoolOf(env))
    decreases |events|
  {
    hide StepOn, PreOpen, FirstExit, Candidates, LiveRules, PoolOf, InOrderIds;
    if events != [] {
      var e := events[0];
      assert e in events;
      forall x | x in events[1..] ensures x in env.batch { assert x in events; }
      if PreOpen(live, e) {
        QuietIsNothingAhead(live, events[1..], env, fetch, b);
      } else {
        if StreamChanged(live, e) && env.protectFirst {
          forall c | c in PoolOf(env) && c.id >= e.id ensures FirstExit(live.now.position, live.through, [c], env.cfg).None? {
            PoolIsCandidate(env, b, fetch, e, c);
            EachIsQuiet(live.now.position, live.through, Candidates(e, env), env.cfg, c);
          }
        }
        var s := StepOn(live, e, env);
        if s.Stepped? && s.settlement.None? { QuietIsNothingAhead(s.live, events[1..], env, fetch, b); }
      }
    }
  }

  // ---------------------------------------------------------------- a leg for every checkpoint

  /** What replay reads between the ticks `m` and `n` of a batch agrees with the live run, and nothing ahead exits. */
  lemma PartAgrees(live: Live, env: Env, fetch: Fetch, m: nat, n: nat)
    requires m < n <= |env.batch| && InOrderIds(env.batch) && LiveRules(env, live.now.position.basis, fetch)
    requires QuietAhead(live, env.batch[..n], env)
    requires Fold(live, env.batch[..n], env).count == n && Fold(live, env.batch[..n], env).stopped.None?
    ensures var mid, z, b := Fold(live, env.batch[..m], env).live, env.batch[m..n], live.now.position.basis;
            && mid.now.position.basis == b
            && Agrees(mid, z, env, RecordRules(env.cfg, b, InputsAt(live, env.batch[..n], env, fetch)))
            && NothingAhead(mid, z, env, PoolOf(env))
  {
    hide Fold, GapsIn, Consulted, QuietAhead, Agrees, NothingAhead, LiveRules, SafeRecover, RecordRules, PoolOf, InputsAt, Suffices, InOrderIds,
         RuntimeRecover, StepOn, PreOpen;
    var a, z := env.batch[..m], env.batch[m..n];
    assert env.batch[..n] == a + z;
    RulesAreLive(env, live.now.position.basis, fetch);
    RuntimeRecoverIsSafe(env, fetch);
    FoldCut(live, a, z, env);
    FinalIsWithin(live, a, env);
    OrderOfPart(env.batch, m, n);
    var mid := Fold(live, a, env).live;
    RecordSuffices(live, a, z, env, fetch, mid);
    RecordAgrees(mid, z, env, fetch, InputsAt(live, a + z, env, fetch));
    QuietIsNothingAhead(live, a + z, env, fetch, live.now.position.basis);
    NothingAheadSplit(live, a, z, env, PoolOf(env));
  }

  lemma PartIsInPool(live: Live, mid: Live, env: Env, m: nat, n: nat)
    requires m < n <= |env.batch| && InOrderIds(env.batch) && mid.now.position.basis == live.now.position.basis
    requires forall e :: e in env.batch ==> !PreOpen(live, e)
    requires live.anchor.Some? && live.anchor.value < env.batch[0].id
    ensures var z := env.batch[m..n];
            && InOrderIds(z) && env.batch[0].id <= z[0].id && z[0].id > (if m == 0 then live.anchor.value else env.batch[m - 1].id)
            && forall e :: e in z ==> !PreOpen(mid, e) && e in PoolOf(env)
  {
    hide PreOpen, PoolOf, InOrderIds;
    OrderOfPart(env.batch, m, n);
    OpeningIsFixed(live, mid, env.batch);
    IdsFromFirst(env.batch);
    forall e | e in env.batch[m..n] ensures e in env.batch && e in PoolOf(env) { InPool(env, e); }
  }

  /**
   Between two checkpoints of one live batch, after `m` and after `n` ticks, the trace written at the second
   is a faithful record of the ticks between them.
   */
  lemma BatchRecordsLegs(live: Live, env: Env, fetch: Fetch, m: nat, n: nat, cp: Checkpoint)
    requires 0 <= m < n <= |env.batch| && InOrderIds(env.batch) && LiveRules(env, live.now.position.basis, fetch)
    requires forall e :: e in env.batch ==> !PreOpen(live, e)
    requires QuietAhead(live, env.batch[..n], env)
    requires Fold(live, env.batch[..n], env).count == n && Fold(live, env.batch[..n], env).stopped.None?
    requires Records(cp, Fold(live, env.batch[..n], env).live, Fold(live, env.batch[..n], env).settlement, env.batch[n - 1])
    requires live.anchor.Some? && live.anchor.value < env.batch[0].id
    ensures var mid := Fold(live, env.batch[..m], env).live;
            var inputs := InputsAt(live, env.batch[..n], env, fetch);
            var leg := Leg(env.batch[m..n], env, RecordOf(cp, inputs), PoolOf(env));
            FaithfulLeg(mid, if m == 0 then live.anchor.value else env.batch[m - 1].id, leg, env.cfg)
  {
    hide Fold, GapsIn, Consulted, QuietAhead, Agrees, NothingAhead, LiveRules, PreOpen, RecordRules, RecordHolds, RecordOf, Records, PoolOf,
         InputsAt, InOrderIds, SignalsWellFormed, StepOn;
    var a, z, all := env.batch[..m], env.batch[m..n], env.batch[..n];
    assert all == a + z && all[0] == env.batch[0];
    var inputs := InputsAt(live, all, env, fetch);
    FoldCut(live, a, z, env);
    var mid := Fold(live, a, env).live;
    PartAgrees(live, env, fetch, m, n);
    PartIsInPool(live, mid, env, m, n);
    InputsAre(live, all, env, fetch, live.now.position.basis);
    RecordIsHeld(cp, inputs, Fold(mid, z, env), Fold(live, all, env), env.batch[n - 1]);
  }

  lemma InPool(env: Env, e: Event)
    ensures e in env.batch ==> e in PoolOf(env)
    ensures Some(e) == env.latest ==> e in PoolOf(env)
  {
  }

  lemma RecordIsHeld(cp: Checkpoint, inputs: TraceInputs, f: Progress, whole: Progress, e: Event)
    requires Records(cp, whole.live, whole.settlement, e) && f.live == whole.live && f.settlement == whole.settlement
    ensures RecordHolds(RecordOf(cp, inputs), f, e.id)
    ensures RecordOf(cp, inputs).payload.inputs == Some(inputs)
  {
  }

  lemma RecordSuffices(live: Live, a: seq<Event>, z: seq<Event>, env: Env, fetch: Fetch, mid: Live)
    requires Ran(live, a, env, mid) && env.batch != [] && InOrderIds(a + z)
    ensures Suffices(mid, z, env, fetch, InputsAt(live, a + z, env, fetch))
  {
    hide Fold, GapsIn, Consulted, InOrderIds;
    var inputs := InputsAt(live, a + z, env, fetch);
    GapsAppend(live, a, z, env, fetch, mid);
    forall g | g in GapsIn(mid, z, env, fetch) ensures Recorded(inputs.recoveries, g.eventId, g.since) == Some(g) {
      GapIsFound(live, a + z, env, fetch, g);
    }
  }

  lemma InputsAre(live: Live, taken: seq<Event>, env: Env, fetch: Fetch, b: Basis)
    requires env.batch != [] && LiveRules(env, b, fetch)
    ensures var inputs := InputsAt(live, taken, env, fetch);
            && inputs.firstEventId == env.batch[0].id && inputs.protectFirst == env.protectFirst
            && (inputs.latest.Some? ==> inputs.latest.value in PoolOf(env))
            && SignalsWellFormed(RecordRules(env.cfg, b, inputs), b)
  {
    hide GapsIn, Consulted;
    SignalsOfRecord(env, b, fetch, InputsAt(live, taken, env, fetch));
  }

  lemma RulesAreLive(env: Env, b: Basis, fetch: Fetch)
    requires LiveRules(env, b, fetch)
    ensures env.recover == RuntimeRecover(env.cfg, env.policy, fetch)
  {
  }

  lemma SignalsOfRecord(env: Env, b: Basis, fetch: Fetch, inputs: TraceInputs)
    requires LiveRules(env, b, fetch) && (inputs.signals == [] || Some(inputs.signals) == env.signals)
    ensures SignalsWellFormed(RecordRules(env.cfg, b, inputs), b)
  {
  }

  lemma OrderOfPart(events: seq<Event>, m: nat, n: nat)
    requires InOrderIds(events) && m < n <= |events|
    ensures InOrderIds(events[m..n]) && InOrderIds(events[..n]) && (m > 0 ==> events[m - 1].id < events[m..n][0].id) && events[m..n][0] == events[m]
  {
  }

  lemma {:induction false} NothingAheadSplit(live: Live, a: seq<Event>, b: seq<Event>, env: Env, pool: seq<Event>)
    requires NothingAhead(live, a + b, env, pool) && !Ended(Fold(live, a, env))
    ensures NothingAhead(Fold(live, a, env).live, b, env, pool)
    decreases |a|
  {
    hide StepOn, PreOpen, FirstExit, StreamChanged;
    if a == [] {
      assert a + b == b;
    } else {
      assert (a + b)[0] == a[0] && (a + b)[1..] == a[1..] + b;
      var s := StepOn(live, a[0], env);
      if PreOpen(live, a[0]) { NothingAheadSplit(live, a[1..], b, env, pool); }
      else if s.Stepped? && s.settlement.None? { NothingAheadSplit(s.live, a[1..], b, env, pool); }
    }
  }

  // ---------------------------------------------------------------- a batch, and batch after batch

  /** The live state and id after `m` ticks of the batch. */
  function StateAt(live: Live, env: Env, m: nat): Live
    requires m <= |env.batch|
  {
    Fold(live, env.batch[..m], env).live
  }

  function IdAt(live: Live, env: Env, m: nat): int
    requires m <= |env.batch| && live.anchor.Some?
  {
    if m == 0 then live.anchor.value else env.batch[m - 1].id
  }

  /** Checkpoints committed after these numbers of ticks, each recording the fold so far; only the last may settle. */
  ghost predicate Committed(live: Live, env: Env, m: nat, cuts: seq<nat>, cps: seq<Checkpoint>)
    decreases |cuts|
  {
    && |cuts| == |cps|
    && (cuts != [] ==>
          && m < cuts[0] <= |env.batch|
          && var f := Fold(live, env.batch[..cuts[0]], env);
             && f.count == cuts[0] && f.stopped.None? && QuietAhead(live, env.batch[..cuts[0]], env)
             && Records(cps[0], f.live, f.settlement, env.batch[cuts[0] - 1])
             && (f.settlement.Some? ==> |cuts| == 1)
             && Committed(live, env, cuts[0], cuts[1..], cps[1..]))
  }

  function LegsOf(live: Live, env: Env, fetch: Fetch, m: nat, cuts: seq<nat>, cps: seq<Checkpoint>): seq<Leg>
    requires |cuts| == |cps|
    decreases |cuts|
  {
    if cuts == [] || !(m < cuts[0] <= |env.batch|) then []
    else
      [Leg(env.batch[m..cuts[0]], env, RecordOf(cps[0], InputsAt(live, env.batch[..cuts[0]], env, fetch)), PoolOf(env))]
      + LegsOf(live, env, fetch, cuts[0], cuts[1..], cps[1..])
  }

  lemma OneLegMore(live: Live, cursor: int, leg: Leg, rest: seq<Leg>, cfg: Config)
    requires FaithfulLeg(live, cursor, leg, cfg)
    requires var f := Fold(live, leg.events, leg.env);
             if f.settlement.Some? then rest == [] else Recording(f.live, Last(leg.events).id, rest, cfg)
    ensures Recording(live, cursor, [leg] + rest, cfg)
  {
    hide FaithfulLeg, Fold;
    assert ([leg] + rest)[1..] == rest;
  }

  /** The leg of a batch between two checkpoints begins in the state after `m` ticks and ends in the one after `n`. */
  lemma LegSpans(live: Live, env: Env, m: nat, n: nat)
    requires m < n <= |env.batch| && live.anchor.Some?
    requires Fold(live, env.batch[..n], env).count == n && Fold(live, env.batch[..n], env).stopped.None?
    ensures var f, whole := Fold(StateAt(live, env, m), env.batch[m..n], env), Fold(live, env.batch[..n], env);
            f.live == StateAt(live, env, n) && f.settlement == whole.settlement && Last(env.batch[m..n]).id == IdAt(live, env, n)
  {
    hide Fold, StepOn, PreOpen;
    assert env.batch[..m] + env.batch[m..n] == env.batch[..n];
    FoldCut(live, env.batch[..m], env.batch[m..n], env);
  }

  /** The committed checkpoints of a batch, followed by the recording of what came after it, are one recording. */
  lemma {:induction false} BatchIsRecorded(live: Live, env: Env, fetch: Fetch, m: nat, cuts: seq<nat>, cps: seq<Checkpoint>, later: seq<Leg>)
    requires m <= |env.batch| && InOrderIds(env.batch) && LiveRules(env, live.now.position.basis, fetch)
    requires forall e :: e in env.batch ==> !PreOpen(live, e)
    requires live.anchor.Some? && env.batch != [] && live.anchor.value < env.batch[0].id
    requires Committed(live, env, m, cuts, cps) && Ran(live, env.batch[..m], env, StateAt(live, env, m))
    requires var n := if cuts == [] then m else Last(cuts);
             n <= |env.batch| &&
             if Fold(live, env.batch[..n], env).settlement.Some? then later == []
             else Recording(StateAt(live, env, n), IdAt(live, env, n), later, env.cfg)
    ensures Recording(StateAt(live, env, m), IdAt(live, env, m), LegsOf(live, env, fetch, m, cuts, cps) + later, env.cfg)
    decreases |cuts|
  {
    hide Fold, FaithfulLeg, LiveRules, QuietAhead, Records, RecordOf, InputsAt, PreOpen, InOrderIds, PoolOf, Recording;
    var legs := LegsOf(live, env, fetch, m, cuts, cps) + later;
    if cuts == [] {
      assert legs == later;
    } else {
      var n := cuts[0];
      BatchRecordsLegs(live, env, fetch, m, n, cps[0]);
      LegSpans(live, env, m, n);
      var leg := LegsOf(live, env, fetch, m, cuts, cps)[0];
      var rest := LegsOf(live, env, fetch, n, cuts[1..], cps[1..]) + later;
      assert legs == [leg] + rest;
      if Fold(live, env.batch[..n], env).settlement.Some? {
        assert cuts == [n] && rest == [];
      } else {
        OpenFoldRan(live, env.batch[..n], env);
        if |cuts| > 1 { assert Last(cuts[1..]) == Last(cuts); }
        BatchIsRecorded(live, env, fetch, n, cuts[1..], cps[1..], later);
      }
      OneLegMore(StateAt(live, env, m), IdAt(live, env, m), leg, rest, env.cfg);
    }
  }
}
