/** Record and replay: what a live run recorded, replayed under any paging, lands in the same place. */
module ReplayLaws {
  import opened Common
  import opened Engine
  import opened EngineLaws
  import opened Recovery
  import opened RecoveryTheorems
  import opened TickProcessor
  import opened TickProcessorLaws
  import opened BatchLaws
  import opened TraceReplay

  /** The ticks between two recorded checkpoints of a live run, the rules it used, and what it recorded at their end. */
  datatype Leg = Leg(events: seq<Event>, env: Env, record: Record, pool: seq<Event>)

  // ---------------------------------------------------------------- the stored ticks and their pages

  function Between(journal: seq<Event>, after: int, through: int): seq<Event> {
    if journal == [] then []
    else (if after < journal[0].id <= through then [journal[0]] else []) + Between(journal[1..], after, through)
  }

  /** Pages may have any size, but they are the stored ticks in order and never empty while ticks remain. */
  ghost predicate Pages(load: Load, journal: seq<Event>) {
    forall after, through ::
      var rest := Between(journal, after, through);
      load(after, through) <= rest && (rest != [] ==> load(after, through) != [])
  }

  // ---------------------------------------------------------------- agreement of live run and replay

  /** The rules a record carries. */
  function RecordRules(cfg: Config, b: Basis, inputs: TraceInputs): Env {
    Env(cfg, inputs.policy, if b.signalExitEnabled then Some(inputs.signals) else None,
        ReplayRecover(cfg, inputs.policy, inputs.recoveries), inputs.protectFirst, inputs.latest, [])
  }

  /** Tick by tick, the recorded rules give the step that the live run took. */
  predicate Agrees(live: Live, events: seq<Event>, env: Env, env': Env)
    decreases |events|
  {
    events != [] ==>
      if PreOpen(live, events[0]) then Agrees(live, events[1..], env, env')
      else
        var s, s' := StepOn(live, events[0], env), StepOn(live, events[0], env');
        s == s' && (s.Stepped? && s.settlement.None? ==> Agrees(s.live, events[1..], env, env'))
  }

  /** At every gap no known tick from there on would exit at the confirmed levels. */
  predicate NothingAhead(live: Live, events: seq<Event>, env: Env, pool: seq<Event>)
    decreases |events|
  {
    events != [] ==>
      if PreOpen(live, events[0]) then NothingAhead(live, events[1..], env, pool)
      else
        && (env.protectFirst && StreamChanged(live, events[0]) ==>
              forall c :: c in pool && c.id >= events[0].id ==> FirstExit(live.now.position, live.through, [c], env.cfg).None?)
        && var s := StepOn(live, events[0], env);
           (s.Stepped? && s.settlement.None? ==> NothingAhead(s.live, events[1..], env, pool))
  }

  lemma {:induction false} AgreeingFolds(live: Live, events: seq<Event>, env: Env, env': Env)
    requires Agrees(live, events, env, env')
    ensures Fold(live, events, env) == Fold(live, events, env')
    decreases |events|
  {
    hide StepOn, PreOpen;
    if events != [] {
      var s := StepOn(live, events[0], env);
      if PreOpen(live, events[0]) { AgreeingFolds(live, events[1..], env, env'); }
      else if s.Stepped? && s.settlement.None? { AgreeingFolds(s.live, events[1..], env, env'); }
    }
  }

  lemma {:induction false} AgreesSameRules(live: Live, events: seq<Event>, env: Env, rules: Env, rules': Env)
    requires Agrees(live, events, env, rules) && SameRules(rules, rules')
    ensures Agrees(live, events, env, rules')
    decreases |events|
  {
    hide StepOn, PreOpen;
    if events != [] {
      StepSameRules(live, events[0], rules, rules');
      var s := StepOn(live, events[0], env);
      if PreOpen(live, events[0]) { AgreesSameRules(live, events[1..], env, rules, rules'); }
      else if s.Stepped? && s.settlement.None? { AgreesSameRules(s.live, events[1..], env, rules, rules'); }
    }
  }

  /** Agreement and quiet hold for the start of a run and, from where it gets, for the rest. */
  lemma {:induction false} AgreesSplit(live: Live, a: seq<Event>, b: seq<Event>, env: Env, env': Env, pool: seq<Event>)
    requires Agrees(live, a + b, env, env') && NothingAhead(live, a + b, env, pool)
    ensures Agrees(live, a, env, env') && NothingAhead(live, a, env, pool)
    ensures !Ended(Fold(live, a, env)) ==>
              Agrees(Fold(live, a, env).live, b, env, env') && NothingAhead(Fold(live, a, env).live, b, env, pool)
    decreases |a|
  {
    hide StepOn, PreOpen, FirstExit, StreamChanged;
    if a == [] {
      assert a + b == b;
    } else {
      assert (a + b)[0] == a[0] && (a + b)[1..] == a[1..] + b;
      var s := StepOn(live, a[0], env);
      if PreOpen(live, a[0]) { AgreesSplit(live, a[1..], b, env, env', pool); }
      else if s.Stepped? && s.settlement.None? { AgreesSplit(s.live, a[1..], b, env, env', pool); }
    }
  }

  lemma {:induction false} NoExitAmong(p: Position, through: int, events: seq<Event>, cfg: Config)
    requires forall e :: e in events ==> FirstExit(p, through, [e], cfg).None?
    ensures FirstExit(p, through, events, cfg).None?
    decreases |events|
  {
    hide TickExit;
    if events != [] {
      assert events[0] in events;
      assert FirstExit(p, through, [events[0]], cfg).None?;
      NoExitAmong(p, through, events[1..], cfg);
    }
  }

  lemma {:induction false} IdsFromIn(events: seq<Event>, id: int, e: Event)
    ensures e in IdsFrom(events, id) ==> e in events && e.id >= id
  {
    if events != [] { IdsFromIn(events[1..], id, e); }
  }

  lemma {:induction false} NothingAheadIsQuiet(live: Live, events: seq<Event>, env: Env, rules: Env, pool: seq<Event>)
    requires NothingAhead(live, events, env, pool) && Agrees(live, events, env, rules) && rules.cfg == env.cfg
    requires rules.protectFirst ==> env.protectFirst
    requires forall e :: e in rules.batch || Some(e) == rules.latest ==> e in pool
    requires forall e :: e in events ==> e in rules.batch
    ensures QuietAhead(live, events, rules)
    decreases |events|
  {
    hide StepOn, PreOpen, FirstExit;
    if events != [] {
      var e := events[0];
      assert e in events;
      var s := StepOn(live, e, env);
      if PreOpen(live, e) {
        NothingAheadIsQuiet(live, events[1..], env, rules, pool);
      } else {
        if StreamChanged(live, e) && rules.protectFirst {
          forall c | c in Candidates(e, rules) ensures FirstExit(live.now.position, live.through, [c], env.cfg).None? {
            IdsFromIn(rules.batch, e.id, c);
            CandidatesFrom(e, rules, c);
          }
          NoExitAmong(live.now.position, live.through, Candidates(e, rules), env.cfg);
        }
        if s.Stepped? && s.settlement.None? { NothingAheadIsQuiet(s.live, events[1..], env, rules, pool); }
      }
    }
  }

  lemma CandidatesFrom(e: Event, env: Env, c: Event)
    requires c in Candidates(e, env) && e in env.batch
    ensures (c in env.batch || Some(c) == env.latest) && c.id >= e.id
  {
    hide IdsFrom;
    var ahead := IdsFrom(env.batch, e.id);
    IdsFromHas(env.batch, e.id, e);
    IdsFromIn(env.batch, e.id, c);
    IdsFromIn(env.batch, e.id, ahead[|ahead| - 1]);
  }

  lemma {:induction false} IdsFromHas(events: seq<Event>, id: int, e: Event)
    requires e in events && e.id >= id
    ensures e in IdsFrom(events, id)
  {
    if events[0] != e { IdsFromHas(events[1..], id, e); }
  }

  // ---------------------------------------------------------------- faithful records

  function LevelsOf(p: Position): Protection { Protection(p.best, p.stop, p.trailing) }

  /** The record holds what the live run had when it committed the checkpoint. */
  predicate RecordHolds(record: Record, f: Progress, end: int) {
    && record.end == end
    && record.payload.action == (if f.settlement.Some? then Close(f.settlement.value, Some(LevelsOf(f.live.now.position)))
                                 else Update(LevelsOf(f.live.now.position)))
    && record.payload.quotePrice == f.live.mark && record.payload.quoteAt == f.live.through
    && record.payload.state == f.live.now.state && record.payload.signalAt == f.live.signalAt
  }

  predicate FaithfulLeg(live: Live, cursor: int, leg: Leg, cfg: Config) {
    var f, b := Fold(live, leg.events, leg.env), live.now.position.basis;
    && leg.events != [] && leg.events[0].id > cursor && InOrderIds(leg.events)
    && (forall e :: e in leg.events ==> !PreOpen(live, e) && e in leg.pool)
    && leg.env.cfg == cfg
    && f.count == |leg.events| && f.stopped.None?
    && RecordHolds(leg.record, f, Last(leg.events).id)
    && leg.record.payload.inputs.Some?
    && var inputs := leg.record.payload.inputs.value;
       && inputs.firstEventId <= leg.events[0].id && inputs.protectFirst == leg.env.protectFirst
       && (inputs.latest.Some? ==> inputs.latest.value in leg.pool)
       && SignalsWellFormed(RecordRules(cfg, b, inputs), b)
       && Agrees(live, leg.events, leg.env, RecordRules(cfg, b, inputs))
       && NothingAhead(live, leg.events, leg.env, leg.pool)
  }

  /** A live run, checkpoint after checkpoint, to its settlement or to its last record. */
  predicate Recording(live: Live, cursor: int, legs: seq<Leg>, cfg: Config)
    decreases |legs|
  {
    legs != [] ==>
      && FaithfulLeg(live, cursor, legs[0], cfg)
      && var f := Fold(live, legs[0].events, legs[0].env);
         if f.settlement.Some? then legs[1..] == []
         else Recording(f.live, Last(legs[0].events).id, legs[1..], cfg)
  }

  function AllEvents(legs: seq<Leg>): seq<Event> {
    if legs == [] then [] else legs[0].events + AllEvents(legs[1..])
  }

  function AllRecords(legs: seq<Leg>): seq<Record> {
    if legs == [] then [] else [legs[0].record] + AllRecords(legs[1..])
  }

  /** Where the live run ended. */
  function LiveEnd(live: Live, cursor: int, legs: seq<Leg>): (Live, int, Option<Settlement>)
    requires forall leg :: leg in legs ==> leg.events != []
    decreases |legs|
  {
    if legs == [] then (live, cursor, None)
    else
      var f := Fold(live, legs[0].events, legs[0].env);
      assert legs[0] in legs;
      if f.settlement.Some? then (f.live, Last(legs[0].events).id, f.settlement)
      else LiveEnd(f.live, Last(legs[0].events).id, legs[1..])
  }

  // ---------------------------------------------------------------- cutting the stored ticks

  lemma {:induction false} BetweenWithin(journal: seq<Event>, a: int, z: int, c: int, t: int)
    requires a <= c && t <= z
    ensures Between(Between(journal, a, z), c, t) == Between(journal, c, t)
    decreases |journal|
  {
    if journal != [] {
      BetweenWithin(journal[1..], a, z, c, t);
      var head := if a < journal[0].id <= z then [journal[0]] else [];
      BetweenAppend(head, Between(journal[1..], a, z), c, t);
    }
  }

  lemma {:induction false} BetweenAppend(x: seq<Event>, y: seq<Event>, c: int, t: int)
    ensures Between(x + y, c, t) == Between(x, c, t) + Between(y, c, t)
    decreases |x|
  {
    if x == [] {
      assert x + y == y;
    } else {
      BetweenAppend(x[1..], y, c, t);
      assert (x + y)[0] == x[0] && (x + y)[1..] == x[1..] + y;
    }
  }

  lemma {:induction false} BetweenAll(x: seq<Event>, c: int, t: int)
    ensures (forall e :: e in x ==> c < e.id <= t) ==> Between(x, c, t) == x && CountIds(x, c, t) == |x|
    ensures (forall e :: e in x ==> !(c < e.id <= t)) ==> Between(x, c, t) == []
    decreases |x|
  {
    if x != [] {
      assert x[0] in x;
      forall e | e in x[1..] ensures e in x { }
      BetweenAll(x[1..], c, t);
    }
  }

  lemma {:induction false} IdsInside(events: seq<Event>, cursor: int)
    requires InOrderIds(events) && events != [] && events[0].id > cursor
    ensures forall e :: e in events ==> cursor < e.id <= Last(events).id
    decreases |events|
  {
    if |events| > 1 {
      IdsInside(events[1..], events[0].id);
      forall e | e in events ensures cursor < e.id <= Last(events).id {
        if e != events[0] { assert e in events[1..]; }
      }
    }
  }

  lemma InOrderParts(y: seq<Event>, z: seq<Event>)
    requires InOrderIds(y + z)
    ensures InOrderIds(y) && InOrderIds(z)
    ensures y != [] && z != [] ==> Last(y).id < z[0].id
  {
    forall i | 0 < i < |y| ensures y[i - 1].id < y[i].id { assert (y + z)[i] == y[i] && (y + z)[i - 1] == y[i - 1]; }
    forall i | 0 < i < |z| ensures z[i - 1].id < z[i].id { assert (y + z)[|y| + i] == z[i] && (y + z)[|y| + i - 1] == z[i - 1]; }
    if y != [] && z != [] { assert (y + z)[|y|] == z[0] && (y + z)[|y| - 1] == Last(y); }
  }

  lemma {:induction false} BetweenBounds(journal: seq<Event>, a: int, z: int, e: Event)
    ensures e in Between(journal, a, z) ==> a < e.id <= z
    decreases |journal|
  {
    if journal != [] { BetweenBounds(journal[1..], a, z, e); }
  }

  /** Both parts of a cut lie where the cut puts them. */
  lemma CutBounds(journal: seq<Event>, cursor: int, end: int, y: seq<Event>, z: seq<Event>)
    requires Between(journal, cursor, end) == y + z && InOrderIds(y + z) && y != []
    ensures cursor < y[0].id <= Last(y).id <= end && InOrderIds(y) && InOrderIds(z)
    ensures forall e :: e in y ==> cursor < e.id <= Last(y).id
    ensures forall e :: e in z ==> Last(y).id < e.id <= end
  {
    hide Between, InOrderIds;
    InOrderParts(y, z);
    assert y[0] in y + z && Last(y) in y + z;
    BetweenBounds(journal, cursor, end, y[0]);
    BetweenBounds(journal, cursor, end, Last(y));
    IdsInside(y, cursor);
    if z != [] {
      assert Last(z) in y + z;
      BetweenBounds(journal, cursor, end, Last(z));
      IdsInside(z, Last(y).id);
    }
  }

  lemma CutBefore(journal: seq<Event>, cursor: int, end: int, t: int, y: seq<Event>, z: seq<Event>)
    requires Between(journal, cursor, end) == y + z && t <= end
    requires (forall e :: e in y ==> cursor < e.id <= t) && (forall e :: e in z ==> t < e.id <= end)
    ensures Between(journal, cursor, t) == y && CountIds(y, cursor, t) == |y|
  {
    hide Between;
    BetweenWithin(journal, cursor, end, cursor, t);
    BetweenAppend(y, z, cursor, t);
    BetweenAll(y, cursor, t);
    BetweenAll(z, cursor, t);
    assert y + [] == y;
  }

  lemma CutAfter(journal: seq<Event>, cursor: int, end: int, t: int, y: seq<Event>, z: seq<Event>)
    requires Between(journal, cursor, end) == y + z && cursor <= t
    requires (forall e :: e in y ==> cursor < e.id <= t) && (forall e :: e in z ==> t < e.id <= end)
    ensures Between(journal, t, end) == z
  {
    hide Between;
    BetweenWithin(journal, cursor, end, t, end);
    BetweenAppend(y, z, t, end);
    BetweenAll(y, t, end);
    BetweenAll(z, t, end);
    assert [] + z == z;
  }

  /** The ticks after a cursor, cut at the id of one of them. */
  lemma CutAt(journal: seq<Event>, cursor: int, end: int, y: seq<Event>, z: seq<Event>)
    requires Between(journal, cursor, end) == y + z && InOrderIds(y + z) && y != []
    ensures cursor < y[0].id <= Last(y).id <= end
    ensures Between(journal, cursor, Last(y).id) == y && Between(journal, Last(y).id, end) == z
    ensures InOrderIds(y) && InOrderIds(z)
    ensures CountIds(y, cursor, Last(y).id) == |y|
  {
    hide Between, CountIds, InOrderIds;
    CutBounds(journal, cursor, end, y, z);
    CutBefore(journal, cursor, end, Last(y).id, y, z);
    CutAfter(journal, cursor, end, Last(y).id, y, z);
  }

  // ---------------------------------------------------------------- one page

  /** A run that takes every tick can be cut anywhere before its end. */
  lemma FoldCut(live: Live, a: seq<Event>, b: seq<Event>, env: Env)
    requires Fold(live, a + b, env).count == |a| + |b| && Fold(live, a + b, env).stopped.None? && b != []
    ensures var mid := Fold(live, a, env).live;
            Ran(live, a, env, mid)
            && Fold(live, a + b, env) == Fold(mid, b, env).(count := |a| + |b|)
            && Fold(mid, b, env).count == |b|
  {
    hide Fold;
    if Ended(Fold(live, a, env)) {
      SettledPrefix(live, a, b, env);
      CountWithin(live, a, env);
    } else {
      OpenFoldRan(live, a, env);
      FoldAppend(live, a, b, env, Fold(live, a, env).live);
    }
  }

  lemma {:induction false} CountWithin(live: Live, a: seq<Event>, env: Env)
    ensures Fold(live, a, env).count <= |a|
    decreases |a|
  {
    hide StepOn, PreOpen;
    if a != [] {
      if PreOpen(live, a[0]) { CountWithin(live, a[1..], env); }
      else if StepOn(live, a[0], env).Stepped? { CountWithin(StepOn(live, a[0], env).live, a[1..], env); }
    }
  }

  /** A run that ends with a tick after the opening names that tick's stream and id. */
  lemma {:induction false} EndsAtLast(live: Live, events: seq<Event>, env: Env)
    requires SafeRecover(env) && events != [] && (forall e :: e in events ==> !PreOpen(live, e))
    requires Fold(live, events, env).count == |events| && Fold(live, events, env).stopped.None?
    ensures var f := Fold(live, events, env);
            f.live.stream == Some(Last(events).stream) && f.live.anchor == Some(Last(events).id)
            && f.live.now.position.basis == live.now.position.basis
    decreases |events|
  {
    hide StepOn, SafeRecover;
    assert events[0] in events;
    StreamAfterStep(live, events[0], env);
    StepIsMonotone(live, events[0], env);
    if |events| > 1 && StepOn(live, events[0], env).settlement.None? {
      assert Last(events[1..]) == Last(events);
      forall e | e in events[1..] ensures !PreOpen(StepOn(live, events[0], env).live, e) { assert e in events; }
      EndsAtLast(StepOn(live, events[0], env).live, events[1..], env);
    } else if StepOn(live, events[0], env).settlement.None? {
      assert events[1..] == [];
    }
  }

  lemma ReplayIsSafe(cfg: Config, b: Basis, inputs: TraceInputs)
    ensures SafeRecover(RecordRules(cfg, b, inputs))
  {
    hide CausalRecovery, LegacyRecovery, Recorded;
    var rules := RecordRules(cfg, b, inputs);
    forall now, since, e, anchor | rules.recover(now, since, e, anchor).Done?
      ensures Tighter(rules.recover(now, since, e, anchor).value.now.position, now.position)
    {
      var found := Recorded(inputs.recoveries, e.id, since).value;
      var gap := Gap(now, since, Quote(now.position.basis.symbol, e.price, e.observedAt), found.inputs);
      if found.causal { RecoveryNeverLoosens(gap, cfg, inputs.policy); } else { LegacyRecoveryNeverLoosens(gap, cfg); }
    }
  }

  /** The replay stands where the live run stood at this id. */
  predicate StandsAt(st: State, live: Live, cursor: int) {
    !Stopped(st) && st.live == live && st.cursor == cursor && st.readThrough == cursor && live.anchor == Some(cursor)
  }

  /** What remains of a leg, seen by the replay's rules for it. */
  predicate RestOfLeg(live: Live, cursor: int, rest: seq<Event>, env: Env, inputs: TraceInputs, pool: seq<Event>, cfg: Config) {
    var rules := RecordRules(cfg, live.now.position.basis, inputs);
    && rest != [] && rest[0].id > cursor && InOrderIds(rest) && env.cfg == cfg && env.protectFirst == inputs.protectFirst
    && (forall e :: e in rest ==> !PreOpen(live, e) && e in pool && e.id >= inputs.firstEventId)
    && (inputs.latest.Some? ==> inputs.latest.value in pool)
    && Fold(live, rest, env).count == |rest| && Fold(live, rest, env).stopped.None?
    && SignalsWellFormed(rules, live.now.position.basis)
    && Agrees(live, rest, env, rules) && NothingAhead(live, rest, env, pool)
  }

  /** Under the record's rules the loop over a stretch of ticks ends where the live run did. */
  lemma StretchLands(live: Live, page: seq<Event>, env: Env, inputs: TraceInputs, pool: seq<Event>, cfg: Config, cursor: int, here: Env)
    requires RestOfLeg(live, cursor, page, env, inputs, pool, cfg)
    requires here == RecordRules(cfg, live.now.position.basis, inputs).(batch := page)
    ensures var f := Fold(live, page, env);
            var run := Process(Fresh(live), page, here, n => true, 0);
            && run.outcome == Finished && run.offered != []
            && Resume(Last(run.offered)) == f.live && Last(run.offered).settlement == f.settlement
            && Last(run.offered).event == Last(page)
            && f.live.anchor == Some(Last(page).id) && f.live.now.position.basis == live.now.position.basis
  {
    hide Process, Fold, Agrees, NothingAhead, SafeRecover, SignalsWellFormed, QuietAhead, PreOpen, InOrderIds;
    var b := live.now.position.basis;
    var rules := RecordRules(cfg, b, inputs);
    ReplayIsSafe(cfg, b, inputs);
    RulesCarry(rules, here, b);
    AgreesSameRules(live, page, env, rules, here);
    AgreeingFolds(live, page, env, here);
    NothingAheadIsQuiet(live, page, env, here, pool);
    FinalCheckpoint(Fresh(live), page, here, n => true, 0);
    EndsAtLast(live, page, here);
  }

  lemma SegmentLands(st: State, live: Live, page: seq<Event>, env: Env, inputs: TraceInputs, pool: seq<Event>, cfg: Config)
    requires !Stopped(st) && st.live == live && live.anchor == Some(st.cursor)
    requires RestOfLeg(live, st.cursor, page, env, inputs, pool, cfg)
    ensures var f := Fold(live, page, env);
            var next := ReplaySegment(st, page, cfg, Some(inputs));
            next == st.(live := f.live, cursor := Last(page).id, policy := inputs.policy, signals := inputs.signals,
                        settlement := f.settlement, count := next.count)
  {
    hide Process, Fold, Agrees, NothingAhead, SignalsWellFormed, PreOpen, FirstAfter, InOrderIds;
    assert page[0] in page;
    var from := Effective(st, page, Some(inputs));
    var here := ReplayEnv(from, cfg, Some(inputs), page);
    StretchLands(live, page, env, inputs, pool, cfg, st.cursor, here);
    ApplyAllLast(from, page, Process(Fresh(live), page, here, n => true, 0).offered);
    assert from.live.(anchor := Some(st.cursor)) == live;
  }

  /** Replaying a page that is the whole rest of the leg, or the start of it. */
  lemma PageLands(st: State, live: Live, page: seq<Event>, env: Env, inputs: TraceInputs, pool: seq<Event>, cfg: Config, end: int)
    requires StandsAt(st, live, st.cursor) && RestOfLeg(live, st.cursor, page, env, inputs, pool, cfg) && Last(page).id <= end
    ensures var f := Fold(live, page, env);
            var next := ReplayPage(st, page, cfg, end, Some(inputs));
            && next == st.(live := f.live, cursor := Last(page).id, policy := inputs.policy, signals := inputs.signals,
                           settlement := f.settlement, count := next.count, available := st.available + |page|, readThrough := Last(page).id)
            && f.live.anchor == Some(Last(page).id)
            && f.live.now.position.basis == live.now.position.basis
  {
    hide ReplaySegment, Fold, Process, Agrees, NothingAhead, SignalsWellFormed, PreOpen, InOrderIds;
    IdsInside(page, st.cursor);
    BetweenAll(page, st.cursor, Last(page).id);
    var read := st.(available := st.available + |page|, readThrough := Last(page).id);
    assert page[0] in page;
    assert Boundary(page, Some(inputs)) == 0;
    assert page[..0] == [] && page[0..] == page;
    NothingToReplay(read, cfg, Some(inputs));
    SegmentLands(read, live, page, env, inputs, pool, cfg);
    StretchLands(live, page, env, inputs, pool, cfg, st.cursor, RecordRules(cfg, live.now.position.basis, inputs).(batch := page));
  }

  /** After a page, what remains of the leg is again the rest of a leg. */
  lemma RestAfterPage(live: Live, cursor: int, a: seq<Event>, b: seq<Event>, env: Env, inputs: TraceInputs, pool: seq<Event>, cfg: Config)
    requires RestOfLeg(live, cursor, a + b, env, inputs, pool, cfg) && a != [] && b != []
    ensures RestOfLeg(live, cursor, a, env, inputs, pool, cfg)
    ensures Fold(live, a, env).settlement.None?
    ensures RestOfLeg(Fold(live, a, env).live, Last(a).id, b, env, inputs, pool, cfg)
    ensures var f := Fold(Fold(live, a, env).live, b, env); Fold(live, a + b, env) == f.(count := |a| + |b|)
  {
    hide Fold, Agrees, NothingAhead, SafeRecover, SignalsWellFormed, PreOpen, InOrderIds;
    var rules := RecordRules(cfg, live.now.position.basis, inputs);
    FoldCut(live, a, b, env);
    AgreesSplit(live, a, b, env, rules, pool);
    SplitOrder(a, b);
    forall e | e in a ensures e in a + b { }
    forall e | e in b ensures e in a + b { }
    AgreeingFolds(live, a, env, rules);
    ReplayIsSafe(cfg, live.now.position.basis, inputs);
    EndsAtLast(live, a, rules);
    OpeningIsFixed(live, Fold(live, a, env).live, b);
  }

  lemma OpeningIsFixed(live: Live, next: Live, events: seq<Event>)
    requires next.now.position.basis == live.now.position.basis
    ensures (forall e :: e in events ==> !PreOpen(live, e)) <==> (forall e :: e in events ==> !PreOpen(next, e))
  {
  }

  lemma SplitOrder(a: seq<Event>, b: seq<Event>)
    requires InOrderIds(a + b) && a != [] && b != []
    ensures InOrderIds(a) && InOrderIds(b) && Last(a).id < b[0].id && (a + b)[0] == a[0] && Last(a + b) == Last(b)
  {
    forall i | 0 < i < |a| ensures a[i - 1].id < a[i].id { assert (a + b)[i] == a[i] && (a + b)[i - 1] == a[i - 1]; }
    forall i | 0 < i < |b| ensures b[i - 1].id < b[i].id { assert (a + b)[|a| + i] == b[i] && (a + b)[|a| + i - 1] == b[i - 1]; }
    assert (a + b)[|a|] == b[0] && (a + b)[|a| - 1] == Last(a);
  }

  /** Whatever the page sizes, replaying a leg ends where the live run ended it. */
  lemma {:induction false} LegLands(st: State, live: Live, rest: seq<Event>, env: Env, inputs: TraceInputs, pool: seq<Event>, cfg: Config,
                                    load: Load, journal: seq<Event>, end: int)
    requires StandsAt(st, live, st.cursor) && RestOfLeg(live, st.cursor, rest, env, inputs, pool, cfg)
    requires Pages(load, journal) && end == Last(rest).id && Between(journal, st.cursor, end) == rest
    ensures var f := Fold(live, rest, env);
            var next := ReplayRecord(st, load, cfg, end, Some(inputs));
            && next == st.(live := f.live, cursor := end, policy := inputs.policy, signals := inputs.signals,
                           settlement := f.settlement, count := next.count, available := st.available + |rest|, readThrough := end)
            && f.live.anchor == Some(end)
    decreases |rest|
  {
    hide ReplayPage, ReplayRecord, Fold, RestOfLeg, StandsAt, Between, InOrderIds, Pages, Stopped;
    LegOrder(live, st.cursor, rest, env, inputs, pool, cfg);
    var page := load(st.cursor, end);
    PageIsPrefix(load, journal, st.cursor, end, rest);
    var tail := rest[|page|..];
    assert rest == page + tail;
    var next := ReplayPage(st, page, cfg, end, Some(inputs));
    if tail == [] {
      assert page == rest;
      OnePage(st, live, page, env, inputs, pool, cfg, load, end);
    } else {
      RestAfterPage(live, st.cursor, page, tail, env, inputs, pool, cfg);
      CutAt(journal, st.cursor, end, page, tail);
      MorePages(st, live, page, env, inputs, pool, cfg, load, end);
      LegLands(next, Fold(live, page, env).live, tail, env, inputs, pool, cfg, load, journal, end);
    }
  }

  /** A page that reaches the end of the leg ends its replay. */
  lemma OnePage(st: State, live: Live, page: seq<Event>, env: Env, inputs: TraceInputs, pool: seq<Event>, cfg: Config, load: Load, end: int)
    requires StandsAt(st, live, st.cursor) && RestOfLeg(live, st.cursor, page, env, inputs, pool, cfg)
    requires page == load(st.cursor, end) && Last(page).id == end
    ensures ReplayRecord(st, load, cfg, end, Some(inputs)) == ReplayPage(st, page, cfg, end, Some(inputs))
    ensures var f := Fold(live, page, env);
            var next := ReplayPage(st, page, cfg, end, Some(inputs));
            && next == st.(live := f.live, cursor := end, policy := inputs.policy, signals := inputs.signals,
                           settlement := f.settlement, count := next.count, available := st.available + |page|, readThrough := end)
            && f.live.anchor == Some(end)
  {
    hide ReplayPage, Fold, RestOfLeg, InOrderIds;
    LegOrder(live, st.cursor, page, env, inputs, pool, cfg);
    IdsInside(page, st.cursor);
    assert Last(page) in page;
    PageLands(st, live, page, env, inputs, pool, cfg, end);
    var next := ReplayPage(st, page, cfg, end, Some(inputs));
    if !Stopped(next) { AtEnd(next, load, cfg, end, Some(inputs)); }
  }

  /** A page that ends earlier hands over to the next one. */
  lemma MorePages(st: State, live: Live, page: seq<Event>, env: Env, inputs: TraceInputs, pool: seq<Event>, cfg: Config, load: Load, end: int)
    requires StandsAt(st, live, st.cursor) && RestOfLeg(live, st.cursor, page, env, inputs, pool, cfg)
    requires page == load(st.cursor, end) && st.cursor < Last(page).id <= end && Fold(live, page, env).settlement.None?
    ensures var f := Fold(live, page, env);
            var next := ReplayPage(st, page, cfg, end, Some(inputs));
            && StandsAt(next, f.live, Last(page).id)
            && ReplayRecord(st, load, cfg, end, Some(inputs)) == ReplayRecord(next, load, cfg, end, Some(inputs))
            && next == st.(live := f.live, cursor := Last(page).id, policy := inputs.policy, signals := inputs.signals,
                           count := next.count, available := st.available + |page|, readThrough := Last(page).id)
  {
    hide ReplayPage, Fold, RestOfLeg;
    PageLands(st, live, page, env, inputs, pool, cfg, end);
  }

  lemma PageIsPrefix(load: Load, journal: seq<Event>, cursor: int, end: int, rest: seq<Event>)
    requires Pages(load, journal) && Between(journal, cursor, end) == rest && rest != []
    ensures load(cursor, end) <= rest && load(cursor, end) != []
  {
  }

  lemma LegOrder(live: Live, cursor: int, rest: seq<Event>, env: Env, inputs: TraceInputs, pool: seq<Event>, cfg: Config)
    requires RestOfLeg(live, cursor, rest, env, inputs, pool, cfg)
    ensures rest != [] && InOrderIds(rest) && rest[0].id > cursor
  {
  }

  lemma AtEnd(st: State, load: Load, cfg: Config, end: int, inputs: Option<TraceInputs>)
    requires st.cursor >= end
    ensures ReplayRecord(st, load, cfg, end, inputs) == st
  {
  }

  // ---------------------------------------------------------------- all records

  /** A faithful record leaves nothing to report. */
  lemma NothingToReport(st: State, live: Live, leg: Leg, cfg: Config, cursor: int)
    requires FaithfulLeg(live, cursor, leg, cfg)
    requires var f := Fold(live, leg.events, leg.env); st.live == f.live && st.settlement == f.settlement
    ensures Compare(st, leg.record.end, leg.record.payload) == []
  {
    hide Fold, Agrees, NothingAhead, SignalsWellFormed, PreOpen, InOrderIds;
    NearItself(Tolerance(st.live.now.position));
  }

  lemma NearItself(tolerance: real)
    requires tolerance >= 0.0
    ensures forall a: real :: Near(a, a, tolerance)
  {
  }

  lemma FaithfulIsRest(live: Live, cursor: int, leg: Leg, cfg: Config)
    requires FaithfulLeg(live, cursor, leg, cfg)
    ensures RestOfLeg(live, cursor, leg.events, leg.env, leg.record.payload.inputs.value, leg.pool, cfg)
    ensures leg.record.end == Last(leg.events).id
  {
    hide Fold, Agrees, NothingAhead, SignalsWellFormed, PreOpen;
    IdsFromFirst(leg.events);
  }

  lemma {:induction false} IdsFromFirst(events: seq<Event>)
    requires InOrderIds(events) && events != []
    ensures forall e :: e in events ==> e.id >= events[0].id
    decreases |events|
  {
    if |events| > 1 {
      IdsFromFirst(events[1..]);
      forall e | e in events ensures e.id >= events[0].id { if e != events[0] { assert e in events[1..]; } }
    }
  }

  lemma {:induction false} RecordsLand(st: State, live: Live, legs: seq<Leg>, cfg: Config, load: Load, journal: seq<Event>, endId: int)
    requires StandsAt(st, live, st.cursor) && Recording(live, st.cursor, legs, cfg)
    requires forall leg :: leg in legs ==> leg.events != []
    requires Pages(load, journal) && Between(journal, st.cursor, endId) == AllEvents(legs) && InOrderIds(AllEvents(legs))
    ensures var (end, cursor, settlement) := LiveEnd(live, st.cursor, legs);
            var next := ReplayRecords(st, AllRecords(legs), load, cfg);
            && next.live == end && next.cursor == cursor == next.readThrough && next.settlement == settlement
            && next.gaps == [] && next.differences == st.differences && !next.thrown
            && next.available == st.available + |AllEvents(legs)|
    decreases |legs|
  {
    hide ReplayRecord, Fold, FaithfulLeg, Compare, Between, InOrderIds, Pages, StandsAt;
    if legs == [] {
      StandsMeans(st, live);
    } else {
      var leg, rest := legs[0], legs[1..];
      assert leg in legs;
      forall l | l in rest ensures l.events != [] { assert l in legs; }
      var end := Last(leg.events).id;
      CutAt(journal, st.cursor, endId, leg.events, AllEvents(rest));
      assert AllRecords(legs) == [leg.record] + AllRecords(rest);
      var next := RecordLands(st, live, leg, AllRecords(rest), cfg, load, journal);
      if next.settlement.Some? {
        assert AllRecords(rest) == [] && AllEvents(rest) == [];
      } else {
        RecordsLand(next, next.live, rest, cfg, load, journal, endId);
      }
    }
  }

  lemma StandsMeans(st: State, live: Live)
    requires StandsAt(st, live, st.cursor)
    ensures !Stopped(st) && st.live == live && st.readThrough == st.cursor && live.anchor == Some(st.cursor)
  {
  }

  /** One record: the replay arrives where the live run was, reports nothing and goes on with the next record. */
  lemma RecordLands(st: State, live: Live, leg: Leg, records: seq<Record>, cfg: Config, load: Load, journal: seq<Event>)
    returns (next: State)
    requires StandsAt(st, live, st.cursor) && FaithfulLeg(live, st.cursor, leg, cfg) && leg.events != []
    requires Pages(load, journal) && Between(journal, st.cursor, Last(leg.events).id) == leg.events && Last(leg.events).id > st.cursor
    ensures var f, end := Fold(live, leg.events, leg.env), Last(leg.events).id;
            && ReplayRecords(st, [leg.record] + records, load, cfg) == ReplayRecords(next, records, load, cfg)
            && next.live == f.live && next.settlement == f.settlement && next.cursor == end == next.readThrough
            && next.differences == st.differences && next.gaps == [] && !next.thrown
            && next.available == st.available + |leg.events|
            && (f.settlement.None? ==> StandsAt(next, f.live, end))
  {
    hide ReplayRecord, Fold, FaithfulLeg, Compare, Between, InOrderIds, Pages, RestOfLeg;
    FaithfulIsRest(live, st.cursor, leg, cfg);
    HasInputs(live, st.cursor, leg, cfg);
    var inputs := leg.record.payload.inputs;
    var end := Last(leg.events).id;
    LegLands(st, live, leg.events, leg.env, inputs.value, leg.pool, cfg, load, journal, end);
    var landed := ReplayRecord(st, load, cfg, end, inputs);
    NothingToReport(landed, live, leg, cfg, st.cursor);
    next := landed.(checkpoints := landed.checkpoints + 1, differences := landed.differences + Compare(landed, end, leg.record.payload));
    var all := [leg.record] + records;
    assert all[0] == leg.record && all[1..] == records;
  }

  lemma HasInputs(live: Live, cursor: int, leg: Leg, cfg: Config)
    requires FaithfulLeg(live, cursor, leg, cfg)
    ensures leg.record.payload.inputs.Some?
  {
  }

  /**
   Record and replay. Replaying the records of a live run from a confirmed checkpoint, with pages of any size,
   ends with the same position, policy state, clock, cursor and settlement, reports no difference and no gap.
   */
  lemma RecordedRunReplays(trace: Trace, load: Load, legs: seq<Leg>, journal: seq<Event>, entry: Event)
    requires legs != [] && Recording(trace.start, trace.startId, legs, trace.cfg) && trace.records == AllRecords(legs)
    requires forall leg :: leg in legs ==> leg.events != []
    requires trace.start.anchor == Some(trace.startId)
    requires Pages(load, journal) && InOrderIds(AllEvents(legs)) && Between(journal, trace.startId, trace.endId) == AllEvents(legs)
    requires FindEvent(load(trace.startId - 1, trace.startId), trace.startId) == Some(entry)
    requires trace.entryExecution ==> !Touched(trace.start.now.position, entry.price)
    requires var (end, cursor, settlement) := LiveEnd(trace.start, trace.startId, legs);
             && cursor == trace.endId && trace.expected == Some(|AllEvents(legs)|)
             && (trace.trade.Some? ==> trace.trade == settlement)
    ensures var (end, cursor, settlement) := LiveEnd(trace.start, trace.startId, legs);
            var report := Replay(trace, load);
            && report.live == end && report.cursor == cursor && report.settlement == settlement
            && report.gaps == [] && report.differences == [] && !report.thrown
  {
    hide ReplayRecords, Recording, Between, InOrderIds, Fold, LiveEnd;
    var st := InitialState(trace, load);
    RecordsLand(st, trace.start, legs, trace.cfg, load, journal, trace.endId);
    var landed := ReplayRecords(st, trace.records, load, trace.cfg);
    AtEnd(landed, load, trace.cfg, trace.endId, None);
    NearItself(CENT);
  }
}
