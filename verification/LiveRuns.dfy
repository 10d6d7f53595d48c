/**
 End to end: a live run of any number of batches, each resumed from the last checkpoint committed before it, recorded
 with the inputs it used, replays to the same end.
 */
module LiveRuns {
  import opened Common
  import opened Engine
  import opened TickProcessor
  import opened TickProcessorLaws
  import opened BatchLaws
  import opened RuntimeTheorems
  import opened TraceReplay
  import opened ReplayLaws
  import opened LiveRecording
  import opened LiveReplay

  /** The rules and ticks of one batch, and the history fetched for its recoveries. */
  datatype Batch = Batch(env: Env, fetch: Fetch)

  function Offered(live: Live, b: Batch, accept: nat -> bool): seq<Checkpoint> {
    Process(Fresh(live), b.env.batch, b.env, accept, 0).offered
  }

  /** Each checkpoint with what had been used of its batch by then. */
  function RecordsOf(live: Live, b: Batch, cps: seq<Checkpoint>): seq<Record>
    requires live.anchor.Some? && b.env.batch != []
  {
    if cps == [] then []
    else
      [RecordOf(cps[0], InputsAt(live, Between(b.env.batch, live.anchor.value, cps[0].event.id), b.env, b.fetch))]
      + RecordsOf(live, b, cps[1..])
  }

  datatype Recorded = Recorded(records: seq<Record>, end: Live, settlement: Option<Settlement>)

  /** Batch after batch until one settles; a batch that commits nothing leaves everything as it was. */
  function LiveRun(live: Live, batches: seq<Batch>, accept: nat -> bool): Recorded
    requires live.anchor.Some?
    decreases |batches|
  {
    if batches == [] then Recorded([], live, None)
    else
      var b, cps := batches[0], Offered(live, batches[0], accept);
      if b.env.batch == [] || cps == [] then LiveRun(live, batches[1..], accept)
      else if Last(cps).settlement.Some? then Recorded(RecordsOf(live, b, cps), Resume(Last(cps)), Last(cps).settlement)
      else
        var rest := LiveRun(Resume(Last(cps)), batches[1..], accept);
        rest.(records := RecordsOf(live, b, cps) + rest.records)
  }

  /** A batch holds the stored ticks from the last processed one on, all after the opening, and its look-ahead closes nothing. */
  ghost predicate SteadyBatch(live: Live, b: Batch, journal: seq<Event>, cfg: Config) {
    && live.anchor.Some? && b.env.cfg == cfg
    && LiveRules(b.env, live.now.position.basis, b.fetch)
    && (forall e :: e in b.env.batch ==> !PreOpen(live, e))
    && QuietAhead(live, b.env.batch, b.env)
    && (b.env.batch != [] ==> Between(journal, live.anchor.value, Last(b.env.batch).id) == b.env.batch)
  }

  ghost predicate Steady(live: Live, batches: seq<Batch>, accept: nat -> bool, journal: seq<Event>, cfg: Config)
    decreases |batches|
  {
    batches != [] ==>
      && SteadyBatch(live, batches[0], journal, cfg)
      && var cps := Offered(live, batches[0], accept);
         if batches[0].env.batch == [] || cps == [] then Steady(live, batches[1..], accept, journal, cfg)
         else Last(cps).settlement.None? ==> Steady(Resume(Last(cps)), batches[1..], accept, journal, cfg)
  }

  // ---------------------------------------------------------------- stored ticks, batch by batch

  /** What comes after the first of ordered ticks has greater ids. */
  lemma FirstIsLeast(journal: seq<Event>)
    requires InOrderIds(journal) && journal != []
    ensures InOrderIds(journal[1..]) && forall e :: e in journal[1..] ==> e.id > journal[0].id
  {
    if journal[1..] != [] { IdsInside(journal[1..], journal[0].id); }
  }

  lemma {:induction false} BetweenOrdered(journal: seq<Event>, a: int, z: int)
    requires InOrderIds(journal)
    ensures InOrderIds(Between(journal, a, z)) && forall e :: e in Between(journal, a, z) ==> e in journal
    decreases |journal|
  {
    if journal != [] {
      hide InOrderIds;
      FirstIsLeast(journal);
      BetweenOrdered(journal[1..], a, z);
      var rest := Between(journal[1..], a, z);
      if rest != [] { assert rest[0] in rest; }
      OrderedBefore(journal[0], rest);
      forall e | e in Between(journal, a, z) ensures e in journal { assert e == journal[0] || e in rest; }
    }
  }

  lemma OrderedBefore(e: Event, rest: seq<Event>)
    requires InOrderIds(rest) && (rest != [] ==> e.id < rest[0].id)
    ensures InOrderIds([e] + rest) && [] + rest == rest
  {
  }

  lemma {:induction false} BetweenJoin(journal: seq<Event>, a: int, m: int, z: int)
    requires InOrderIds(journal) && a <= m <= z
    ensures Between(journal, a, z) == Between(journal, a, m) + Between(journal, m, z)
    decreases |journal|
  {
    hide InOrderIds;
    if journal != [] {
      FirstIsLeast(journal);
      BetweenJoin(journal[1..], a, m, z);
      if m < journal[0].id { BetweenAll(journal[1..], a, m); }
    }
  }

  lemma {:induction false} BetweenNothing(journal: seq<Event>, a: int)
    ensures Between(journal, a, a) == []
    decreases |journal|
  {
    if journal != [] { BetweenNothing(journal[1..], a); }
  }

  lemma {:induction false} AppendLegs(a: seq<Leg>, b: seq<Leg>)
    ensures AllEvents(a + b) == AllEvents(a) + AllEvents(b) && AllRecords(a + b) == AllRecords(a) + AllRecords(b)
    decreases |a|
  {
    if a == [] {
      assert a + b == b;
    } else {
      assert (a + b)[0] == a[0] && (a + b)[1..] == a[1..] + b;
      AppendLegs(a[1..], b);
    }
  }

  // ---------------------------------------------------------------- the legs of a batch

  /** The ticks of the batch up to the n-th are those up to its id. */
  lemma BatchPrefix(batch: seq<Event>, anchor: int, n: nat)
    requires InOrderIds(batch) && 0 < n <= |batch| && anchor < batch[0].id
    ensures Between(batch, anchor, batch[n - 1].id) == batch[..n]
  {
    hide Between, InOrderIds;
    IdsInside(batch, anchor);
    BetweenAll(batch, anchor, Last(batch).id);
    assert batch[..n] + batch[n..] == batch && Last(batch[..n]) == batch[n - 1];
    CutAt(batch, anchor, Last(batch).id, batch[..n], batch[n..]);
  }

  /** The legs carry exactly the records of the checkpoints. */
  lemma {:induction false} LegsRecord(live: Live, b: Batch, m: nat, cuts: seq<nat>, cps: seq<Checkpoint>)
    requires live.anchor.Some? && b.env.batch != [] && InOrderIds(b.env.batch) && live.anchor.value < b.env.batch[0].id
    requires m <= |b.env.batch| && Committed(live, b.env, m, cuts, cps)
    ensures AllRecords(LegsOf(live, b.env, b.fetch, m, cuts, cps)) == RecordsOf(live, b, cps)
    decreases |cuts|
  {
    hide Fold, QuietAhead, RecordOf, InputsAt, InOrderIds, Between;
    if cuts != [] {
      var n := cuts[0];
      BatchPrefix(b.env.batch, live.anchor.value, n);
      assert cps[0].event == b.env.batch[n - 1];
      LegsRecord(live, b, n, cuts[1..], cps[1..]);
      var legs := LegsOf(live, b.env, b.fetch, m, cuts, cps);
      assert legs[1..] == LegsOf(live, b.env, b.fetch, n, cuts[1..], cps[1..]);
    }
  }

  /** Where a batch that committed something stands: its last checkpoint is the fold of its first n ticks. */
  predicate StandsIn(live: Live, b: Batch, cp: Checkpoint, n: nat) {
    && live.anchor.Some? && 0 < n <= |b.env.batch|
    && Resume(cp) == StateAt(live, b.env, n) && cp.event.id == IdAt(live, b.env, n)
    && cp.settlement == Fold(live, b.env.batch[..n], b.env).settlement
  }

  lemma BatchIsOrdered(live: Live, b: Batch, journal: seq<Event>, cfg: Config)
    requires SteadyBatch(live, b, journal, cfg) && InOrderIds(journal) && b.env.batch != []
    ensures InOrderIds(b.env.batch) && live.anchor.value < b.env.batch[0].id
  {
    hide QuietAhead, LiveRules;
    BetweenOrdered(journal, live.anchor.value, Last(b.env.batch).id);
    BetweenBounds(journal, live.anchor.value, Last(b.env.batch).id, b.env.batch[0]);
  }

  lemma BatchCommits(live: Live, b: Batch, accept: nat -> bool, journal: seq<Event>, cfg: Config) returns (cuts: seq<nat>)
    requires SteadyBatch(live, b, journal, cfg) && InOrderIds(journal) && AcceptsAll(accept)
    requires b.env.batch != [] && Offered(live, b, accept) != []
    ensures var cps := Offered(live, b, accept);
            cuts != [] && Committed(live, b.env, 0, cuts, cps) && StandsIn(live, b, Last(cps), Last(cuts))
  {
    hide Process, Fold, QuietAhead, LiveRules, Committed, Records, Between, SafeRecover, PreOpen, InOrderIds, RuntimeRecover;
    var env, cps := b.env, Offered(live, b, accept);
    RulesAreLive(env, live.now.position.basis, b.fetch);
    RuntimeRecoverIsSafe(env, b.fetch);
    StandsAtStart(live, env);
    cuts := RunIsCommitted(live, env, 0, 0, Fresh(live), accept, 0);
    assert env.batch[0..] == env.batch;
    LastCommitted(live, env, 0, cuts, cps);
    var n := Last(cuts);
    FoldNamesItsEnd(live, env, b.fetch, n);
    ResumesTheFold(Last(cps), Fold(live, env.batch[..n], env), env.batch[n - 1]);
    RecordedEvent(Last(cps), Fold(live, env.batch[..n], env), env.batch[n - 1]);
  }

  lemma RecordedEvent(cp: Checkpoint, f: Progress, e: Event)
    requires Records(cp, f.live, f.settlement, e)
    ensures cp.event == e
  {
  }

  /** The recording of one batch, followed by the recording of what came later. */
  lemma BatchLegs(live: Live, b: Batch, accept: nat -> bool, journal: seq<Event>, cfg: Config, later: seq<Leg>) returns (legs: seq<Leg>)
    requires SteadyBatch(live, b, journal, cfg) && InOrderIds(journal) && AcceptsAll(accept)
    requires b.env.batch != [] && Offered(live, b, accept) != [] && forall leg :: leg in later ==> leg.events != []
    requires var cp := Last(Offered(live, b, accept));
             if cp.settlement.Some? then later == [] else Recording(Resume(cp), cp.event.id, later, cfg)
    ensures var cps := Offered(live, b, accept);
            var cp, anchor := Last(cps), live.anchor.value;
            && anchor < cp.event.id
            && AllRecords(legs) == RecordsOf(live, b, cps) && AllEvents(legs) == Between(journal, anchor, cp.event.id)
            && (forall leg :: leg in legs + later ==> leg.events != [])
            && Recording(live, anchor, legs + later, cfg)
            && LiveEnd(live, anchor, legs + later) == if cp.settlement.Some? then (Resume(cp), cp.event.id, cp.settlement)
                                                      else LiveEnd(Resume(cp), cp.event.id, later)
  {
    hide Offered, Process, Fold, QuietAhead, LiveRules, Committed, Records, Between, PreOpen, Recording, InOrderIds, LegsOf, AllRecords, LiveEnd,
         RecordsOf, FaithfulLeg;
    var env, cps, anchor := b.env, Offered(live, b, accept), live.anchor.value;
    BatchIsOrdered(live, b, journal, cfg);
    var cuts := BatchCommits(live, b, accept, journal, cfg);
    var n := Last(cuts);
    CommittedLengths(live, env, 0, cuts, cps);
    StandsAtStart(live, env);
    legs := LegsOf(live, env, b.fetch, 0, cuts, cps);
    LegsCover(live, env, b.fetch, 0, cuts, cps);
    LegsRecord(live, b, 0, cuts, cps);
    forall leg | leg in legs + later ensures leg.events != [] { }
    RecordingEndsAtCut(live, env, b.fetch, 0, cuts, cps, later);
    BatchIsRecorded(live, env, b.fetch, 0, cuts, cps, later);
    assert env.batch[..n] + env.batch[n..] == env.batch && Last(env.batch[..n]) == env.batch[n - 1];
    CutAt(journal, anchor, Last(env.batch).id, env.batch[..n], env.batch[n..]);
  }

  /** The whole run is one recording, over exactly the stored ticks it processed. */
  lemma {:induction false} RunLegs(live: Live, batches: seq<Batch>, accept: nat -> bool, journal: seq<Event>, cfg: Config) returns (legs: seq<Leg>)
    requires live.anchor.Some? && Steady(live, batches, accept, journal, cfg) && InOrderIds(journal) && AcceptsAll(accept)
    ensures var run, anchor := LiveRun(live, batches, accept), live.anchor.value;
            && run.end.anchor.Some? && anchor <= run.end.anchor.value
            && (forall leg :: leg in legs ==> leg.events != [])
            && Recording(live, anchor, legs, cfg)
            && AllRecords(legs) == run.records && AllEvents(legs) == Between(journal, anchor, run.end.anchor.value)
            && LiveEnd(live, anchor, legs) == (run.end, run.end.anchor.value, run.settlement)
    decreases |batches|
  {
    hide Offered, Process, Fold, SteadyBatch, Between, Recording, InOrderIds, AllRecords, AllEvents, LiveEnd, RecordsOf, FaithfulLeg;
    var anchor := live.anchor.value;
    if batches == [] {
      legs := [];
      NothingRecorded(live, anchor, cfg);
      BetweenNothing(journal, anchor);
    } else {
      var b, cps := batches[0], Offered(live, batches[0], accept);
      if b.env.batch == [] || cps == [] {
        legs := RunLegs(live, batches[1..], accept, journal, cfg);
      } else if Last(cps).settlement.Some? {
        var own := BatchLegs(live, b, accept, journal, cfg, []);
        assert own + [] == own;
        legs := own;
      } else {
        var mid := Resume(Last(cps));
        var later := RunLegs(mid, batches[1..], accept, journal, cfg);
        var own := BatchLegs(live, b, accept, journal, cfg, later);
        AppendLegs(own, later);
        BetweenJoin(journal, anchor, mid.anchor.value, LiveRun(mid, batches[1..], accept).end.anchor.value);
        legs := own + later;
      }
    }
  }

  lemma NothingRecorded(live: Live, anchor: int, cfg: Config)
    ensures Recording(live, anchor, [], cfg) && LiveEnd(live, anchor, []) == (live, anchor, None) && AllRecords([]) == [] && AllEvents([]) == []
  {
  }

  lemma NoLegsNoRecords(legs: seq<Leg>)
    ensures AllRecords(legs) != [] ==> legs != []
  {
  }

  // ---------------------------------------------------------------- record and replay

  /** The trace that a run leaves behind: its start, its records and its settlement. */
  function TraceOf(live: Live, run: Recorded, journal: seq<Event>, policy: Option<Policy>, cfg: Config): Trace
    requires live.anchor.Some? && run.end.anchor.Some?
  {
    var first, last := live.anchor.value, run.end.anchor.value;
    Trace(live, first, last, policy, false, Some(|Between(journal, first, last)|), run.records, run.settlement, cfg)
  }

  /**
   The run, its own record and its replay. Take any number of batches of the price loop, each holding the stored ticks
   from the last committed checkpoint on, after the opening, with all checkpoints accepted and nothing closed by the
   look-ahead. A batch may stop early for want of a recovery or commit nothing, and its rules may differ from the
   last one's. Recording each checkpoint with the inputs used so far and replaying the records over the stored ticks, in
   pages of any size, ends in the state of the last checkpoint, with its settlement, and reports no difference and no gap.
   */
  lemma CommittedRunReplays(live: Live, batches: seq<Batch>, accept: nat -> bool, journal: seq<Event>, cfg: Config, policy: Option<Policy>,
                            load: Load, entry: Event)
    requires live.anchor.Some? && Steady(live, batches, accept, journal, cfg) && InOrderIds(journal) && AcceptsAll(accept)
    requires Pages(load, journal) && FindEvent(load(live.anchor.value - 1, live.anchor.value), live.anchor.value) == Some(entry)
    requires LiveRun(live, batches, accept).records != []
    ensures var run := LiveRun(live, batches, accept);
            && run.end.anchor.Some?
            && var report := Replay(TraceOf(live, run, journal, policy, cfg), load);
               && report.live == run.end && report.settlement == run.settlement && Some(report.cursor) == run.end.anchor
               && report.gaps == [] && report.differences == [] && !report.thrown
  {
    hide LiveRun, Replay, Pages, Between, Recording, InOrderIds, LiveEnd, Steady, FaithfulLeg;
    var legs := RunLegs(live, batches, accept, journal, cfg);
    var run := LiveRun(live, batches, accept);
    NoLegsNoRecords(legs);
    BetweenOrdered(journal, live.anchor.value, run.end.anchor.value);
    RecordedRunReplays(TraceOf(live, run, journal, policy, cfg), load, legs, journal, entry);
  }
}
