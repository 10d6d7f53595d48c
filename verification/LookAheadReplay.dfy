/** When a position that the look-ahead closed is closed again in replay: a page must reach the exit. */
module LookAheadReplay {
  import opened Common
  import opened Engine
  import opened TickProcessor
  import opened TickProcessorLaws
  import opened BatchLaws
  import opened TraceReplay
  import opened ReplayLaws

  /** The checkpoint closes at the tick that the look-ahead found, at the levels confirmed before the gap. */
  predicate ClosesAt(cp: Checkpoint, mid: Live, found: Found) {
    && cp.now == mid.now && cp.event == found.event && cp.settlement == Some(found.settlement) && cp.signalAt == mid.signalAt
    && cp.through == found.event.observedAt && cp.stream == found.event.stream && cp.mark == found.event.price
  }

  // ---------------------------------------------------------------- the loop up to the gap

  /** What the loop offers when quiet ticks are followed by a gap: the look-ahead's close, or nothing beyond the last quiet tick. */
  lemma {:induction false} UpToGap(l: Loop, a: seq<Event>, rest: seq<Event>, env: Env, mid: Live, accept: nat -> bool, count: nat)
    requires Ran(l.live, a, env, mid) && QuietAhead(l.live, a, env) && AcceptsAll(accept)
    requires rest != [] && !PreOpen(mid, rest[0]) && StreamChanged(mid, rest[0])
    ensures var run, found := Process(l, a + rest, env, accept, count), LookAhead(mid, rest[0], env);
            && (found.Some? ==> run.outcome == Finished && run.offered != [] && ClosesAt(Last(run.offered), mid, found.value))
            && (found.None? && StepOn(mid, rest[0], env).RecoveryFailed? ==>
                  && run.outcome == RecoveryMissing
                  && if a == [] then run.offered == Emit(l.pending)
                     else run.offered != [] && Last(run.offered).event == Last(a) && Last(run.offered).settlement.None?
                          && Resume(Last(run.offered)).through == mid.through)
    decreases |a|
  {
    hide StepOn, PreOpen, LookAhead, FirstConsultation;
    if a == [] {
      assert a + rest == rest;
    } else {
      var e := a[0];
      assert (a + rest)[0] == e && (a + rest)[1..] == a[1..] + rest;
      if PreOpen(l.live, e) {
        UpToGap(l.(pending := Some(PreOpenCheckpoint(l, e))), a[1..], rest, env, mid, accept, count);
        OneLeft(a);
      } else {
        var s := StepOn(l.live, e, env);
        var flushed := if MustFlush(l, e, env) then Emit(l.pending) else [];
        UpToGap(AfterStep(l, e, s), a[1..], rest, env, mid, accept, count + |flushed|);
        OneLeft(a);
      }
    }
  }

  lemma OneLeft(a: seq<Event>)
    requires a != []
    ensures a[1..] == [] ==> Last(a) == a[0]
    ensures a[1..] != [] ==> Last(a[1..]) == Last(a)
  {
  }

  // ---------------------------------------------------------------- what the look-ahead of a page sees

  lemma {:induction false} IdsFromCut(a: seq<Event>, rest: seq<Event>)
    requires InOrderIds(a + rest) && rest != []
    ensures IdsFrom(a + rest, rest[0].id) == rest
    decreases |a|
  {
    if a == [] {
      assert a + rest == rest;
      InOrderKeeps(rest, rest[0].id);
    } else {
      assert (a + rest)[0] == a[0] && (a + rest)[1..] == a[1..] + rest;
      InOrderParts(a, rest);
      IdsInside(a, a[0].id - 1);
      assert [a[0]] + (a[1..] + rest) == a + rest;
      InOrderParts([a[0]], a[1..] + rest);
      IdsFromCut(a[1..], rest);
    }
  }

  lemma {:induction false} InOrderKeeps(events: seq<Event>, id: int)
    requires InOrderIds(events) && (events != [] ==> events[0].id >= id)
    ensures IdsFrom(events, id) == events
    decreases |events|
  {
    if events != [] {
      assert [events[0]] + events[1..] == events;
      InOrderParts([events[0]], events[1..]);
      InOrderKeeps(events[1..], id);
    }
  }

  /** The ticks that the look-ahead of a page scans: what is left of it and, if it is newer still, the record's latest tick. */
  function Visible(rest: seq<Event>, latest: Option<Event>): seq<Event>
    requires rest != []
  {
    if latest.Some? && latest.value.id > Last(rest).id then rest + [latest.value] else rest
  }

  lemma {:induction false} FoundSettles(p: Position, through: int, events: seq<Event>, cfg: Config)
    ensures var found := FirstExit(p, through, events, cfg);
            found.Some? ==>
              (found.value.event in events && TickExit(p, found.value.event.price, found.value.event.observedAt, cfg) == Some(found.value.settlement))
    decreases |events|
  {
    hide TickExit;
    if events != [] { FoundSettles(p, through, events[1..], cfg); }
  }

  lemma {:induction false} FirstExitOfParts(p: Position, through: int, a: seq<Event>, b: seq<Event>, cfg: Config)
    ensures FirstExit(p, through, a + b, cfg) == if FirstExit(p, through, a, cfg).Some? then FirstExit(p, through, a, cfg) else FirstExit(p, through, b, cfg)
    decreases |a|
  {
    hide TickExit;
    if a == [] {
      assert a + b == b;
    } else {
      assert (a + b)[0] == a[0] && (a + b)[1..] == a[1..] + b;
      FirstExitOfParts(p, through, a[1..], b, cfg);
    }
  }

  // ---------------------------------------------------------------- replay of a look-ahead's close

  /**
   A live run takes quiet ticks from a confirmed checkpoint, meets a gap, and its look-ahead closes the position. The
   page of the record holds those quiet ticks, the tick behind the gap and whatever stored ticks come next. The pool is
   all of these ticks; an id names one of them.
   */
  ghost predicate ClosedAhead(live: Live, cursor: int, a: seq<Event>, rest: seq<Event>, mid: Live, env: Env, inputs: TraceInputs, pool: seq<Event>,
                        cfg: Config, found: Found) {
    var rules := RecordRules(cfg, live.now.position.basis, inputs);
    && live.anchor == Some(cursor) && rest != [] && InOrderIds(a + rest) && (a + rest)[0].id > cursor && (a + rest)[0].id >= inputs.firstEventId
    && env.cfg == cfg && env.protectFirst == inputs.protectFirst
    && Ran(live, a, env, mid) && Agrees(live, a, env, rules) && NothingAhead(live, a, env, pool)
    && (forall e :: e in a + rest || inputs.latest == Some(e) || e == found.event ==> e in pool)
    && (forall x, y :: x in pool && y in pool && x.id == y.id ==> x == y)
    && !PreOpen(mid, rest[0]) && StreamChanged(mid, rest[0]) && LookAhead(mid, rest[0], env) == Some(found)
    && FindRecovery(inputs.recoveries, rest[0].id).None?
  }

  /**
   Replay closes such a position at the first exit that the page or the record's latest tick shows, at the levels
   confirmed before the gap; it is the recorded close if and only if that first exit is the recorded one. If they show
   none, replay asks for the recovery that the look-ahead had made unnecessary and ends with that gap.
   */
  lemma LookAheadCloseReplays(st: State, live: Live, a: seq<Event>, rest: seq<Event>, mid: Live, env: Env, inputs: TraceInputs,
                              pool: seq<Event>, cfg: Config, found: Found)
    requires !Stopped(st) && st.live == live && ClosedAhead(live, st.cursor, a, rest, mid, env, inputs, pool, cfg, found)
    ensures var next, seen := ReplaySegment(st, a + rest, cfg, Some(inputs)), FirstExit(mid.now.position, mid.through, Visible(rest, inputs.latest), cfg);
            && !next.thrown
            && (next.settlement == Some(found.settlement) && next.cursor == found.event.id <==> seen == Some(found))
            && if seen.Some?
               then next.settlement == Some(seen.value.settlement) && next.cursor == seen.value.event.id && next.live.now == mid.now && next.gaps == []
               else next.settlement.None? && next.gaps == [NoRecovery(rest[0].id)]
  {
    hide Process, Fold, Agrees, NothingAhead, QuietAhead, PreOpen, InOrderIds, StepOn, LookAhead, FirstAfter, FirstExit, Candidates, FindRecovery;
    var page := a + rest;
    var from := Effective(st, page, Some(inputs));
    var here := ReplayEnv(from, cfg, Some(inputs), page);
    assert from.live.(anchor := Some(st.cursor)) == live;
    var rules := RecordRules(cfg, live.now.position.basis, inputs);
    AgreesSameRules(live, a, env, rules, here);
    AgreeingFolds(live, a, env, here);
    PageIsQuiet(live, a, rest, env, here, pool);
    SeenFromPage(mid, a, rest, env, here);
    SameTickSameExit(mid, a, rest, env, inputs.latest, pool, found);
    UpToGap(Fresh(live), a, rest, here, mid, n => true, 0);
    var run := Process(Fresh(live), page, here, n => true, 0);
    if LookAhead(mid, rest[0], here).Some? {
      ApplyAllLast(from, page, run.offered);
    } else {
      NoRecord(mid, rest[0], here, inputs);
      GapIsNamed(a, rest, st.cursor);
      if a != [] { ApplyAllLast(from, page, run.offered); }
    }
  }

  /**
   A page that holds at least what the live batch held shows the recorded exit whenever the batch did. If only the latest
   live tick exited, what the page shows first is decided by the stored ticks that come after the batch.
   */
  lemma WhatTheBatchShowed(mid: Live, rest: seq<Event>, env: Env, latest: Option<Event>, more: seq<Event>, found: Found)
    requires rest != [] && StreamChanged(mid, rest[0]) && LookAhead(mid, rest[0], env) == Some(found)
    requires rest == IdsFrom(env.batch, rest[0].id) + more
    ensures var p, stored := mid.now.position, IdsFrom(env.batch, rest[0].id);
            var seen := FirstExit(p, mid.through, Visible(rest, latest), env.cfg);
            && (FirstExit(p, mid.through, stored, env.cfg).Some? ==> seen == Some(found))
            && (FirstExit(p, mid.through, stored, env.cfg).None? ==>
                  env.latest == Some(found.event) && seen == FirstExit(p, mid.through, if Visible(rest, latest) == rest then more else more + [latest.value], env.cfg))
  {
    hide FirstExit, IdsFrom;
    var p, stored := mid.now.position, IdsFrom(env.batch, rest[0].id);
    var tail := if Visible(rest, latest) == rest then more else more + [latest.value];
    assert Visible(rest, latest) == stored + tail;
    FirstExitOfParts(p, mid.through, stored, tail, env.cfg);
    if Candidates(rest[0], env) != stored {
      FirstExitOfParts(p, mid.through, stored, [env.latest.value], env.cfg);
      FoundSettles(p, mid.through, [env.latest.value], env.cfg);
    }
  }

  lemma PageIsQuiet(live: Live, a: seq<Event>, rest: seq<Event>, env: Env, here: Env, pool: seq<Event>)
    requires NothingAhead(live, a, env, pool) && Agrees(live, a, env, here) && here.cfg == env.cfg && here.batch == a + rest
    requires here.protectFirst == env.protectFirst && forall e :: e in a + rest || here.latest == Some(e) ==> e in pool
    ensures QuietAhead(live, a, here)
  {
    hide NothingAhead, Agrees, QuietAhead;
    forall e | e in a ensures e in here.batch { }
    NothingAheadIsQuiet(live, a, env, here, pool);
  }

  lemma SeenFromPage(mid: Live, a: seq<Event>, rest: seq<Event>, env: Env, here: Env)
    requires rest != [] && InOrderIds(a + rest) && StreamChanged(mid, rest[0]) && LookAhead(mid, rest[0], env).Some?
    requires here.protectFirst == env.protectFirst && here.batch == a + rest
    ensures LookAhead(mid, rest[0], here) == FirstExit(mid.now.position, mid.through, Visible(rest, here.latest), here.cfg)
  {
    hide FirstExit, IdsFrom, InOrderIds;
    IdsFromCut(a, rest);
  }

  /** The settlement follows from the tick, so two exits at one id are the same. */
  lemma SameTickSameExit(mid: Live, a: seq<Event>, rest: seq<Event>, env: Env, latest: Option<Event>, pool: seq<Event>, found: Found)
    requires rest != [] && LookAhead(mid, rest[0], env) == Some(found) && StreamChanged(mid, rest[0])
    requires forall e :: e in a + rest || latest == Some(e) || e == found.event ==> e in pool
    requires forall x, y :: x in pool && y in pool && x.id == y.id ==> x == y
    ensures var seen := FirstExit(mid.now.position, mid.through, Visible(rest, latest), env.cfg);
            seen.Some? && seen.value.event.id == found.event.id ==> seen == Some(found)
  {
    hide FirstExit, Candidates, TickExit;
    var p := mid.now.position;
    FoundSettles(p, mid.through, Candidates(rest[0], env), env.cfg);
    FoundSettles(p, mid.through, Visible(rest, latest), env.cfg);
  }

  lemma NoRecord(mid: Live, e: Event, here: Env, inputs: TraceInputs)
    requires here.recover == ReplayRecover(here.cfg, here.policy, inputs.recoveries) && StreamChanged(mid, e)
    requires FindRecovery(inputs.recoveries, e.id).None?
    ensures StepOn(mid, e, here).RecoveryFailed?
    ensures forall since :: Recorded(inputs.recoveries, e.id, since).None?
  {
    hide TakeTick;
  }

  /** After the quiet ticks, and from the cursor if there are none, the tick behind the gap comes first. */
  lemma GapIsNamed(a: seq<Event>, rest: seq<Event>, cursor: int)
    requires rest != [] && InOrderIds(a + rest) && (a + rest)[0].id > cursor
    ensures FirstAfter(a + rest, if a == [] then cursor else Last(a).id) == Some(rest[0])
  {
    if a == [] {
      assert a + rest == rest;
    } else {
      InOrderParts(a, rest);
      IdsInside(a, cursor);
      SkipsThrough(a, rest, Last(a).id);
    }
  }

  lemma {:induction false} SkipsThrough(a: seq<Event>, rest: seq<Event>, id: int)
    requires rest != [] && rest[0].id > id && forall e :: e in a ==> e.id <= id
    ensures FirstAfter(a + rest, id) == Some(rest[0])
    decreases |a|
  {
    if a == [] {
      assert a + rest == rest;
    } else {
      assert a[0] in a && (a + rest)[0] == a[0] && (a + rest)[1..] == a[1..] + rest;
      SkipsThrough(a[1..], rest, id);
    }
  }
}
