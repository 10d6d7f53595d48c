/** One batch of the price loop: what it commits, cut by cut, and that the recording of its checkpoints covers it. */
module LiveReplay {
  import opened Common
  import opened TickProcessor
  import opened TickProcessorLaws
  import opened BatchLaws
  import opened RuntimeTheorems
  import opened ReplayLaws
  import opened LiveRecording

  // ---------------------------------------------------------------- the loop commits folds, one after another

  /** After `n` ticks of the batch, the last checkpoint before `m`, the loop holds back exactly the state it is in. */
  predicate Standing(start: Live, env: Env, m: nat, n: nat, l: Loop) {
    && m <= n <= |env.batch| && Ran(start, env.batch[..n], env, l.live)
    && (l.pending.Some? <==> n > m)
    && (l.pending.Some? ==> Records(l.pending.value, l.live, None, env.batch[n - 1]))
  }

  lemma {:induction false} QuietPrefix(live: Live, a: seq<Event>, b: seq<Event>, env: Env)
    requires QuietAhead(live, a + b, env)
    ensures QuietAhead(live, a, env)
    ensures !Ended(Fold(live, a, env)) ==> QuietAhead(Fold(live, a, env).live, b, env)
    decreases |a|
  {
    hide StepOn, PreOpen, LookAhead;
    if a == [] {
      assert a + b == b;
    } else {
      assert (a + b)[0] == a[0] && (a + b)[1..] == a[1..] + b;
      var s := StepOn(live, a[0], env);
      if PreOpen(live, a[0]) { QuietPrefix(live, a[1..], b, env); }
      else if s.Stepped? && s.settlement.None? { QuietPrefix(s.live, a[1..], b, env); }
    }
  }

  /** A held-back checkpoint, once out, is a cut at the number of ticks it stands for. */
  lemma PendingIsCut(start: Live, env: Env, m: nat, n: nat, l: Loop, cuts: seq<nat>, cps: seq<Checkpoint>)
    requires Standing(start, env, m, n, l) && l.pending.Some? && QuietAhead(start, env.batch, env)
    requires Committed(start, env, n, cuts, cps)
    ensures Committed(start, env, m, [n] + cuts, [l.pending.value] + cps)
  {
    hide Fold, QuietAhead, Records;
    assert env.batch == env.batch[..n] + env.batch[n..];
    QuietPrefix(start, env.batch[..n], env.batch[n..], env);
    assert ([n] + cuts)[1..] == cuts && ([l.pending.value] + cps)[1..] == cps;
  }

  lemma LastIsCut(start: Live, env: Env, m: nat, n: nat, cp: Checkpoint)
    requires m < n <= |env.batch| && QuietAhead(start, env.batch, env)
    requires var f := Fold(start, env.batch[..n], env);
             f.count == n && f.stopped.None? && Records(cp, f.live, f.settlement, env.batch[n - 1])
    ensures Committed(start, env, m, [n], [cp])
  {
    hide Fold, QuietAhead, Records;
    assert env.batch == env.batch[..n] + env.batch[n..];
    QuietPrefix(start, env.batch[..n], env.batch[n..], env);
    assert [n][1..] == [] && [cp][1..] == [];
  }

  /** Every checkpoint of a run records the fold of a longer and longer prefix of its batch. */
  lemma {:induction false} RunIsCommitted(start: Live, env: Env, m: nat, n: nat, l: Loop, accept: nat -> bool, count: nat) returns (cuts: seq<nat>)
    requires AcceptsAll(accept) && Standing(start, env, m, n, l) && QuietAhead(start, env.batch, env)
    requires forall e :: e in env.batch ==> !PreOpen(l.live, e)
    requires SafeRecover(env)
    ensures Committed(start, env, m, cuts, Process(l, env.batch[n..], env, accept, count).offered)
    decreases |env.batch| - n
  {
    hide StepOn, PreOpen, LookAhead, MustFlush, Fold, QuietAhead, Records, SafeRecover, Committed, Standing, TickCheckpoint;
    StandingMeans(start, env, m, n, l);
    var rest := env.batch[n..];
    NoneCommitted(start, env, n);
    NoneCommitted(start, env, m);
    if rest == [] {
      cuts := [];
      if l.pending.Some? {
        PendingIsCut(start, env, m, n, l, [], []);
        cuts := [n] + [];
        assert [l.pending.value] + [] == Emit(l.pending);
      }
    } else {
      var e := rest[0];
      assert e in env.batch && rest[1..] == env.batch[n + 1..];
      QuietHere(start, env, m, n, l);
      var flushed := if MustFlush(l, e, env) then Emit(l.pending) else [];
      FlushIsPending(l, e, env);
      var from := if flushed == [] then m else n;
      var s := StepOn(l.live, e, env);
      var tail, cps: seq<Checkpoint> := [], [];
      if s.Stepped? {
        StepStands(start, env, m, n, l);
        if s.settlement.Some? {
          tail, cps := [n + 1], [TickCheckpoint(l, e, s)];
        } else {
          tail := RunIsCommitted(start, env, from, n + 1, AfterStep(l, e, s), accept, count + |flushed|);
          cps := Process(AfterStep(l, e, s), rest[1..], env, accept, count + |flushed|).offered;
        }
      }
      assert Process(l, rest, env, accept, count).offered == flushed + cps;
      if flushed == [] {
        assert flushed + cps == cps;
        cuts := tail;
      } else {
        PendingIsCut(start, env, m, n, l, tail, cps);
        cuts := [n] + tail;
      }
    }
  }

  lemma StandingMeans(start: Live, env: Env, m: nat, n: nat, l: Loop)
    requires Standing(start, env, m, n, l)
    ensures m <= n <= |env.batch| && (l.pending.Some? <==> n > m)
  {
    hide Fold, Records;
  }

  lemma QuietHere(start: Live, env: Env, m: nat, n: nat, l: Loop)
    requires Standing(start, env, m, n, l) && n < |env.batch| && QuietAhead(start, env.batch, env) && !PreOpen(l.live, env.batch[n])
    ensures LookAhead(l.live, env.batch[n], env).None?
  {
    hide Fold, QuietAhead, Records, PreOpen, LookAhead;
    assert env.batch[..n] + env.batch[n..] == env.batch;
    QuietPrefix(start, env.batch[..n], env.batch[n..], env);
    QuietNow(l.live, env.batch[n..], env);
  }

  /** After a step the loop stands one tick further, whether or not it let its checkpoint go first. */
  lemma StepStands(start: Live, env: Env, m: nat, n: nat, l: Loop)
    requires Standing(start, env, m, n, l) && n < |env.batch| && QuietAhead(start, env.batch, env) && SafeRecover(env)
    requires !PreOpen(l.live, env.batch[n]) && StepOn(l.live, env.batch[n], env).Stepped?
    ensures var e := env.batch[n];
            var s := StepOn(l.live, e, env);
            && s.live.now.position.basis == l.live.now.position.basis
            && (s.settlement.None? ==> Standing(start, env, m, n + 1, AfterStep(l, e, s)) && Standing(start, env, n, n + 1, AfterStep(l, e, s)))
            && (s.settlement.Some? ==> Committed(start, env, m, [n + 1], [TickCheckpoint(l, e, s)])
                                       && Committed(start, env, n, [n + 1], [TickCheckpoint(l, e, s)]))
    ensures forall e :: e in env.batch && !PreOpen(l.live, e) ==> !PreOpen(StepOn(l.live, env.batch[n], env).live, e)
  {
    hide StepOn, Fold, QuietAhead, Records, SafeRecover, Committed;
    var e := env.batch[n];
    var s := StepOn(l.live, e, env);
    assert env.batch[..n] + [e] == env.batch[..n + 1];
    OneMore(start, env.batch[..n], e, env, l.live);
    StreamAfterStep(l.live, e, env);
    StepIsMonotone(l.live, e, env);
    TickIsRecorded(l, e, s);
    if s.settlement.Some? {
      LastIsCut(start, env, m, n + 1, TickCheckpoint(l, e, s));
      LastIsCut(start, env, n, n + 1, TickCheckpoint(l, e, s));
    }
  }

  lemma NoneCommitted(start: Live, env: Env, m: nat)
    ensures Committed(start, env, m, [], [])
  {
  }

  lemma QuietNow(live: Live, events: seq<Event>, env: Env)
    requires events != [] && !PreOpen(live, events[0]) && QuietAhead(live, events, env)
    ensures LookAhead(live, events[0], env).None?
  {
  }

  lemma FlushIsPending(l: Loop, e: Event, env: Env)
    ensures MustFlush(l, e, env) ==> l.pending.Some?
  {
  }

  lemma TickIsRecorded(l: Loop, e: Event, s: Step)
    requires s.Stepped? && s.live.stream == Some(e.stream) && s.live.mark == e.price
    ensures Records(TickCheckpoint(l, e, s), s.live, s.settlement, e)
  {
  }

  // ---------------------------------------------------------------- the recording covers the run

  function CutAtLast(m: nat, cuts: seq<nat>): nat {
    if cuts == [] then m else Last(cuts)
  }

  lemma {:induction false} LegsCover(live: Live, env: Env, fetch: Fetch, m: nat, cuts: seq<nat>, cps: seq<Checkpoint>)
    requires m <= |env.batch| && Committed(live, env, m, cuts, cps)
    ensures m <= CutAtLast(m, cuts) <= |env.batch|
    ensures AllEvents(LegsOf(live, env, fetch, m, cuts, cps)) == env.batch[m..CutAtLast(m, cuts)]
    ensures forall leg :: leg in LegsOf(live, env, fetch, m, cuts, cps) ==> leg.events != []
    decreases |cuts|
  {
    hide Fold, QuietAhead, Records, RecordOf, InputsAt;
    if cuts != [] {
      var n := cuts[0];
      LegsCover(live, env, fetch, n, cuts[1..], cps[1..]);
      assert CutAtLast(n, cuts[1..]) == CutAtLast(m, cuts) by { if |cuts| > 1 { assert Last(cuts[1..]) == Last(cuts); } }
      var legs := LegsOf(live, env, fetch, m, cuts, cps);
      assert legs[0].events == env.batch[m..n] && legs[1..] == LegsOf(live, env, fetch, n, cuts[1..], cps[1..]);
      assert env.batch[m..n] + env.batch[n..CutAtLast(m, cuts)] == env.batch[m..CutAtLast(m, cuts)];
    }
  }

  /** The recording ends where the fold of the last cut is, or where what came later ends. */
  lemma {:induction false} RecordingEndsAtCut(live: Live, env: Env, fetch: Fetch, m: nat, cuts: seq<nat>, cps: seq<Checkpoint>, later: seq<Leg>)
    requires m <= |env.batch| && live.anchor.Some? && Committed(live, env, m, cuts, cps) && Ran(live, env.batch[..m], env, StateAt(live, env, m))
    requires forall leg :: leg in LegsOf(live, env, fetch, m, cuts, cps) + later ==> leg.events != []
    ensures CutAtLast(m, cuts) <= |env.batch| && forall leg :: leg in later ==> leg.events != []
    ensures var n := CutAtLast(m, cuts);
            var settlement := Fold(live, env.batch[..n], env).settlement;
            LiveEnd(StateAt(live, env, m), IdAt(live, env, m), LegsOf(live, env, fetch, m, cuts, cps) + later)
            == if settlement.Some? then (StateAt(live, env, n), IdAt(live, env, n), settlement)
               else LiveEnd(StateAt(live, env, n), IdAt(live, env, n), later)
    decreases |cuts|
  {
    hide Fold, QuietAhead, Records, RecordOf, InputsAt;
    var legs := LegsOf(live, env, fetch, m, cuts, cps) + later;
    forall leg | leg in later ensures leg.events != [] { assert leg in legs; }
    if cuts == [] {
      assert legs == later;
    } else {
      var n := cuts[0];
      var a, z := env.batch[..m], env.batch[m..n];
      assert a + z == env.batch[..n];
      FoldCut(live, a, z, env);
      var rest := LegsOf(live, env, fetch, n, cuts[1..], cps[1..]) + later;
      assert legs[0].events == z && legs[1..] == rest && Last(z) == env.batch[n - 1];
      forall leg | leg in rest ensures leg.events != [] { assert leg in legs; }
      if Fold(live, env.batch[..n], env).settlement.None? {
        OpenFoldRan(live, env.batch[..n], env);
        RecordingEndsAtCut(live, env, fetch, n, cuts[1..], cps[1..], later);
        assert CutAtLast(n, cuts[1..]) == CutAtLast(m, cuts) by { if |cuts| > 1 { assert Last(cuts[1..]) == Last(cuts); } }
      }
    }
  }

  /** Committed checkpoints end with one that describes the fold of its ticks. */
  lemma {:induction false} LastCommitted(live: Live, env: Env, m: nat, cuts: seq<nat>, cps: seq<Checkpoint>)
    requires Committed(live, env, m, cuts, cps) && cps != []
    ensures cuts != [] && 0 < Last(cuts) <= |env.batch|
    ensures var n := Last(cuts);
            var f := Fold(live, env.batch[..n], env);
            f.count == n && f.stopped.None? && Records(Last(cps), f.live, f.settlement, env.batch[n - 1])
    decreases |cuts|
  {
    hide Fold, QuietAhead, Records;
    if |cuts| > 1 {
      LastCommitted(live, env, cuts[0], cuts[1..], cps[1..]);
      assert Last(cuts[1..]) == Last(cuts) && Last(cps[1..]) == Last(cps);
    }
  }

  lemma ResumesTheFold(cp: Checkpoint, f: Progress, e: Event)
    requires Records(cp, f.live, f.settlement, e) && f.live.stream == Some(e.stream) && f.live.anchor == Some(e.id)
    ensures Resume(cp) == f.live && cp.settlement == f.settlement
  {
  }

  lemma FoldNamesItsEnd(live: Live, env: Env, fetch: Fetch, n: nat)
    requires LiveRules(env, live.now.position.basis, fetch) && 0 < n <= |env.batch| && forall e :: e in env.batch ==> !PreOpen(live, e)
    requires Fold(live, env.batch[..n], env).count == n && Fold(live, env.batch[..n], env).stopped.None?
    ensures var f, e := Fold(live, env.batch[..n], env), env.batch[n - 1];
            f.live.stream == Some(e.stream) && f.live.anchor == Some(e.id)
  {
    hide Fold, LiveRules, SafeRecover, PreOpen, RuntimeRecover;
    RulesAreLive(env, live.now.position.basis, fetch);
    RuntimeRecoverIsSafe(env, fetch);
    EndsAtLast(live, env.batch[..n], env);
  }

  lemma StandsAtStart(live: Live, env: Env)
    ensures Standing(live, env, 0, 0, Fresh(live)) && StateAt(live, env, 0) == live && (live.anchor.Some? ==> IdAt(live, env, 0) == live.anchor.value)
  {
    assert env.batch[..0] == [];
  }

  lemma CommittedLengths(live: Live, env: Env, m: nat, cuts: seq<nat>, cps: seq<Checkpoint>)
    requires Committed(live, env, m, cuts, cps)
    ensures |cuts| == |cps|
  {
  }
}
