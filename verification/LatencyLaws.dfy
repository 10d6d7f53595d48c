/** What a snapshot counts, and what its percentiles mean. */
module LatencyLaws {
  import opened Common
  import opened Latency

  function Buckets(log: seq<Note>, startedAt: int): seq<Bucket> {
    if log == [] then [] else After(Buckets(log[..|log| - 1], startedAt), log[|log| - 1], startedAt)
  }

  predicate InPhase(at: int, startedAt: int, phase: Phase) {
    match phase
    case All => true
    case Startup => IsStartup(at, startedAt)
    case Steady => !IsStartup(at, startedAt)
  }

  predicate Counts(note: Note, startedAt: int, phase: Phase, name: string, above: int, through: int) {
    note.Observed? && note.name == name && InPhase(note.at, startedAt, phase) && above < TimeOf(note.at) <= through
  }

  /** The observations of a name whose bucket lies in a range, in order. */
  function Values(log: seq<Note>, startedAt: int, phase: Phase, name: string, above: int, through: int): seq<real> {
    if log == [] then []
    else
      var before, last := Values(log[..|log| - 1], startedAt, phase, name, above, through), log[|log| - 1];
      if Counts(last, startedAt, phase, name, above, through) then before + [last.ms] else before
  }

  /** The histogram of a plain list of values. */
  function Hist(values: seq<real>): Histogram {
    if values == [] then Empty() else Add(Hist(values[..|values| - 1]), values[|values| - 1])
  }

  function HistIn(log: seq<Note>, startedAt: int, phase: Phase, name: string, above: int, through: int): Histogram {
    Hist(Values(log, startedAt, phase, name, above, through))
  }

  lemma HistOneMore(values: seq<real>, v: real)
    ensures Hist(values + [v]) == Add(Hist(values), v)
  {
    assert (values + [v])[..|values|] == values;
  }

  lemma MergeEmpty(a: Histogram)
    requires a.max >= 0.0
    ensures Merge(a, Empty()) == a
  {
    hide Empty, Sums;
    EmptyCounts();
    assert Sums(a.counts, Empty().counts) == a.counts;
  }

  lemma EmptyCounts()
    ensures Empty().count == 0 && Empty().sum == 0.0 == Empty().max && forall i :: 0 <= i <= OPEN ==> Empty().counts[i] == 0
  {
  }

  lemma SumsAt(a: seq<nat>, b: seq<nat>, i: nat)
    requires |a| == |b| && i < |a|
    ensures |Sums(a, b)| == |a| && Sums(a, b)[i] == a[i] + b[i]
  {
    hide Sums;
  }

  lemma SameCounts(a: seq<nat>, b: seq<nat>)
    requires |a| == |b| && forall i :: 0 <= i < |a| ==> a[i] == b[i]
    ensures a == b
  {
  }

  /** Counting one more in one of two lists of counts counts one more in their sum. */
  lemma SumsAdd(a: seq<nat>, b: seq<nat>, k: nat, more: seq<nat>, sum: seq<nat>)
    requires |a| == |b| && k < |a| && more == b[k := b[k] + 1] && sum == Sums(a, b)[k := Sums(a, b)[k] + 1]
    ensures Sums(a, more) == sum
  {
    hide Sums;
    forall i | 0 <= i < |a| ensures Sums(a, more)[i] == sum[i] { SumsAddAt(a, b, k, more, sum, i); }
    SameCounts(Sums(a, more), sum);
  }

  lemma SumsAddAt(a: seq<nat>, b: seq<nat>, k: nat, more: seq<nat>, sum: seq<nat>, i: nat)
    requires |a| == |b| && k < |a| && more == b[k := b[k] + 1] && sum == Sums(a, b)[k := Sums(a, b)[k] + 1] && i < |a|
    ensures Sums(a, more)[i] == sum[i]
  {
    hide Sums;
    SumsAt(a, b, i);
    SumsAt(a, more, i);
    if i == k { assert more[i] == b[i] + 1; } else { assert more[i] == b[i]; }
  }

  lemma SumsCommute(a: seq<nat>, b: seq<nat>)
    requires |a| == |b|
    ensures Sums(a, b) == Sums(b, a)
  {
    hide Sums;
    SameCounts(Sums(a, b), Sums(b, a));
  }

  lemma MergeAdd(a: Histogram, b: Histogram, v: real)
    ensures Merge(a, Add(b, v)) == Add(Merge(a, b), v)
    ensures Merge(Add(a, v), b) == Add(Merge(a, b), v)
  {
    hide Slot, Sums;
    var sum := Add(Merge(a, b), v).counts;
    SumsAdd(a.counts, b.counts, Slot(v), Add(b, v).counts, sum);
    SumsCommute(a.counts, b.counts);
    SumsCommute(b.counts, Add(a, v).counts);
    SumsAdd(b.counts, a.counts, Slot(v), Add(a, v).counts, sum);
  }

  lemma {:induction false} HistIsNonNegative(values: seq<real>)
    ensures Hist(values).max >= 0.0 && Hist(values).count == |values|
    decreases |values|
  {
    if values != [] { HistIsNonNegative(values[..|values| - 1]); }
  }

  /** Every observation of a range falls into exactly one of two adjoining ranges. */
  lemma {:induction false} RangesMerge(log: seq<Note>, startedAt: int, phase: Phase, name: string, above: int, mid: int, through: int)
    requires above <= mid <= through
    ensures Merge(HistIn(log, startedAt, phase, name, above, mid), HistIn(log, startedAt, phase, name, mid, through))
         == HistIn(log, startedAt, phase, name, above, through)
    decreases |log|
  {
    hide Merge, Add, Hist, TimeOf, InPhase;
    if log == [] {
      EmptyHist();
    } else {
      var before, last := log[..|log| - 1], log[|log| - 1];
      RangesMerge(before, startedAt, phase, name, above, mid, through);
      var low, high := Values(before, startedAt, phase, name, above, mid), Values(before, startedAt, phase, name, mid, through);
      var both := Values(before, startedAt, phase, name, above, through);
      if Counts(last, startedAt, phase, name, above, through) { OneMoreMerges(low, high, both, last.ms); }
    }
  }

  lemma EmptyHist()
    ensures Hist([]) == Empty() && Merge(Empty(), Empty()) == Empty()
  {
    hide Merge;
    MergeEmpty(Empty());
  }

  lemma OneMoreMerges(low: seq<real>, high: seq<real>, both: seq<real>, v: real)
    requires Merge(Hist(low), Hist(high)) == Hist(both)
    ensures Merge(Hist(low + [v]), Hist(high)) == Hist(both + [v]) == Merge(Hist(low), Hist(high + [v]))
  {
    hide Merge, Add, Hist;
    MergeAdd(Hist(low), Hist(high), v);
    HistOneMore(low, v);
    HistOneMore(high, v);
    HistOneMore(both, v);
  }

  /** Every observation belongs to exactly one of the two phases. */
  lemma {:induction false} PhasesMerge(log: seq<Note>, startedAt: int, name: string, above: int, through: int)
    ensures Merge(HistIn(log, startedAt, Startup, name, above, through), HistIn(log, startedAt, Steady, name, above, through))
         == HistIn(log, startedAt, All, name, above, through)
    decreases |log|
  {
    hide Merge, Add, Hist, TimeOf, IsStartup;
    if log == [] {
      EmptyHist();
    } else {
      var before, last := log[..|log| - 1], log[|log| - 1];
      PhasesMerge(before, startedAt, name, above, through);
      var early, late := Values(before, startedAt, Startup, name, above, through), Values(before, startedAt, Steady, name, above, through);
      var both := Values(before, startedAt, All, name, above, through);
      if Counts(last, startedAt, All, name, above, through) { OneMoreMerges(early, late, both, last.ms); }
    }
  }

  // ---------------------------------------------------------------- the buckets hold the window

  predicate Chronological(log: seq<Note>) {
    forall i :: 0 < i < |log| ==> log[i - 1].at <= log[i].at
  }

  /** Every bucket holds the observations of its ten seconds. */
  ghost predicate Faithful(b: Bucket, log: seq<Note>, startedAt: int) {
    forall phase, name :: Look(SamplesOf(b, phase), name) == HistIn(log, startedAt, phase, name, b.time - 1, b.time)
  }

  predicate Ascending(buckets: seq<Bucket>) {
    forall i, j :: 0 <= i < j < |buckets| ==> buckets[i].time < buckets[j].time
  }

  predicate Placed(buckets: seq<Bucket>, time: int) {
    && buckets != [] && Ascending(buckets) && buckets[|buckets| - 1].time == time
    && forall b :: b in buckets ==> time - WINDOW < b.time <= time
  }

  ghost predicate AllFaithful(buckets: seq<Bucket>, log: seq<Note>, startedAt: int) {
    forall b :: b in buckets ==> Faithful(b, log, startedAt)
  }

  predicate HasTime(buckets: seq<Bucket>, time: int) {
    exists b :: b in buckets && b.time == time
  }

  /** Every note of the window has its bucket. */
  ghost predicate Covered(buckets: seq<Bucket>, log: seq<Note>, time: int) {
    forall n :: n in log && TimeOf(n.at) > time - WINDOW ==> HasTime(buckets, TimeOf(n.at))
  }

  ghost predicate Holds(buckets: seq<Bucket>, log: seq<Note>, startedAt: int, now: int) {
    Placed(buckets, TimeOf(now)) && AllFaithful(buckets, log, startedAt) && Covered(buckets, log, TimeOf(now))
  }

  lemma TimeMonotone(a: int, b: int)
    requires a <= b
    ensures TimeOf(a) <= TimeOf(b)
  {
  }

  /** Of ascending buckets, those after the first are ascending and later. */
  lemma TailAscends(buckets: seq<Bucket>)
    requires Ascending(buckets) && buckets != []
    ensures Ascending(buckets[1..]) && forall b :: b in buckets[1..] ==> b.time > buckets[0].time
  {
    assert forall k :: 0 <= k < |buckets| - 1 ==> buckets[1..][k] == buckets[k + 1];
  }

  lemma Prepended(first: Bucket, rest: seq<Bucket>, all: seq<Bucket>)
    requires all == [first] + rest && Ascending(rest) && forall b :: b in rest ==> b.time > first.time
    ensures Ascending(all)
  {
    forall i, j | 0 <= i < j < |all| ensures all[i].time < all[j].time {
      InOrder(first, rest, i, j);
    }
  }

  lemma InOrder(first: Bucket, rest: seq<Bucket>, i: nat, j: nat)
    requires i < j <= |rest| && Ascending(rest) && forall b :: b in rest ==> b.time > first.time
    ensures ([first] + rest)[i].time < ([first] + rest)[j].time
  {
    assert ([first] + rest)[j] == rest[j - 1] && rest[j - 1] in rest;
    if i > 0 { assert ([first] + rest)[i] == rest[i - 1]; }
  }

  lemma {:induction false} FreshIn(buckets: seq<Bucket>, time: int, b: Bucket)
    ensures b in Fresh(buckets, time) <==> b in buckets && b.time > time - WINDOW
  {
    if buckets != [] {
      FreshIn(buckets[1..], time, b);
      assert b in buckets <==> b == buckets[0] || b in buckets[1..];
    }
  }

  lemma {:induction false} FreshKeeps(buckets: seq<Bucket>, time: int)
    requires Ascending(buckets)
    ensures var kept := Fresh(buckets, time);
            Ascending(kept) && forall b :: b in kept <==> b in buckets && b.time > time - WINDOW
  {
    forall b ensures b in Fresh(buckets, time) <==> b in buckets && b.time > time - WINDOW { FreshIn(buckets, time, b); }
    FreshAscends(buckets, time);
  }

  lemma {:induction false} FreshAscends(buckets: seq<Bucket>, time: int)
    requires Ascending(buckets)
    ensures Ascending(Fresh(buckets, time))
  {
    hide Ascending;
    if buckets == [] {
      NoneAscend();
    } else {
      TailAscends(buckets);
      FreshAscends(buckets[1..], time);
      var rest := Fresh(buckets[1..], time);
      forall b | b in rest ensures b.time > buckets[0].time { FreshIn(buckets[1..], time, b); }
      Prepended(buckets[0], rest, [buckets[0]] + rest);
      assert [] + rest == rest;
    }
  }

  lemma NoneAscend()
    ensures Ascending([])
  {
  }

  lemma {:induction false} NothingThen(log: seq<Note>, startedAt: int, phase: Phase, name: string, time: int)
    requires forall n :: n in log ==> TimeOf(n.at) != time
    ensures HistIn(log, startedAt, phase, name, time - 1, time) == Empty()
    decreases |log|
  {
    if log != [] {
      assert log[|log| - 1] in log;
      NothingThen(log[..|log| - 1], startedAt, phase, name, time);
    }
  }

  lemma FoundTime(buckets: seq<Bucket>, k: nat)
    requires Ascending(buckets) && k < |buckets|
    ensures FindTime(buckets, buckets[k].time) == Some(k)
  {
    var found := FindTime(buckets, buckets[k].time);
    assert found.Some?;
  }

  /** A note changes what is recorded only for its own ten seconds. */
  lemma OtherTimes(b: Bucket, log: seq<Note>, note: Note, startedAt: int)
    requires Faithful(b, log, startedAt) && (note.Touched? || TimeOf(note.at) != b.time)
    ensures Faithful(b, log + [note], startedAt)
  {
    hide Hist, TimeOf;
    assert (log + [note])[..|log|] == log;
    forall phase, name ensures Look(SamplesOf(b, phase), name) == HistIn(log + [note], startedAt, phase, name, b.time - 1, b.time) {
      assert Values(log + [note], startedAt, phase, name, b.time - 1, b.time) == Values(log, startedAt, phase, name, b.time - 1, b.time);
    }
  }

  lemma OwnTime(b: Bucket, log: seq<Note>, note: Note, startedAt: int)
    requires Faithful(b, log, startedAt) && note.Observed? && TimeOf(note.at) == b.time
    ensures Faithful(InBucket(b, note.name, note.ms, IsStartup(note.at, startedAt)), log + [note], startedAt)
  {
    hide Hist, Add, TimeOf, IsStartup, Faithful;
    var c := InBucket(b, note.name, note.ms, IsStartup(note.at, startedAt));
    forall phase, name ensures Look(SamplesOf(c, phase), name) == HistIn(log + [note], startedAt, phase, name, c.time - 1, c.time) {
      OwnValue(b, log, note, startedAt, phase, name);
    }
    IsFaithful(c, log + [note], startedAt);
  }

  lemma IsFaithful(b: Bucket, log: seq<Note>, startedAt: int)
    requires forall phase, name :: Look(SamplesOf(b, phase), name) == HistIn(log, startedAt, phase, name, b.time - 1, b.time)
    ensures Faithful(b, log, startedAt)
  {
  }

  lemma OwnValue(b: Bucket, log: seq<Note>, note: Note, startedAt: int, phase: Phase, name: string)
    requires Faithful(b, log, startedAt) && note.Observed? && TimeOf(note.at) == b.time
    ensures var c := InBucket(b, note.name, note.ms, IsStartup(note.at, startedAt));
            Look(SamplesOf(c, phase), name) == HistIn(log + [note], startedAt, phase, name, b.time - 1, b.time)
  {
    hide Hist, Add, TimeOf, IsStartup;
    assert (log + [note])[..|log|] == log && (log + [note])[|log|] == note;
    var values := Values(log, startedAt, phase, name, b.time - 1, b.time);
    assert Look(SamplesOf(b, phase), name) == Hist(values);
    HistOneMore(values, note.ms);
  }

  /** Touching at a later time keeps every bucket of the new window and opens the current one. */
  lemma TouchHolds(buckets: seq<Bucket>, log: seq<Note>, startedAt: int, was: int, now: int)
    requires Holds(buckets, log, startedAt, was) && was <= now && (forall n :: n in log ==> n.at <= was)
    ensures Holds(Touch(buckets, now), log, startedAt, now)
  {
    hide Faithful, TimeOf, HistIn, Fresh, FindTime, Ascending;
    TimeMonotone(was, now);
    var time := TimeOf(now);
    FreshKeeps(buckets, time);
    var kept, touched := Fresh(buckets, time), Touch(buckets, now);
    if touched == kept {
      LastOf(kept, FindTime(kept, time).value);
    } else {
      var current := Bucket(time, map[], map[], map[]);
      AbsentBefore(buckets, kept, time);
      forall n | n in log ensures TimeOf(n.at) != time { TimeMonotone(n.at, was); }
      EmptyIsFaithful(current, log, startedAt);
      AppendedIsPlaced(kept, current);
    }
    forall n | n in log && TimeOf(n.at) > time - WINDOW ensures HasTime(touched, TimeOf(n.at)) {
      var b :| b in buckets && b.time == TimeOf(n.at);
      assert b in kept && b in touched;
    }
  }

  lemma AbsentBefore(buckets: seq<Bucket>, kept: seq<Bucket>, time: int)
    requires (forall b :: b in buckets && b.time > time - WINDOW ==> b in kept) && FindTime(kept, time).None?
    ensures !HasTime(buckets, time)
  {
  }

  lemma LastOf(buckets: seq<Bucket>, k: nat)
    requires Ascending(buckets) && k < |buckets| && forall b :: b in buckets ==> b.time <= buckets[k].time
    ensures k == |buckets| - 1
  {
    assert buckets[|buckets| - 1] in buckets;
  }

  lemma AppendedIsPlaced(kept: seq<Bucket>, current: Bucket)
    requires Ascending(kept) && forall b :: b in kept ==> current.time - WINDOW < b.time <= current.time && b.time != current.time
    ensures Placed(kept + [current], current.time)
  {
    assert forall k :: 0 <= k < |kept| ==> kept[k] in kept;
  }

  lemma EmptyIsFaithful(b: Bucket, log: seq<Note>, startedAt: int)
    requires b == Bucket(b.time, map[], map[], map[]) && forall n :: n in log ==> TimeOf(n.at) != b.time
    ensures Faithful(b, log, startedAt)
  {
    hide Empty, HistIn, TimeOf;
    forall phase, name ensures Look(SamplesOf(b, phase), name) == HistIn(log, startedAt, phase, name, b.time - 1, b.time) {
      NothingThen(log, startedAt, phase, name, b.time);
    }
  }

  lemma CurrentIsLast(touched: seq<Bucket>, time: int)
    requires Placed(touched, time)
    ensures touched != [] && FindTime(touched, time) == Some(|touched| - 1)
  {
    hide FindTime;
    FoundTime(touched, |touched| - 1);
  }

  lemma TouchedNoteHolds(touched: seq<Bucket>, log: seq<Note>, note: Note, startedAt: int)
    requires Holds(touched, log, startedAt, note.at) && note.Touched?
    ensures Holds(touched, log + [note], startedAt, note.at)
  {
    hide Faithful, TimeOf, HistIn, FindTime, Ascending;
    forall b | b in touched ensures Faithful(b, log + [note], startedAt) { OtherTimes(b, log, note, startedAt); }
    assert touched[|touched| - 1] in touched;
  }

  lemma ObservedNoteHolds(touched: seq<Bucket>, own: Bucket, log: seq<Note>, note: Note, startedAt: int)
    requires Holds(touched, log, startedAt, note.at) && note.Observed?
    requires own == InBucket(touched[|touched| - 1], note.name, note.ms, IsStartup(note.at, startedAt))
    ensures Holds(touched[|touched| - 1 := own], log + [note], startedAt, note.at)
  {
    hide Faithful, TimeOf, HistIn, FindTime, InBucket;
    var last := |touched| - 1;
    var next := touched[last := own];
    SameTime(touched[last], note, startedAt);
    assert touched[last] in touched;
    OwnTime(touched[last], log, note, startedAt);
    forall b | b in next ensures Faithful(b, log + [note], startedAt) {
      var k :| 0 <= k < |next| && next[k] == b;
      if k != last {
        assert touched[k] in touched && touched[k].time < touched[last].time;
        OtherTimes(touched[k], log, note, startedAt);
      }
    }
    ReplacedIsPlaced(touched, own, TimeOf(note.at));
    ReplacedHasTimes(touched, own);
  }

  lemma NoteHolds(buckets: seq<Bucket>, log: seq<Note>, note: Note, startedAt: int)
    requires Holds(Touch(buckets, note.at), log, startedAt, note.at)
    ensures Holds(After(buckets, note, startedAt), log + [note], startedAt, note.at)
  {
    hide Touch, FindTime, InBucket, Placed, AllFaithful, Covered, TimeOf;
    var touched := Touch(buckets, note.at);
    CurrentIsLast(touched, TimeOf(note.at));
    if note.Touched? {
      TouchedNoteHolds(touched, log, note, startedAt);
    } else {
      ObservedNoteHolds(touched, InBucket(touched[|touched| - 1], note.name, note.ms, IsStartup(note.at, startedAt)), log, note, startedAt);
    }
  }

  lemma SameTime(b: Bucket, note: Note, startedAt: int)
    ensures note.Observed? ==> InBucket(b, note.name, note.ms, IsStartup(note.at, startedAt)).time == b.time
  {
  }

  lemma ReplacedIsPlaced(buckets: seq<Bucket>, own: Bucket, time: int)
    requires Placed(buckets, time) && own.time == time
    ensures Placed(buckets[|buckets| - 1 := own], time)
  {
    forall b | b in buckets[|buckets| - 1 := own] ensures time - WINDOW < b.time <= time {
      var k :| 0 <= k < |buckets| && buckets[|buckets| - 1 := own][k] == b;
      assert buckets[k] in buckets;
    }
  }

  lemma ReplacedHasTimes(buckets: seq<Bucket>, own: Bucket)
    requires buckets != [] && own.time == buckets[|buckets| - 1].time
    ensures forall time :: HasTime(buckets, time) ==> HasTime(buckets[|buckets| - 1 := own], time)
    ensures HasTime(buckets[|buckets| - 1 := own], own.time)
  {
    var next := buckets[|buckets| - 1 := own];
    assert next[|buckets| - 1] in next;
    forall time | HasTime(buckets, time) ensures HasTime(next, time) {
      var b :| b in buckets && b.time == time;
      var k :| 0 <= k < |buckets| && buckets[k] == b;
      assert next[k] in next;
    }
  }

  /** With a clock that never runs back the buckets always hold exactly the observations of the last thirty of them. */
  lemma {:induction false} BucketsHoldTheWindow(log: seq<Note>, startedAt: int)
    requires log != [] && Chronological(log)
    ensures Holds(Buckets(log, startedAt), log, startedAt, log[|log| - 1].at)
    ensures forall n :: n in log ==> n.at <= log[|log| - 1].at
    decreases |log|
  {
    hide Holds, Touch, InBucket;
    var before, note := log[..|log| - 1], log[|log| - 1];
    assert log == before + [note];
    if before == [] {
      FirstNoteHolds(note, startedAt);
      assert before + [note] == [note];
    } else {
      assert before[|before| - 1] == log[|log| - 2];
      BucketsHoldTheWindow(before, startedAt);
      TouchHolds(Buckets(before, startedAt), before, startedAt, before[|before| - 1].at, note.at);
      NoteHolds(Buckets(before, startedAt), before, note, startedAt);
    }
  }

  lemma FirstNoteHolds(note: Note, startedAt: int)
    ensures Holds(After([], note, startedAt), [note], startedAt, note.at)
  {
    hide TimeOf, HistIn, Faithful;
    var touched := Touch([], note.at);
    assert touched == [Bucket(TimeOf(note.at), map[], map[], map[])];
    EmptyIsFaithful(touched[0], [], startedAt);
    NoteHolds([], [], note, startedAt);
    assert [] + [note] == [note];
  }

  // ---------------------------------------------------------------- the snapshot

  lemma {:induction false} GapIsEmpty(log: seq<Note>, startedAt: int, phase: Phase, name: string, above: int, through: int)
    requires forall n :: n in log ==> !(above < TimeOf(n.at) <= through)
    ensures HistIn(log, startedAt, phase, name, above, through) == Empty()
    decreases |log|
  {
    if log != [] {
      assert log[|log| - 1] in log;
      GapIsEmpty(log[..|log| - 1], startedAt, phase, name, above, through);
    }
  }

  lemma {:induction false} TotalIsWindow(buckets: seq<Bucket>, k: nat, log: seq<Note>, startedAt: int, now: int, phase: Phase, name: string)
    requires Holds(buckets, log, startedAt, now) && k <= |buckets|
    ensures Total(buckets[..k], phase, name)
         == HistIn(log, startedAt, phase, name, TimeOf(now) - WINDOW, if k == 0 then TimeOf(now) - WINDOW else buckets[k - 1].time)
    decreases k
  {
    hide Merge, HistIn, TimeOf, Empty, Faithful, Placed, Covered;
    var from := TimeOf(now) - WINDOW;
    if k == 0 {
      GapIsEmpty(log, startedAt, phase, name, from, from);
    } else {
      TotalIsWindow(buckets, k - 1, log, startedAt, now, phase, name);
      var b := buckets[k - 1];
      assert b in buckets && buckets[..k][..k - 1] == buckets[..k - 1];
      OwnRange(b, log, startedAt, phase, name);
      UpToBucket(buckets, k, log, startedAt, now, phase, name);
      InWindow(buckets, b, TimeOf(now));
      RangesMerge(log, startedAt, phase, name, from, b.time - 1, b.time);
    }
  }

  lemma InWindow(buckets: seq<Bucket>, b: Bucket, time: int)
    requires Placed(buckets, time) && b in buckets
    ensures time - WINDOW < b.time <= time
  {
  }

  lemma OwnRange(b: Bucket, log: seq<Note>, startedAt: int, phase: Phase, name: string)
    requires Faithful(b, log, startedAt)
    ensures Look(SamplesOf(b, phase), name) == HistIn(log, startedAt, phase, name, b.time - 1, b.time)
  {
  }

  /** Between one bucket and the next there is nothing to count. */
  lemma UpToBucket(buckets: seq<Bucket>, k: nat, log: seq<Note>, startedAt: int, now: int, phase: Phase, name: string)
    requires Holds(buckets, log, startedAt, now) && 0 < k <= |buckets|
    ensures var from := TimeOf(now) - WINDOW;
            HistIn(log, startedAt, phase, name, from, buckets[k - 1].time - 1)
            == HistIn(log, startedAt, phase, name, from, if k == 1 then from else buckets[k - 2].time)
  {
    hide Merge, HistIn, TimeOf, Empty, AllFaithful;
    var from, upto := TimeOf(now) - WINDOW, buckets[k - 1].time - 1;
    var low := if k == 1 then from else buckets[k - 2].time;
    assert buckets[k - 1] in buckets && (k > 1 ==> buckets[k - 2] in buckets);
    forall n | n in log ensures !(low < TimeOf(n.at) <= upto) {
      if low < TimeOf(n.at) <= upto { NoTimeBetween(buckets, k, TimeOf(n.at)); }
    }
    GapIsEmpty(log, startedAt, phase, name, low, upto);
    RangesMerge(log, startedAt, phase, name, from, low, upto);
    NonNegativeHist(log, startedAt, phase, name, from, low);
    MergeEmpty(HistIn(log, startedAt, phase, name, from, low));
  }

  lemma NoTimeBetween(buckets: seq<Bucket>, k: nat, time: int)
    requires Ascending(buckets) && 0 < k <= |buckets| && HasTime(buckets, time)
    ensures time >= buckets[k - 1].time || (k > 1 && time <= buckets[k - 2].time)
  {
    var b :| b in buckets && b.time == time;
    var m :| 0 <= m < |buckets| && buckets[m] == b;
    if m < k - 1 { assert m == k - 2 || buckets[m].time < buckets[k - 2].time; }
  }

  lemma NonNegativeHist(log: seq<Note>, startedAt: int, phase: Phase, name: string, above: int, through: int)
    ensures HistIn(log, startedAt, phase, name, above, through).max >= 0.0
  {
    HistIsNonNegative(Values(log, startedAt, phase, name, above, through));
  }

  /** The observations of the last thirty ten-second buckets. */
  function WindowValues(log: seq<Note>, startedAt: int, phase: Phase, name: string, now: int): seq<real> {
    Values(log, startedAt, phase, name, TimeOf(now) - WINDOW, TimeOf(now))
  }

  /**
   A snapshot counts exactly the observations of the last thirty buckets, whole or by phase, and the two phases
   together are the whole.
   */
  lemma SnapshotIsTheWindow(log: seq<Note>, startedAt: int, name: string)
    requires log != [] && Chronological(log)
    ensures var now := log[|log| - 1].at;
            var buckets := Buckets(log, startedAt);
            && (forall phase :: Total(buckets, phase, name) == Hist(WindowValues(log, startedAt, phase, name, now)))
            && (forall phase :: Total(buckets, phase, name).count == |WindowValues(log, startedAt, phase, name, now)|)
            && Merge(Total(buckets, Startup, name), Total(buckets, Steady, name)) == Total(buckets, All, name)
  {
    hide Merge, Values, Total, Hist, Buckets, TimeOf;
    var now := log[|log| - 1].at;
    forall phase
      ensures Total(Buckets(log, startedAt), phase, name) == Hist(WindowValues(log, startedAt, phase, name, now))
      ensures Total(Buckets(log, startedAt), phase, name).count == |WindowValues(log, startedAt, phase, name, now)|
    {
      PhaseIsItsWindow(log, startedAt, phase, name);
    }
    PhasesMerge(log, startedAt, name, TimeOf(now) - WINDOW, TimeOf(now));
  }

  lemma PhaseIsItsWindow(log: seq<Note>, startedAt: int, phase: Phase, name: string)
    requires log != [] && Chronological(log)
    ensures var values := WindowValues(log, startedAt, phase, name, log[|log| - 1].at);
            var total := Total(Buckets(log, startedAt), phase, name);
            total == Hist(values) && total.count == |values|
  {
    hide Holds, Values, Total, Hist, TimeOf, Buckets;
    var now := log[|log| - 1].at;
    var buckets := Buckets(log, startedAt);
    BucketsHoldTheWindow(log, startedAt);
    LastIsNow(buckets, log, startedAt, now);
    TotalIsWindow(buckets, |buckets|, log, startedAt, now, phase, name);
    assert buckets[..|buckets|] == buckets;
    HistIsNonNegative(WindowValues(log, startedAt, phase, name, now));
  }

  lemma LastIsNow(buckets: seq<Bucket>, log: seq<Note>, startedAt: int, now: int)
    requires Holds(buckets, log, startedAt, now)
    ensures buckets != [] && buckets[|buckets| - 1].time == TimeOf(now)
  {
  }

  // ---------------------------------------------------------------- what a percentile means

  function AtMost(values: seq<real>, x: real): nat {
    if values == [] then 0
    else AtMost(values[..|values| - 1], x) + if values[|values| - 1] <= x then 1 else 0
  }

  /** The counts before slot `k`. */
  function Below(counts: seq<nat>, k: nat): nat
    requires k <= |counts|
  {
    if k == 0 then 0 else Below(counts, k - 1) + counts[k - 1]
  }

  lemma BoundsRise()
    ensures |BOUNDS| == OPEN && forall i, j :: 0 <= i < j < OPEN ==> BOUNDS[i] < BOUNDS[j]
  {
    assert forall i :: 0 < i < OPEN ==> BOUNDS[i - 1] < BOUNDS[i];
    forall i, j | 0 <= i < j < OPEN ensures BOUNDS[i] < BOUNDS[j] { RisesFrom(i, j); }
  }

  lemma {:induction false} RisesFrom(i: nat, j: nat)
    requires i < j < OPEN && forall k :: 0 < k < OPEN ==> BOUNDS[k - 1] < BOUNDS[k]
    ensures BOUNDS[i] < BOUNDS[j]
    decreases j
  {
    if j > i + 1 { RisesFrom(i, j - 1); }
  }

  lemma {:induction false} BelowAfterOneMore(counts: seq<nat>, slot: nat, k: nat)
    requires slot < |counts| && k <= |counts|
    ensures Below(counts[slot := counts[slot] + 1], k) == Below(counts, k) + if slot < k then 1 else 0
    decreases k
  {
    if k > 0 { BelowAfterOneMore(counts, slot, k - 1); }
  }

  /** The counts up to a bound are the observations up to that bound, and all counts together are all observations. */
  lemma {:induction false} CountsAreCumulative(values: seq<real>)
    ensures forall i :: 0 <= i < OPEN ==> Below(Hist(values).counts, i + 1) == AtMost(values, BOUNDS[i])
    ensures Below(Hist(values).counts, OPEN + 1) == |values| == Hist(values).count
    decreases |values|
  {
    hide Slot, Below;
    BoundsRise();
    if values == [] {
      forall k | 0 <= k <= OPEN + 1 ensures Below(Empty().counts, k) == 0 { NothingBelow(k); }
    } else {
      var before, v := values[..|values| - 1], values[|values| - 1];
      CountsAreCumulative(before);
      var counts := Hist(before).counts;
      forall k | 0 <= k <= OPEN + 1
        ensures Below(Hist(values).counts, k) == Below(counts, k) + if Slot(v) < k then 1 else 0
      {
        BelowAfterOneMore(counts, Slot(v), k);
      }
      forall i | 0 <= i < OPEN ensures Slot(v) < i + 1 <==> v <= BOUNDS[i] {
        if Slot(v) <= i { assert v <= BOUNDS[Slot(v)] && (Slot(v) == i || BOUNDS[Slot(v)] < BOUNDS[i]); }
      }
    }
  }

  lemma {:induction false} NothingBelow(k: nat)
    requires k <= OPEN + 1
    ensures Below(Empty().counts, k) == 0
  {
    if k > 0 { NothingBelow(k - 1); }
  }

  /** Slot `i` is the first whose cumulative count reaches `need`. */
  predicate Reaches(values: seq<real>, need: int, i: nat) {
    && i <= OPEN && (i < OPEN ==> AtMost(values, BOUNDS[i]) >= need)
    && forall j :: 0 <= j < i ==> AtMost(values, BOUNDS[j]) < need
  }

  function EdgeOf(values: seq<real>, i: nat): real
    requires i <= OPEN
  {
    if i < OPEN then BOUNDS[i] else Hist(values).max
  }

  lemma {:induction false} PercentileReaches(values: seq<real>, need: int, i: nat, below: nat) returns (at: nat)
    requires i <= OPEN && below == Below(Hist(values).counts, i) && need <= |values|
    requires forall j :: 0 <= j < i ==> AtMost(values, BOUNDS[j]) < need
    ensures Reaches(values, need, at) && PercentileFrom(Hist(values), need, i, below) == EdgeOf(values, at)
    decreases OPEN + 1 - i
  {
    hide Hist, AtMost;
    CountsAreCumulative(values);
    var counts := Hist(values).counts;
    var sum := below + counts[i];
    assert sum == Below(counts, i + 1);
    if sum >= need || i == OPEN { at := i; } else { at := PercentileReaches(values, need, i + 1, sum); }
  }

  lemma NeedMonotone(n: nat, p: real, q: real)
    requires p <= q
    ensures Need(n, p) <= Need(n, q)
  {
    if n > 0 { MulOrder(p, q, n as real); }
    CeilMonotone(p * n as real, q * n as real);
  }

  lemma CeilMonotone(x: real, y: real)
    requires x <= y
    ensures Ceil(x) <= Ceil(y)
  {
  }

  lemma NeedAll(n: nat)
    ensures Need(n, 1.0) == n
  {
  }

  /**
   A percentile is the first bucket edge that covers the required share of the observations, `ceil(p * count)` of
   them; when no edge does it is the largest observation.
   */
  lemma PercentileIsTheFirstEdge(values: seq<real>, p: real) returns (at: nat)
    requires 0.0 <= p <= 1.0
    ensures Reaches(values, Need(|values|, p), at) && Percentile(Hist(values), p) == EdgeOf(values, at)
  {
    hide Hist, AtMost, PercentileFrom, Need;
    CountsAreCumulative(values);
    NeedMonotone(|values|, p, 1.0);
    NeedAll(|values|);
    at := PercentileReaches(values, Need(|values|, p), 0, 0);
  }

  lemma {:induction false} MaxIsBeyond(values: seq<real>, x: real)
    ensures AtMost(values, x) <= |values|
    ensures AtMost(values, x) < |values| ==> Hist(values).max > x
    decreases |values|
  {
    hide Slot;
    if values != [] { MaxIsBeyond(values[..|values| - 1], x); }
  }

  lemma EarlierEdge(values: seq<real>, need: int, more: int, i: nat, j: nat)
    requires Reaches(values, need, i) && Reaches(values, more, j) && need <= more
    ensures i <= j
  {
    hide AtMost;
  }

  /** A larger share never has a smaller percentile: p50, p95 and p99 come in this order. */
  lemma PercentilesRise(values: seq<real>, p: real, q: real)
    requires 0.0 <= p <= q <= 1.0
    ensures Percentile(Hist(values), p) <= Percentile(Hist(values), q)
  {
    hide Hist, AtMost, Percentile, Need;
    var i := PercentileIsTheFirstEdge(values, p);
    var j := PercentileIsTheFirstEdge(values, q);
    NeedMonotone(|values|, p, q);
    NeedMonotone(|values|, q, 1.0);
    NeedAll(|values|);
    BoundsRise();
    EarlierEdge(values, Need(|values|, p), Need(|values|, q), i, j);
    if i < OPEN && j == OPEN {
      MaxIsBeyond(values, BOUNDS[OPEN - 1]);
      assert AtMost(values, BOUNDS[OPEN - 1]) < Need(|values|, q);
    }
  }

  /** What a snapshot reports for a name is the summary of its window, with ordered percentiles. */
  lemma SnapshotPercentiles(log: seq<Note>, startedAt: int, phase: Phase, name: string)
    requires log != [] && Chronological(log)
    ensures var values := WindowValues(log, startedAt, phase, name, log[|log| - 1].at);
            var summary := Summarise(Total(Buckets(log, startedAt), phase, name));
            && (summary.None? <==> values == [])
            && (summary.Some? ==>
                  && summary.value.count == |values| && summary.value.max == Hist(values).max
                  && summary.value.p50 == Percentile(Hist(values), 0.5)
                  && summary.value.p50 <= summary.value.p95 <= summary.value.p99)
  {
    hide Hist, Percentile, Values, Total, Merge;
    SnapshotIsTheWindow(log, startedAt, name);
    var values := WindowValues(log, startedAt, phase, name, log[|log| - 1].at);
    HistIsNonNegative(values);
    PercentilesRise(values, 0.5, 0.95);
    PercentilesRise(values, 0.95, 0.99);
  }

  // ---------------------------------------------------------------- the plain figures

  function SumOf(values: seq<real>): real {
    if values == [] then 0.0 else values[0] + SumOf(values[1..])
  }

  /** The greatest of some non-negative values. */
  predicate IsGreatest(values: seq<real>, most: real) {
    && (forall v :: v in values ==> v <= most) && (most in values || (most == 0.0 && forall v :: v in values ==> v <= 0.0))
  }

  lemma {:induction false} SumOfMore(values: seq<real>, v: real)
    ensures SumOf(values + [v]) == SumOf(values) + v
    decreases |values|
  {
    if values == [] {
      assert [v][1..] == [];
    } else {
      assert (values + [v])[1..] == values[1..] + [v];
      SumOfMore(values[1..], v);
    }
  }

  lemma {:induction false} HistIsPlain(values: seq<real>)
    ensures Hist(values).count == |values| && Hist(values).sum == SumOf(values) && IsGreatest(values, Hist(values).max)
    decreases |values|
  {
    hide Slot;
    if values == [] {
      EmptyCounts();
    } else {
      var before, v := values[..|values| - 1], values[|values| - 1];
      assert values == before + [v];
      HistIsPlain(before);
      SumOfMore(before, v);
    }
  }

  /** The share asked for is the least whole number of observations that is not below it. */
  lemma NeedIsLeast(n: nat, p: real, k: int)
    ensures k >= Need(n, p) <==> k as real >= p * n as real
  {
    CeilIsLeast(p * n as real, k);
  }

  lemma CeilIsLeast(x: real, k: int)
    ensures k >= Ceil(x) <==> k as real >= x
  {
  }

  /** Slot `i` is the first bucket edge that so many percent of the observations do not exceed, or the open one. */
  predicate Covers(values: seq<real>, percent: nat, i: nat) {
    && i <= OPEN && (i < OPEN ==> 100 * AtMost(values, BOUNDS[i]) >= percent * |values|)
    && forall j :: 0 <= j < i ==> 100 * AtMost(values, BOUNDS[j]) < percent * |values|
  }

  predicate IsPercentile(values: seq<real>, percent: nat, most: real, x: real) {
    exists i: nat :: i <= OPEN && Covers(values, percent, i) && x == if i < OPEN then BOUNDS[i] else most
  }

  lemma PercentileCovers(values: seq<real>, percent: nat, p: real)
    requires percent <= 100 && p == percent as real / 100.0
    ensures IsPercentile(values, percent, Hist(values).max, Percentile(Hist(values), p))
  {
    hide Hist, AtMost, Percentile, Need;
    var i := PercentileIsTheFirstEdge(values, p);
    assert p * |values| as real == (percent * |values|) as real / 100.0;
    forall k: int ensures k >= Need(|values|, p) <==> 100 * k >= percent * |values| { NeedIsLeast(|values|, p, k); }
    assert Covers(values, percent, i);
  }

  /** Number, mean, percentiles and maximum of a plain list of observations. */
  predicate SummaryOf(values: seq<real>, summary: Option<Summary>) {
    if values == [] then summary.None?
    else
      && summary.Some? && summary.value.count == |values| && summary.value.mean * |values| as real == SumOf(values)
      && IsGreatest(values, summary.value.max) && IsPercentile(values, 50, summary.value.max, summary.value.p50)
      && IsPercentile(values, 95, summary.value.max, summary.value.p95) && IsPercentile(values, 99, summary.value.max, summary.value.p99)
  }

  lemma SummaryIsPlain(values: seq<real>)
    ensures SummaryOf(values, Summarise(Hist(values)))
  {
    hide Hist, Percentile, IsPercentile, IsGreatest, SumOf;
    HistIsPlain(values);
    PercentileCovers(values, 50, 0.5);
    PercentileCovers(values, 95, 0.95);
    PercentileCovers(values, 99, 0.99);
    if values != [] { MeanTimesCount(Hist(values).sum, |values|); }
  }

  /** The summary that a snapshot reports is that of the plain list of observations in its window. */
  lemma SnapshotIsPlain(log: seq<Note>, startedAt: int, phase: Phase, name: string)
    requires log != [] && Chronological(log)
    ensures SummaryOf(WindowValues(log, startedAt, phase, name, log[|log| - 1].at), Summarise(Total(Buckets(log, startedAt), phase, name)))
  {
    hide Hist, Values, Total, Merge, Summarise, SummaryOf, Buckets, WindowValues;
    SnapshotIsTheWindow(log, startedAt, name);
    SummaryIsPlain(WindowValues(log, startedAt, phase, name, log[|log| - 1].at));
  }

  lemma MeanTimesCount(sum: real, n: nat)
    requires n > 0
    ensures sum / n as real * n as real == sum
  {
  }

  /** The observations that a snapshot counts, told from the times alone: those of the last thirty ten-second buckets, split five minutes after the start. */
  lemma WindowExactly(startedAt: int, phase: Phase, name: string, now: int, note: Note)
    ensures Counts(note, startedAt, phase, name, TimeOf(now) - WINDOW, TimeOf(now)) <==>
              && note.Observed? && note.name == name
              && (phase.Startup? ==> note.at < startedAt + 300000) && (phase.Steady? ==> note.at >= startedAt + 300000)
              && now / 10000 - 30 < note.at / 10000 <= now / 10000
  {
  }
}
