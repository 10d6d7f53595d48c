/** Rolling latency histograms in ten-second buckets, against the plain log of observations. */
module Latency {
  import opened Common

  const BOUNDS: seq<real> := [1.0, 2.0, 5.0, 10.0, 20.0, 50.0, 100.0, 250.0, 500.0, 1000.0, 2000.0, 5000.0, 10000.0, 30000.0, 60000.0]
  const OPEN := 15

  const BUCKET := 10000
  const WINDOW := 300000

  /** One count per upper bound, and one for everything above the last. */
  datatype HistogramData = Histogram(counts: seq<nat>, count: nat, sum: real, max: real)
  type Histogram = h: HistogramData | |h.counts| == OPEN + 1
    witness Histogram([0, 0, 0, 0, 0, 0, 0, 0, 0, 0, 0, 0, 0, 0, 0, 0], 0, 0.0, 0.0)

  function Empty(): Histogram {
    Histogram([0, 0, 0, 0, 0, 0, 0, 0, 0, 0, 0, 0, 0, 0, 0, 0], 0, 0.0, 0.0)
  }

  type Samples = map<string, Histogram>

  datatype Bucket = Bucket(time: int, all: Samples, startup: Samples, steady: Samples)

  // ---------------------------------------------------------------- one histogram

  /** The first bound that holds the value. */
  function SlotFrom(v: real, i: nat): (k: nat)
    requires i <= OPEN
    ensures i <= k <= OPEN && (k < OPEN ==> v <= BOUNDS[k]) && forall j :: i <= j < k ==> v > BOUNDS[j]
    decreases OPEN - i
  {
    if i == OPEN || v <= BOUNDS[i] then i else SlotFrom(v, i + 1)
  }

  function Slot(v: real): (k: nat)
    ensures k <= OPEN && (k < OPEN ==> v <= BOUNDS[k]) && forall j :: 0 <= j < k ==> v > BOUNDS[j]
  {
    SlotFrom(v, 0)
  }

  function Add(h: Histogram, v: real): Histogram {
    Histogram(h.counts[Slot(v) := h.counts[Slot(v)] + 1], h.count + 1, h.sum + v, MaxR(h.max, v))
  }

  function Sums(a: seq<nat>, b: seq<nat>): (r: seq<nat>)
    requires |a| == |b|
    ensures |r| == |a| && forall i :: 0 <= i < |a| ==> r[i] == a[i] + b[i]
  {
    if a == [] then [] else [a[0] + b[0]] + Sums(a[1..], b[1..])
  }

  function Merge(a: Histogram, b: Histogram): Histogram {
    Histogram(Sums(a.counts, b.counts), a.count + b.count, a.sum + b.sum, MaxR(a.max, b.max))
  }

  function Ceil(x: real): int {
    x.Floor + if x == x.Floor as real then 0 else 1
  }

  /** How many of `count` observations a share of them is, rounded up. */
  function Need(count: nat, p: real): int {
    Ceil(p * count as real)
  }

  function PercentileFrom(h: Histogram, need: int, i: nat, below: nat): real
    requires i <= OPEN + 1
    decreases OPEN + 1 - i
  {
    if i == OPEN + 1 then h.max
    else if below + h.counts[i] >= need then if i < OPEN then BOUNDS[i] else h.max
    else PercentileFrom(h, need, i + 1, below + h.counts[i])
  }

  function Percentile(h: Histogram, p: real): real {
    PercentileFrom(h, Need(h.count, p), 0, 0)
  }

  // ---------------------------------------------------------------- the buckets

  datatype Note = Observed(name: string, ms: real, at: int) | Touched(at: int)

  function TimeOf(at: int): int {
    at / BUCKET * BUCKET
  }

  predicate IsStartup(at: int, startedAt: int) {
    at - startedAt < WINDOW
  }

  function Fresh(buckets: seq<Bucket>, time: int): seq<Bucket> {
    if buckets == [] then [] else (if buckets[0].time <= time - WINDOW then [] else [buckets[0]]) + Fresh(buckets[1..], time)
  }

  function FindTime(buckets: seq<Bucket>, time: int): (found: Option<nat>)
    ensures found.Some? ==> found.value < |buckets| && buckets[found.value].time == time
    ensures found.None? ==> forall k :: 0 <= k < |buckets| ==> buckets[k].time != time
  {
    if buckets == [] then None
    else if buckets[0].time == time then Some(0)
    else
      var rest := FindTime(buckets[1..], time);
      assert forall k :: 0 < k < |buckets| ==> buckets[k] == buckets[1..][k - 1];
      if rest.Some? then Some(rest.value + 1) else None
  }

  /** Old buckets go, and there is a bucket for now. */
  function Touch(buckets: seq<Bucket>, now: int): (r: seq<Bucket>)
    ensures FindTime(r, TimeOf(now)).Some?
  {
    var kept := Fresh(buckets, TimeOf(now));
    if FindTime(kept, TimeOf(now)).Some? then kept
    else
      var r := kept + [Bucket(TimeOf(now), map[], map[], map[])];
      assert r[|kept|].time == TimeOf(now);
      r
  }

  function Look(samples: Samples, name: string): Histogram {
    if name in samples then samples[name] else Empty()
  }

  function Count(samples: Samples, name: string, v: real): Samples {
    samples[name := Add(Look(samples, name), v)]
  }

  function InBucket(b: Bucket, name: string, v: real, startup: bool): Bucket {
    b.(all := Count(b.all, name, v), startup := if startup then Count(b.startup, name, v) else b.startup,
       steady := if startup then b.steady else Count(b.steady, name, v))
  }

  function After(buckets: seq<Bucket>, note: Note, startedAt: int): seq<Bucket> {
    var touched := Touch(buckets, note.at);
    match note
    case Touched(_) => touched
    case Observed(name, ms, at) =>
      var i := FindTime(touched, TimeOf(at)).value;
      touched[i := InBucket(touched[i], name, ms, IsStartup(at, startedAt))]
  }

  datatype Phase = All | Startup | Steady

  function SamplesOf(b: Bucket, phase: Phase): Samples {
    match phase
    case All => b.all
    case Startup => b.startup
    case Steady => b.steady
  }

  /** The sum of all buckets, oldest first. */
  function Total(buckets: seq<Bucket>, phase: Phase, name: string): Histogram {
    if buckets == [] then Empty()
    else Merge(Total(buckets[..|buckets| - 1], phase, name), Look(SamplesOf(buckets[|buckets| - 1], phase), name))
  }

  datatype Summary = Summary(count: nat, mean: real, p50: real, p95: real, p99: real, max: real)

  function Summarise(h: Histogram): Option<Summary> {
    if h.count == 0 then None
    else Some(Summary(h.count, h.sum / h.count as real, Percentile(h, 0.5), Percentile(h, 0.95), Percentile(h, 0.99), h.max))
  }

  class RuntimeLatency {
    const startedAt: int
    var buckets: seq<Bucket>

    constructor (now: int)
      ensures startedAt == now && buckets == []
    {
      startedAt := now;
      buckets := [];
    }

    /** Prunes and finds, or opens, the bucket of this instant. */
    method CurrentBucket(now: int) returns (i: nat)
      modifies this
      ensures buckets == Touch(old(buckets), now) && FindTime(buckets, TimeOf(now)) == Some(i)
    {
      var time, kept, k := TimeOf(now), [], 0;
      while k < |buckets|
        invariant k <= |buckets|
        invariant kept + Fresh(buckets[k..], time) == Fresh(buckets, time)
      {
        assert buckets[k..][0] == buckets[k] && buckets[k..][1..] == buckets[k + 1..];
        if buckets[k].time > time - WINDOW { kept := kept + [buckets[k]]; }
        k := k + 1;
      }
      assert kept == Fresh(buckets, time);
      buckets := kept;
      if FindTime(buckets, time).None? { buckets := buckets + [Bucket(time, map[], map[], map[])]; }
      assert buckets == Touch(old(buckets), now);
      i := FindTime(buckets, time).value;
    }

    /** A negative duration is not an observation; it only touches the buckets. */
    method Observe(name: string, ms: real, now: int)
      modifies this
      ensures buckets == After(old(buckets), if ms < 0.0 then Touched(now) else Observed(name, ms, now), startedAt)
    {
      var i := CurrentBucket(now);
      if ms >= 0.0 {
        var b := buckets[i];
        b := b.(all := Count(b.all, name, ms));
        if IsStartup(now, startedAt) { b := b.(startup := Count(b.startup, name, ms)); }
        else { b := b.(steady := Count(b.steady, name, ms)); }
        buckets := buckets[i := b];
      }
    }

    /** Adds up the counts until they cover the share asked for. */
    static method FindPercentile(h: Histogram, p: real) returns (r: real)
      ensures r == Percentile(h, p)
    {
      var need, count: nat, i: nat := Need(h.count, p), 0, 0;
      while i <= OPEN
        invariant i <= OPEN + 1 && PercentileFrom(h, need, i, count) == Percentile(h, p)
      {
        count := count + h.counts[i];
        if count >= need { return if i < OPEN then BOUNDS[i] else h.max; }
        i := i + 1;
      }
      return h.max;
    }

    method Snapshot(now: int, phase: Phase, name: string) returns (r: Option<Summary>)
      modifies this
      ensures buckets == After(old(buckets), Touched(now), startedAt) && r == Summarise(Total(buckets, phase, name))
    {
      hide Merge, Percentile, Touch;
      var _ := CurrentBucket(now);
      var total: Histogram, k := Empty(), 0;
      while k < |buckets|
        invariant k <= |buckets| && total == Total(buckets[..k], phase, name)
      {
        assert buckets[..k + 1][..k] == buckets[..k];
        total := Merge(total, Look(SamplesOf(buckets[k], phase), name));
        k := k + 1;
      }
      assert buckets[..k] == buckets;
      if total.count == 0 { return None; }
      var p50 := FindPercentile(total, 0.5);
      var p95 := FindPercentile(total, 0.95);
      var p99 := FindPercentile(total, 0.99);
      return Some(Summary(total.count, total.sum / total.count as real, p50, p95, p99, total.max));
    }
  }
}
