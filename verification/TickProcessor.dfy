/**
 The price loop of one position: ticks become checkpoints. A checkpoint is held back until something
 forces it out: a change of stream, the first need for signals, an exit, or the end of the batch.
 */
module TickProcessor {
  import opened Common
  import opened Engine
  import opened Recovery

  datatype Event = Event(id: int, price: Price, observedAt: int, receivedAt: int, stream: int)

  /** A closed signal candle; `fires` says whether it asks this position to exit. */
  datatype Signal = Signal(symbol: string, openTime: int, closedAt: int, availableAt: int, fires: bool)

  datatype SignalNote = SignalNote(candleAt: int, closedAt: int, availableAt: int, quoteReceivedAt: int, delayMs: int)

  datatype GapReason = StreamChange | UnconfirmedStream

  datatype GapNote = GapNote(reason: GapReason, evidence: Evidence)

  datatype Checkpoint = Checkpoint(now: Protected, event: Event, through: int, stream: int, mark: real,
                                   settlement: Option<Settlement>, recovered: bool, recovery: Option<GapNote>,
                                   signalAt: Option<int>, signalExit: Option<SignalNote>, historyIncomplete: bool)

  /** The state a batch starts from and carries from tick to tick. */
  datatype Live = Live(now: Protected, through: int, stream: Option<int>, mark: real, anchor: Option<int>, signalAt: Option<int>)

  /** Recovery of a gap: state, start of the gap, the tick that ended it (at the clamped time), last processed id. */
  type Recover = (Protected, int, Event, Option<int>) -> Result

  datatype Env = Env(cfg: Config, policy: Option<Policy>, signals: Option<seq<Signal>>, recover: Recover,
                     protectFirst: bool, latest: Option<Event>, batch: seq<Event>)

  // ---------------------------------------------------------------- one tick

  predicate PreOpen(live: Live, e: Event) {
    e.observedAt < live.now.position.basis.openedAt
  }

  predicate StreamChanged(live: Live, e: Event) {
    live.stream != Some(e.stream)
  }

  /** A tick never moves the position's clock back. */
  function QuoteAt(live: Live, e: Event): int {
    Max(e.observedAt, live.through)
  }

  function LastClosed(at: int, intervalMs: int): int
    requires intervalMs > 0
  {
    at / intervalMs * intervalMs - intervalMs
  }

  function Baseline(signalAt: Option<int>, b: Basis, cfg: Config): int {
    if signalAt.Some? then signalAt.value else LastClosed(b.openedAt, cfg.intervalMs)
  }

  function TickExit(p: Position, price: Price, at: int, cfg: Config): Option<Settlement> {
    var exit := PriceExit(p, price, at, cfg);
    if exit.Some? then exit else HoldingExit(p, price, at, cfg)
  }

  datatype Scan = Scanned(signalAt: Option<int>, exit: Option<Signal>) | BadSignal

  predicate InvalidSignal(s: Signal, b: Basis, at: int, cfg: Config) {
    b.exitPlan.Some?
    && (s.symbol != b.symbol || s.closedAt != s.openTime + cfg.intervalMs || s.availableAt < s.closedAt || s.closedAt > at)
  }

  /** Reads the signals in order, up to the first that is too recent or not yet available to this tick. */
  function ScanSignals(signals: seq<Signal>, baseline: int, lastClosed: int, e: Event, at: int, b: Basis, cfg: Config,
                       signalAt: Option<int>): Scan
    decreases |signals|
  {
    if signals == [] then Scanned(signalAt, None)
    else
      var s := signals[0];
      if s.openTime <= baseline then ScanSignals(signals[1..], baseline, lastClosed, e, at, b, cfg, signalAt)
      else if s.openTime > lastClosed || s.availableAt > e.receivedAt then Scanned(signalAt, None)
      else if s.closedAt <= b.openedAt then ScanSignals(signals[1..], baseline, lastClosed, e, at, b, cfg, Some(s.openTime))
      else if InvalidSignal(s, b, at, cfg) then BadSignal
      else if s.fires then Scanned(Some(s.openTime), Some(s))
      else ScanSignals(signals[1..], baseline, lastClosed, e, at, b, cfg, Some(s.openTime))
  }

  datatype Step = Stepped(live: Live, settlement: Option<Settlement>, signal: Option<SignalNote>, consulted: bool, gap: Option<GapNote>)
                | RecoveryFailed
                | SignalFailed

  /** The tick is new enough for a signal candle that has not been read yet. */
  predicate SignalDue(live: Live, e: Event, env: Env) {
    env.signals.Some?
    && LastClosed(QuoteAt(live, e), env.cfg.intervalMs) > Baseline(live.signalAt, live.now.position.basis, env.cfg)
  }

  function AfterTick(live: Live, e: Event, now: Protected, signalAt: Option<int>): Live {
    Live(now, QuoteAt(live, e), Some(e.stream), e.price, Some(e.id), signalAt)
  }

  /** Price exit, then holding limit, then signals, and only then protection. */
  function TakeTick(live: Live, e: Event, env: Env, gap: Option<GapNote>): Step {
    var at := QuoteAt(live, e);
    var b := live.now.position.basis;
    var exit := TickExit(live.now.position, e.price, at, env.cfg);
    var protected := Advance(live.now, e.price, e.observedAt, env.cfg, env.policy);
    if exit.Some? then Stepped(AfterTick(live, e, live.now, live.signalAt), exit, None, false, gap)
    else if !SignalDue(live, e, env) then Stepped(AfterTick(live, e, protected, live.signalAt), None, None, false, gap)
    else
      match ScanSignals(env.signals.value, Baseline(live.signalAt, b, env.cfg), LastClosed(at, env.cfg.intervalMs), e, at, b, env.cfg, live.signalAt)
      case BadSignal => SignalFailed
      case Scanned(signalAt, None) => Stepped(AfterTick(live, e, protected, signalAt), None, None, true, gap)
      case Scanned(signalAt, Some(s)) =>
        Stepped(AfterTick(live, e, live.now, signalAt),
                Some(Settle(live.now.position, e.price, at, SignalExit, env.cfg)),
                Some(SignalNote(s.openTime, s.closedAt, s.availableAt, e.receivedAt, Max(0, e.receivedAt - s.closedAt))),
                true, gap)
  }

  /** A tick on another stream first recovers the gap; a recovery may already close the position. */
  function StepOn(live: Live, e: Event, env: Env): Step {
    if !StreamChanged(live, e) then TakeTick(live, e, env, None)
    else
      match env.recover(live.now, live.through, e.(observedAt := QuoteAt(live, e)), live.anchor)
      case Incomplete => RecoveryFailed
      case Done(r) =>
        var gap := Some(GapNote(if live.stream.None? then UnconfirmedStream else StreamChange, r.evidence));
        var recovered := live.(now := r.now);
        if r.settlement.Some? then Stepped(AfterTick(recovered, e, r.now, live.signalAt), r.settlement, None, false, gap)
        else TakeTick(recovered, e, env, gap)
  }

  // ---------------------------------------------------------------- the protective look-ahead

  function IdsFrom(events: seq<Event>, id: int): seq<Event> {
    if events == [] then []
    else (if events[0].id >= id then [events[0]] else []) + IdsFrom(events[1..], id)
  }

  /** The rest of the batch and, when it is newer still, the latest protective tick. */
  function Candidates(e: Event, env: Env): seq<Event> {
    var ahead := IdsFrom(env.batch, e.id);
    var last := if ahead == [] then e.id else ahead[|ahead| - 1].id;
    if env.latest.Some? && env.latest.value.id > last then ahead + [env.latest.value] else ahead
  }

  datatype Found = Found(event: Event, settlement: Settlement)

  /** The first tick, at or after the position's clock, that exits at the levels already confirmed. */
  function FirstExit(p: Position, through: int, events: seq<Event>, cfg: Config): Option<Found> {
    if events == [] then None
    else
      var e := events[0];
      var exit := TickExit(p, e.price, e.observedAt, cfg);
      if e.observedAt >= through && e.observedAt >= p.basis.openedAt && exit.Some? then Some(Found(e, exit.value))
      else FirstExit(p, through, events[1..], cfg)
  }

  method FindExit(p: Position, through: int, events: seq<Event>, cfg: Config) returns (found: Option<Found>)
    ensures found == FirstExit(p, through, events, cfg)
  {
    hide TickExit;
    var i := 0;
    while i < |events|
      invariant i <= |events|
      invariant FirstExit(p, through, events, cfg) == FirstExit(p, through, events[i..], cfg)
    {
      var event := events[i];
      assert events[i..][0] == event && events[i..][1..] == events[i + 1..];
      if event.observedAt >= through && event.observedAt >= p.basis.openedAt {
        var exit := TickExit(p, event.price, event.observedAt, cfg);
        if exit.Some? { return Some(Found(event, exit.value)); }
      }
      i := i + 1;
    }
    return None;
  }

  function LookAhead(live: Live, e: Event, env: Env): Option<Found> {
    if StreamChanged(live, e) && env.protectFirst
    then FirstExit(live.now.position, live.through, Candidates(e, env), env.cfg)
    else None
  }

  // ---------------------------------------------------------------- the loop

  datatype Loop = Loop(live: Live, recovered: bool, recovery: Option<GapNote>, pending: Option<Checkpoint>, loaded: bool)

  datatype Outcome = Finished | Refused | RecoveryMissing | SignalRejected

  /** The checkpoints offered, in order, and why the loop stopped. */
  datatype Run = Run(offered: seq<Checkpoint>, outcome: Outcome)

  function Fresh(live: Live): Loop {
    Loop(live, false, None, None, false)
  }

  function PreOpenCheckpoint(l: Loop, e: Event): Checkpoint {
    Checkpoint(l.live.now, e, l.live.through, if l.live.stream.Some? then l.live.stream.value else e.stream, l.live.mark,
               None, l.recovered, l.recovery, l.live.signalAt, None, false)
  }

  function LookAheadCheckpoint(l: Loop, found: Found): Checkpoint {
    var c := found.event;
    Checkpoint(l.live.now, c, c.observedAt, c.stream, c.price, Some(found.settlement), true,
               Some(GapNote(if l.live.stream.None? then UnconfirmedStream else StreamChange,
                            Evidence(l.live.through, c.observedAt, JournalProtection, IncompleteHistory, Some(UnreconstructedGap)))),
               l.live.signalAt, None, true)
  }

  function TickCheckpoint(l: Loop, e: Event, s: Step): Checkpoint
    requires s.Stepped?
  {
    Checkpoint(s.live.now, e, s.live.through, e.stream, e.price, s.settlement,
               l.recovered || s.gap.Some?, if s.gap.Some? then s.gap else l.recovery, s.live.signalAt, s.signal, false)
  }

  /** Signals are about to be read for the first time. */
  predicate FirstConsultation(l: Loop, e: Event, env: Env) {
    !l.loaded && !StreamChanged(l.live, e)
    && TickExit(l.live.now.position, e.price, QuoteAt(l.live, e), env.cfg).None? && SignalDue(l.live, e, env)
  }

  predicate MustFlush(l: Loop, e: Event, env: Env) {
    l.pending.Some? && (StreamChanged(l.live, e) || FirstConsultation(l, e, env))
  }

  function AfterStep(l: Loop, e: Event, s: Step): Loop
    requires s.Stepped?
  {
    var cp := TickCheckpoint(l, e, s);
    Loop(s.live, cp.recovered, cp.recovery, Some(cp), l.loaded || s.consulted)
  }

  function Emit(cp: Option<Checkpoint>): seq<Checkpoint> {
    if cp.Some? then [cp.value] else []
  }

  /** What the loop offers from `events` on, having offered `count` checkpoints before. */
  function Process(l: Loop, events: seq<Event>, env: Env, accept: nat -> bool, count: nat): Run
    decreases |events|
  {
    if events == [] then Run(Emit(l.pending), Finished)
    else
      var e := events[0];
      if PreOpen(l.live, e) then Process(l.(pending := Some(PreOpenCheckpoint(l, e))), events[1..], env, accept, count)
      else
        var found := LookAhead(l.live, e, env);
        var flushed := if MustFlush(l, e, env) then Emit(l.pending) else [];
        if found.Some? then Run([LookAheadCheckpoint(l, found.value)], Finished)
        else if flushed != [] && !accept(count) then Run(flushed, Refused)
        else
          var s := StepOn(l.live, e, env);
          match s
          case RecoveryFailed => Run(flushed, RecoveryMissing)
          case SignalFailed => Run(flushed, SignalRejected)
          case Stepped(_, settlement, _, _, _) =>
            if settlement.Some? then Run(flushed + [TickCheckpoint(l, e, s)], Finished)
            else
              var rest := Process(AfterStep(l, e, s), events[1..], env, accept, count + |flushed|);
              Run(flushed + rest.offered, rest.outcome)
  }
}
