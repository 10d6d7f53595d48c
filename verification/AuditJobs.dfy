/** The jobs of the audit queue: one per closed trade, with its attempts and the next time it is due. */
module AuditJobs {
  import opened Common

  datatype Closure = Closure(id: int, positionId: int, createdAt: int, closedAt: int, retainUntil: Option<int>)

  /** A checked result; `retry` when it names a source that could not be read. */
  datatype Summary = Summary(resultHash: int, evidenceHash: int, retry: bool)

  datatype AttemptError = RunFailed | Interrupted | ReceiptCorrupt | EvidenceCorrupt

  datatype Receipt = Receipt(tradeId: int, number: nat, startedAt: int, completedAt: int, result: Option<Summary>,
                             error: Option<AttemptError>, retryable: bool)

  datatype Active = Active(number: nat, startedAt: int)

  datatype Job = Job(closure: Closure, lastSeen: Option<int>, verified: bool, correctedFrom: Option<int>, discoveredAt: int,
                     evidenceAt: Option<int>, attempts: nat, active: Option<Active>, latest: Option<Receipt>, nextAt: Option<int>)

  datatype Position = Position(createdAt: int, id: int)

  datatype SourceError = LoadFailed | InvalidInventory | BoundaryChanged | InvalidIdentity | IdentityChanged | CreationChanged
                       | BudgetExceeded | CannotAdvance | MissingFromSource | IndexNotWritten

  datatype State = State(jobs: seq<Job>, cursor: Option<Position>, scanAsOf: Option<int>, sourceTotal: Option<int>,
                         lastDiscoveryAt: Option<int>, lastCompletedAt: Option<int>, sourceError: Option<SourceError>)

  function FindJob(jobs: seq<Job>, id: int): (found: Option<nat>)
    ensures found.Some? ==> found.value < |jobs| && jobs[found.value].closure.id == id
    ensures found.None? ==> forall k :: 0 <= k < |jobs| ==> jobs[k].closure.id != id
  {
    if jobs == [] then None
    else if jobs[0].closure.id == id then Some(0)
    else
      var rest := FindJob(jobs[1..], id);
      assert forall k :: 0 < k < |jobs| ==> jobs[k] == jobs[1..][k - 1];
      if rest.Some? then Some(rest.value + 1) else None
  }

  predicate UniqueIds(jobs: seq<Job>) {
    forall i, j :: 0 <= i < j < |jobs| ==> jobs[i].closure.id != jobs[j].closure.id
  }

  // ---------------------------------------------------------------- one job

  function StartJob(j: Job, now: int): Job {
    j.(attempts := j.attempts + 1, active := Some(Active(j.attempts + 1, now)))
  }

  /** Fifteen seconds, doubled with every attempt, at most fifteen minutes. */
  function Backoff(attempts: int): (ms: int)
    ensures attempts >= 1 ==> 15000 <= ms <= 900000
    ensures attempts >= 7 ==> ms == 900000
  {
    assert Pow2(6) == 2 * Pow2(5) && Pow2(5) == 2 * Pow2(4) && Pow2(4) == 2 * Pow2(3) && Pow2(3) == 2 * Pow2(2) && Pow2(2) == 2 * Pow2(1);
    if attempts < 1 then 0 else Min(900000, 15000 * Pow2(if attempts - 1 <= 6 then attempts - 1 else 6))
  }

  /** The first delay, and each further one: twice the one before, up to the limit. */
  lemma BackoffDoubles(attempts: int)
    requires attempts >= 1
    ensures Backoff(1) == 15000 && Backoff(attempts + 1) == Min(900000, 2 * Backoff(attempts))
  {
    if attempts <= 6 { assert Pow2(attempts) == 2 * Pow2(attempts - 1); }
  }

  function CompleteJob(j: Job, receipt: Receipt, now: int): Job {
    j.(latest := Some(receipt), evidenceAt := if receipt.result.Some? then Some(now) else j.evidenceAt, active := None,
       nextAt := if receipt.retryable then Some(now + Backoff(j.attempts)) else None)
  }

  function AdoptJob(j: Job, receipt: Receipt, now: int): Job {
    j.(latest := Some(receipt), active := None, nextAt := if receipt.retryable then Some(now) else None)
  }

  function ReceiptFor(j: Job, result: Option<Summary>, error: Option<AttemptError>, retryable: bool, now: int): Receipt
    requires j.active.Some?
  {
    Receipt(j.closure.id, j.active.value.number, j.active.value.startedAt, now, result, error, retryable)
  }

  function Replace(s: State, i: nat, j: Job): State
    requires i < |s.jobs|
  {
    s.(jobs := s.jobs[i := j])
  }

  // ---------------------------------------------------------------- which job is next

  predicate Due(j: Job, now: int) {
    j.active.None? && j.nextAt.Some? && j.nextAt.value <= now
  }

  const NEVER := 253370764800000

  function Deadline(j: Job): int {
    if j.closure.retainUntil.Some? then j.closure.retainUntil.value else NEVER
  }

  /** The evidence that expires first, then the oldest record, then the smallest id. */
  predicate Before(a: Job, b: Job) {
    || Deadline(a) < Deadline(b)
    || (Deadline(a) == Deadline(b) &&
        (a.closure.createdAt < b.closure.createdAt || (a.closure.createdAt == b.closure.createdAt && a.closure.id < b.closure.id)))
  }

  /** Job `i` is due, and every other due job comes after it. */
  predicate IsNext(s: State, i: nat, now: int) {
    && i < |s.jobs| && Due(s.jobs[i], now)
    && forall k :: 0 <= k < |s.jobs| && k != i && Due(s.jobs[k], now) ==> Before(s.jobs[i], s.jobs[k])
  }

  method NextJob(s: State, now: int) returns (next: Option<nat>)
    requires UniqueIds(s.jobs)
    ensures next.None? <==> forall j :: j in s.jobs ==> !Due(j, now)
    ensures next.Some? ==> IsNext(s, next.value, now)
  {
    next := None;
    var i := 0;
    while i < |s.jobs|
      invariant i <= |s.jobs|
      invariant next.None? ==> forall k :: 0 <= k < i ==> !Due(s.jobs[k], now)
      invariant next.Some? ==>
                  && next.value < i && Due(s.jobs[next.value], now)
                  && forall k :: 0 <= k < i && k != next.value && Due(s.jobs[k], now) ==> Before(s.jobs[next.value], s.jobs[k])
    {
      if Due(s.jobs[i], now) && (next.None? || Before(s.jobs[i], s.jobs[next.value])) { next := Some(i); }
      i := i + 1;
    }
  }

  // ---------------------------------------------------------------- reading stored outcomes again

  /** The job has a result and no attempt under way. */
  predicate Finished(j: Job) {
    j.active.None? && j.latest.Some? && j.latest.value.result.Some?
  }

  const RECHECK := 86400000

  predicate DueCheck(j: Job, now: int) {
    Finished(j) && (j.evidenceAt.None? || now - j.evidenceAt.value > RECHECK)
  }

  /** Checked longer ago; never is longest. */
  predicate CheckedBefore(a: Job, b: Job) {
    b.evidenceAt.Some? && (a.evidenceAt.None? || a.evidenceAt.value < b.evidenceAt.value)
  }

  /** The finished job whose outcome was read longest ago, if that is more than a day; the first of equals. */
  method NextCheck(s: State, now: int) returns (next: Option<nat>)
    ensures next.None? <==> forall j :: j in s.jobs ==> !DueCheck(j, now)
    ensures next.Some? ==>
              && next.value < |s.jobs| && DueCheck(s.jobs[next.value], now)
              && forall k :: 0 <= k < |s.jobs| && DueCheck(s.jobs[k], now) ==>
                   !CheckedBefore(s.jobs[k], s.jobs[next.value]) && (k < next.value ==> CheckedBefore(s.jobs[next.value], s.jobs[k]))
  {
    next := None;
    var i := 0;
    while i < |s.jobs|
      invariant i <= |s.jobs|
      invariant next.None? ==> forall k :: 0 <= k < i ==> !DueCheck(s.jobs[k], now)
      invariant next.Some? ==>
                  && next.value < i && DueCheck(s.jobs[next.value], now)
                  && forall k :: 0 <= k < i && DueCheck(s.jobs[k], now) ==>
                       !CheckedBefore(s.jobs[k], s.jobs[next.value]) && (k < next.value ==> CheckedBefore(s.jobs[next.value], s.jobs[k]))
    {
      if DueCheck(s.jobs[i], now) && (next.None? || CheckedBefore(s.jobs[i], s.jobs[next.value])) { next := Some(i); }
      i := i + 1;
    }
  }
}
