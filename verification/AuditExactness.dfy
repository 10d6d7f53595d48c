/** What happens to one audit job, told field by field: its attempts, receipts and the times at which it is due. */
module AuditExactness {
  import opened Common
  import opened AuditJobs
  import opened AuditDiscovery
  import opened AuditQueue

  /** The delay after so many attempts: fifteen seconds, doubled six times at most, and never above fifteen minutes. */
  predicate IsDelay(attempts: nat, ms: int) {
    match attempts
    case 1 => ms == 15000
    case 2 => ms == 30000
    case 3 => ms == 60000
    case 4 => ms == 120000
    case 5 => ms == 240000
    case 6 => ms == 480000
    case _ => attempts > 6 ==> ms == 900000
  }

  lemma DelayIs(attempts: nat)
    requires attempts >= 1
    ensures IsDelay(attempts, Backoff(attempts))
  {
    BackoffDoubles(1);
    BackoffDoubles(2);
    BackoffDoubles(3);
    BackoffDoubles(4);
    BackoffDoubles(5);
    BackoffDoubles(6);
  }

  /** Everything about a job that an attempt does not concern. */
  predicate SameTrade(j: Job, k: Job) {
    && k.closure == j.closure && k.lastSeen == j.lastSeen && k.verified == j.verified && k.correctedFrom == j.correctedFrom
    && k.discoveredAt == j.discoveredAt
  }

  /** The attempt under way after a claim: the next number, from now. */
  predicate Claims(j: Job, after: Job, now: int) {
    && SameTrade(j, after) && after.attempts == j.attempts + 1 && after.active == Some(Active(j.attempts + 1, now))
    && after.latest == j.latest && after.nextAt == j.nextAt && after.evidenceAt == j.evidenceAt
  }

  /** The attempt has ended with this receipt: it is the latest, a result counts as read now, and only a retry is due again, after its delay. */
  predicate EndsWith(j: Job, after: Job, receipt: Receipt, now: int) {
    && SameTrade(j, after) && after.attempts == j.attempts && after.active.None? && after.latest == Some(receipt)
    && after.evidenceAt == (if receipt.result.None? then j.evidenceAt else Some(now))
    && if receipt.retryable then after.nextAt.Some? && (j.attempts >= 1 ==> IsDelay(j.attempts, after.nextAt.value - now)) else after.nextAt.None?
  }

  /** The receipt of the attempt under way. */
  predicate ReceiptOf(j: Job, receipt: Receipt, result: Option<Summary>, error: Option<AttemptError>, retryable: bool, now: int) {
    && j.active.Some? && receipt.tradeId == j.closure.id && receipt.number == j.active.value.number
    && receipt.startedAt == j.active.value.startedAt && receipt.completedAt == now
    && receipt.result == result && receipt.error == error && receipt.retryable == retryable
  }

  lemma ClaimExactly(j: Job, now: int)
    ensures Claims(j, StartJob(j, now), now)
  {
  }

  lemma CompletionExactly(j: Job, result: Option<Summary>, error: Option<AttemptError>, retryable: bool, now: int)
    requires j.active.Some?
    ensures var receipt := ReceiptFor(j, result, error, retryable, now);
            ReceiptOf(j, receipt, result, error, retryable, now) && EndsWith(j, CompleteJob(j, receipt, now), receipt, now)
  {
    hide Backoff;
    if j.attempts >= 1 { DelayIs(j.attempts); }
  }

  /** An adopted receipt ends the attempt as it was written; a retry is due at once, and nothing counts as read. */
  lemma AdoptionExactly(j: Job, receipt: Receipt, now: int)
    ensures var after := AdoptJob(j, receipt, now);
            && SameTrade(j, after) && after.attempts == j.attempts && after.active.None? && after.latest == Some(receipt)
            && after.evidenceAt == j.evidenceAt && after.nextAt == if receipt.retryable then Some(now) else None
  {
  }

  /** What could not be read is recorded as a new attempt that began and failed now, to be retried. */
  predicate RecordedAs(j: Job, after: Job, error: AttemptError, now: int) {
    && SameTrade(j, after) && after.attempts == j.attempts + 1 && after.active.None? && after.evidenceAt == j.evidenceAt
    && after.latest == Some(Receipt(j.closure.id, j.attempts + 1, now, now, None, Some(error), true))
    && after.nextAt.Some? && IsDelay(j.attempts + 1, after.nextAt.value - now)
  }

  lemma CorruptionExactly(j: Job, error: AttemptError, now: int)
    ensures RecordedAs(j, CorruptJob(j, error, now), error, now)
  {
    hide Backoff;
    DelayIs(j.attempts + 1);
  }

  /** A stored outcome that holds is marked as read, and nothing else; one that does not is recorded as corrupt. */
  lemma RecheckExactly(j: Job, holds: bool, now: int)
    ensures var after := Rechecked(j, holds, now);
            if holds then SameTrade(j, after) && after.evidenceAt == Some(now) && after.attempts == j.attempts && after.active == j.active
                          && after.latest == j.latest && after.nextAt == j.nextAt
            else RecordedAs(j, after, EvidenceCorrupt, now)
  {
    CorruptionExactly(j, EvidenceCorrupt, now);
  }

  /** How an attempt ends that ran, failed or was interrupted: which receipt it leaves. */
  lemma OutcomesExactly(j: Job, result: Summary, now: int)
    requires j.active.Some? && j.attempts >= 1
    ensures exists r :: ReceiptOf(j, r, Some(result), None, result.retry, now) && EndsWith(j, FinishedJob(j, result, now), r, now)
    ensures exists r :: ReceiptOf(j, r, None, Some(RunFailed), true, now) && EndsWith(j, FailedJob(j, now), r, now)
    ensures exists r :: ReceiptOf(j, r, None, Some(Interrupted), true, now) && EndsWith(j, InterruptedJob(j, now), r, now)
  {
    hide ReceiptFor, CompleteJob, ReceiptOf, EndsWith;
    CompletionExactly(j, Some(result), None, result.retry, now);
    CompletionExactly(j, None, Some(RunFailed), true, now);
    CompletionExactly(j, None, Some(Interrupted), true, now);
  }

  // ---------------------------------------------------------------- what is due, and what comes first

  /** No attempt is under way and the time has come. */
  predicate Waits(j: Job, now: int) {
    j.active.None? && match j.nextAt case None => false case Some(at) => now >= at
  }

  /** Evidence that expires earlier comes first, without a date last; then the record created earlier; then the smaller id. */
  predicate Precedes(a: Job, b: Job) {
    var x, y := if a.closure.retainUntil.None? then NEVER else a.closure.retainUntil.value, if b.closure.retainUntil.None? then NEVER else b.closure.retainUntil.value;
    if x != y then x < y
    else if a.closure.createdAt != b.closure.createdAt then a.closure.createdAt < b.closure.createdAt
    else a.closure.id < b.closure.id
  }

  lemma NextExactly(s: State, i: nat, now: int)
    ensures IsNext(s, i, now) <==>
              i < |s.jobs| && Waits(s.jobs[i], now)
              && forall k :: 0 <= k < |s.jobs| && k != i && Waits(s.jobs[k], now) ==> Precedes(s.jobs[i], s.jobs[k])
  {
    forall j ensures Due(j, now) <==> Waits(j, now) { }
    forall a, b ensures Before(a, b) <==> Precedes(a, b) { }
  }

  /** The far future is the beginning of the year 9999. */
  lemma NeverIsFar()
    ensures NEVER == (8029 * 365 + 1947) * 86400000
  {
  }

  /** After a completed attempt the job is due exactly from the end of its delay on; after a final one never again. */
  lemma DueAfter(j: Job, after: Job, receipt: Receipt, now: int, at: int)
    requires EndsWith(j, after, receipt, now) && j.attempts >= 1
    ensures Due(after, at) <==> receipt.retryable && exists ms :: IsDelay(j.attempts, ms) && at >= now + ms
  {
    hide IsDelay;
    DelayIs(j.attempts);
    if receipt.retryable { OneDelay(j.attempts, after.nextAt.value - now); }
    forall ms | IsDelay(j.attempts, ms) ensures ms == Backoff(j.attempts) { OneDelay(j.attempts, ms); }
  }

  lemma OneDelay(attempts: nat, ms: int)
    requires attempts >= 1 && IsDelay(attempts, ms)
    ensures ms == Backoff(attempts)
  {
    DelayIs(attempts);
  }

  /** A stored outcome is read again once it has never been, or not for more than a day; oldest first. */
  lemma ReadingExactly(a: Job, b: Job, now: int)
    ensures DueCheck(a, now) <==>
              a.active.None? && a.latest.Some? && a.latest.value.result.Some?
              && (a.evidenceAt.Some? ==> now > a.evidenceAt.value + 24 * 60 * 60 * 1000)
    ensures CheckedBefore(a, b) <==> b.evidenceAt.Some? && (a.evidenceAt.Some? ==> a.evidenceAt.value < b.evidenceAt.value)
  {
  }

  /** What one turn of the queue makes of the next job: a new attempt that ends with the run's result, or as failed, to be retried. */
  lemma RunExactly(before: Job, after: Job, result: Option<Summary>, now: int)
    requires Attempted(before, after, result, now, true)
    ensures exists claimed, r ::
              Claims(before, claimed, now) && EndsWith(claimed, after, r, now)
              && if result.Some? then ReceiptOf(claimed, r, result, None, result.value.retry, now)
                 else ReceiptOf(claimed, r, None, Some(RunFailed), true, now)
  {
    hide ReceiptFor, CompleteJob, ReceiptOf, EndsWith, IsDelay, Backoff;
    var claimed := StartJob(before, now);
    ClaimExactly(before, now);
    if result.Some? { OutcomesExactly(claimed, result.value, now); } else { OutcomesExactly(claimed, Summary(0, 0, false), now); }
  }

  /** An idle turn reads one outcome that is due for it, and touches no other job. */
  lemma ReadExactly(before: State, after: State, i: nat, holds: Job -> bool, now: int)
    requires Verified(before, after, i, holds, now, true)
    ensures i < |before.jobs| && DueCheck(before.jobs[i], now) && |after.jobs| == |before.jobs| && after == before.(jobs := after.jobs)
    ensures forall k :: 0 <= k < |before.jobs| && k != i ==> after.jobs[k] == before.jobs[k]
    ensures var j, read := before.jobs[i], after.jobs[i];
            if holds(j) then SameTrade(j, read) && read.evidenceAt == Some(now) && read.latest == j.latest && read.attempts == j.attempts
            else RecordedAs(j, read, EvidenceCorrupt, now)
  {
    RecheckExactly(before.jobs[i], holds(before.jobs[i]), now);
  }

  // ---------------------------------------------------------------- what recovery and discovery make of a job

  /** Receipt and stored result are those of the attempt under way. */
  lemma LooksAtTheAttempt(found: (int, nat) -> Option<Summary>, receipts: map<Key, File>, j: Job)
    requires j.active.Some?
    ensures FoundFor(found, j) == found(j.closure.id, j.active.value.number)
    ensures var key := (j.closure.id, j.active.value.number); FileAt(receipts, j) == if key in receipts then Some(receipts[key]) else None
  {
  }

  /** What a restart makes of a job with an attempt under way: by its receipt, by its stored result, or as interrupted. */
  lemma RecoveryExactly(before: Job, after: Job, file: Option<File>, found: Option<Summary>, now: int)
    requires Recovered(before, after, file, found, now, true) && before.attempts >= 1
    ensures if before.active.None? then after == before
            else if file == Some(Torn) then RecordedAs(before, after, ReceiptCorrupt, now)
            else if file.Some? then
              var receipt := file.value.receipt;
              after.latest == Some(receipt) && after.active.None? && after.attempts == before.attempts
              && after.nextAt == if receipt.retryable then Some(now) else None
            else if found.Some? then
              exists r :: ReceiptOf(before, r, found, None, found.value.retry, now) && EndsWith(before, after, r, now)
            else exists r :: ReceiptOf(before, r, None, Some(Interrupted), true, now) && EndsWith(before, after, r, now)
  {
    hide ReceiptFor, CompleteJob, ReceiptOf, EndsWith, IsDelay, Backoff;
    if before.active.Some? {
      CorruptionExactly(before, ReceiptCorrupt, now);
      if found.Some? { OutcomesExactly(before, found.value, now); } else { OutcomesExactly(before, Summary(0, 0, false), now); }
    }
  }

  /** The job of a closed trade found for the first time: due now, without attempts. */
  predicate IsNew(j: Job, c: Closure, now: int) {
    && j.closure == c && j.lastSeen.None? && j.verified && j.correctedFrom.None? && j.discoveredAt == now && j.evidenceAt.None?
    && j.attempts == 0 && j.active.None? && j.latest.None? && j.nextAt == Some(now)
  }

  /** The known job of the same trade, its creation time taken over from the source if that had not been verified before. */
  predicate IsConfirmed(j: Job, after: Job, c: Closure) {
    && after.verified && after.closure == j.closure.(createdAt := c.createdAt)
    && after == j.(verified := true, closure := after.closure, correctedFrom := after.correctedFrom)
    && after.correctedFrom == if j.closure.createdAt == c.createdAt then j.correctedFrom else Some(j.closure.createdAt)
  }

  /**
   A closed trade is refused if a known one of its id is another trade, or was created at another time although that has
   been verified, or if it is unknown and there are too many jobs. Otherwise it is confirmed or added, and no other job
   is touched.
   */
  lemma AddExactly(s: State, c: Closure, now: int, maxJobs: nat)
    requires UniqueIds(s.jobs)
    ensures var r := AddClosure(s, c, now, maxJobs);
            if exists j :: j in s.jobs && j.closure.id == c.id then
              exists k: nat :: k < |s.jobs| && s.jobs[k].closure.id == c.id &&
                var j := s.jobs[k];
                if !(j.closure.positionId == c.positionId && j.closure.closedAt == c.closedAt) then r == NotAdded(IdentityChanged)
                else if j.closure.createdAt != c.createdAt && j.verified then r == NotAdded(CreationChanged)
                else r.Added? && r.index == k && |r.state.jobs| == |s.jobs| && IsConfirmed(j, r.state.jobs[k], c) && r.state == Replace(s, k, r.state.jobs[k])
            else if |s.jobs| < maxJobs then
              r.Added? && r.index == |s.jobs| && |r.state.jobs| == |s.jobs| + 1 && IsNew(r.state.jobs[r.index], c, now)
              && r.state == s.(jobs := s.jobs + [r.state.jobs[r.index]])
            else r == NotAdded(BudgetExceeded)
  {
    var found := FindJob(s.jobs, c.id);
    if found.Some? {
      assert s.jobs[found.value] in s.jobs;
      var r, j := AddClosure(s, c, now, maxJobs), s.jobs[found.value];
      if r.Added? { assert IsConfirmed(j, r.state.jobs[found.value], c); }
    }
  }

  /** Rows are taken in order; the first bad or refused one ends the page, and what was taken is marked by the scan. */
  lemma RowExactly(s: State, rows: seq<Row>, asOf: int, now: int, maxJobs: nat)
    requires rows != []
    ensures var (taken, error) := TakeRows(s, rows, asOf, now, maxJobs);
            match rows[0]
            case BadRow => taken == s && error == Some(InvalidIdentity)
            case Row(c) =>
              match AddClosure(s, c, now, maxJobs)
              case NotAdded(cause) => taken == s && error == Some(cause)
              case Added(next, i) =>
                (taken, error) == TakeRows(next.(jobs := next.jobs[i := next.jobs[i].(lastSeen := Some(asOf))]), rows[1..], asOf, now, maxJobs)
    ensures TakeRows(s, [], asOf, now, maxJobs) == (s, None)
  {
    hide AddClosure;
  }

  /** The source had a trade by the boundary of the scan, and the scan has not seen it. */
  predicate Unseen(j: Job, asOf: int) {
    !(j.closure.createdAt > asOf || j.closure.closedAt > asOf || j.lastSeen == Some(asOf))
  }

  /** What a page whose rows were all taken leaves: an unfinished scan at its last row, or a finished one that found every known trade. */
  predicate Closed(s: State, page: Page, asOf: int, now: int, after: State) {
    && after.jobs == s.jobs && after.sourceTotal == Some(page.total) && after.lastDiscoveryAt == Some(now)
    && if page.done then
         var lost := exists j :: j in s.jobs && Unseen(j, asOf);
         && after.cursor.None? && after.scanAsOf.None? && after.sourceError == (if lost then Some(MissingFromSource) else None)
         && after.lastCompletedAt == (if lost then s.lastCompletedAt else Some(now))
       else
         && after.lastCompletedAt == s.lastCompletedAt
         && if page.rows != [] && page.rows[|page.rows| - 1].Row? then
              var last := page.rows[|page.rows| - 1].closure;
              after.cursor == Some(Position(last.createdAt, last.id)) && after.scanAsOf == Some(asOf) && after.sourceError.None?
            else after.cursor == s.cursor && after.scanAsOf == s.scanAsOf && after.sourceError == Some(CannotAdvance)
  }

  /** One page: an unreadable or foreign page changes nothing but the error; a refused row keeps the rows before it. */
  lemma PageExactly(s: State, loaded: Option<Page>, now: int, maxJobs: nat)
    ensures var after := Discover(s, loaded, now, maxJobs);
            if loaded.None? then after == s.(sourceError := Some(LoadFailed))
            else if loaded.value.asOf.None? || loaded.value.total < 0 then after == s.(sourceError := Some(InvalidInventory))
            else if s.scanAsOf.Some? && loaded.value.asOf != s.scanAsOf then after == s.(sourceError := Some(BoundaryChanged))
            else
              var (taken, error) := TakeRows(s, loaded.value.rows, loaded.value.asOf.value, now, maxJobs);
              if error.Some? then after == taken.(sourceError := error) else Closed(taken, loaded.value, loaded.value.asOf.value, now, after)
  {
    hide TakeRows;
    assert forall j, asOf :: Missed(j, asOf) <==> Unseen(j, asOf);
  }
}
