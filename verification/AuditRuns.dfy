/** The audit process over days: it is started, recovers, discovers and runs jobs, and dies whenever a write fails. */
module AuditRuns {
  import opened Common
  import opened AuditJobs
  import opened AuditDiscovery
  import opened AuditQueue

  /** What the world answers in one turn: stored results found or still sound, a page of trades, the outcome of a run. */
  datatype Turn =
    | Started(found: (int, nat) -> Option<Summary>, holds: Job -> bool, now: int)
    | Discovering(loaded: Option<Page>, now: int, maxJobs: nat)
    | Running(run: Job -> Option<Summary>, holds: Job -> bool, now: int)

  /**
   Over every run of the process, with any write lost, torn or late and any number of restarts: no receipt is
   overwritten or removed, none is numbered beyond the saved attempts of its job, and no job loses attempts.
   */
  method Watch(disk: Disk, turns: seq<Turn>)
    requires disk.Valid()
    modifies disk
    ensures disk.Valid() && Grows(old(disk.receipts), disk.receipts) && Continues(old(disk.saved), disk.saved)
  {
    hide WellFormed, Continues, LatestOnDisk, ReceiptsWithin, Claimed, Recovered, Attempted;
    ghost var receipts, saved := disk.receipts, disk.saved;
    ContinuesItself(saved);
    var monitor: Monitor? := null;
    var i := 0;
    while i < |turns|
      invariant i <= |turns|
      invariant disk.Valid() && Grows(receipts, disk.receipts) && Continues(saved, disk.saved)
      invariant monitor != null ==> fresh(monitor) && monitor.disk == disk && monitor.Valid()
    {
      ghost var before := disk.saved;
      match turns[i] {
        case Started(found, holds, now) =>
          var m, ok := Monitor.Open(disk);
          if ok { ok := m.Recover(found, now); }
          ghost var recovered := disk.saved;
          if ok { ok := m.VerifyLatest(holds, now); }
          ContinuesItself(recovered);
          ContinuesThrough(before, recovered, disk.saved);
          monitor := if ok then m else null;
        case Discovering(loaded, now, maxJobs) =>
          if monitor != null { var _ := monitor.DiscoverPage(loaded, now, maxJobs); }
        case Running(run, holds, now) =>
          if monitor != null {
            var ran, ok := monitor.RunOne(run, now);
            ghost var ended := disk.saved;
            if ok && !ran { ok := monitor.VerifyOldest(holds, now); }
            ContinuesItself(ended);
            ContinuesThrough(before, ended, disk.saved);
            if !ok { monitor := null; }
          }
      }
      ContinuesItself(before);
      ContinuesThrough(saved, before, disk.saved);
      i := i + 1;
    }
  }

  /** A restart on a working disk closes every open attempt, and each readable receipt is the job's latest again. */
  method Restart(disk: Disk, found: (int, nat) -> Option<Summary>, now: int) returns (m: Monitor)
    requires disk.Valid() && disk.Healthy()
    modifies disk
    ensures fresh(m) && m.Valid() && m.disk == disk && disk.saved == m.state && disk.Healthy() && Grows(old(disk.receipts), disk.receipts)
    ensures |m.state.jobs| == |old(disk.saved).jobs|
    ensures forall k :: 0 <= k < |m.state.jobs| ==>
              var before, after := old(disk.saved).jobs[k], m.state.jobs[k];
              && after.active.None?
              && (before.active.Some? ==>
                    match FileAt(old(disk.receipts), before)
                    case Some(Good(r)) => after.latest == Some(r) && after.attempts == before.attempts
                    case Some(Torn) => after.attempts == before.attempts + 1 && after.latest.Some? && after.latest.value.number == after.attempts
                                       && after.latest.value.error == Some(ReceiptCorrupt) && after.nextAt.Some?
                    case None => after.attempts == before.attempts && after.latest.Some? && after.latest.value.number == before.active.value.number
                                 && after.latest.value.result == FoundFor(found, before)
                                 && (after.latest.value.result.None? ==> after.nextAt.Some?))
              && (before.active.None? ==> after == before)
  {
    hide WellFormed, Continues, LatestOnDisk, ReceiptsWithin, Claimed;
    var ok;
    m, ok := Monitor.Open(disk);
    ghost var atStart := m.state;
    ok := m.Recover(found, now);
    forall k | 0 <= k < |m.state.jobs|
      ensures Recovered(atStart.jobs[k], m.state.jobs[k], FileAt(old(disk.receipts), atStart.jobs[k]), FoundFor(found, atStart.jobs[k]), now, true)
    {
    }
  }
}
