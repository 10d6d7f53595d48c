/**
 The audit queue: one durable index of jobs, replaced atomically, beside write-once receipts of single attempts.
 Any write may be lost, torn or fail late, and with it the process may end.
 */
module AuditQueue {
  import opened Common
  import opened AuditJobs
  import opened AuditDiscovery

  // ---------------------------------------------------------------- the store

  datatype File = Good(receipt: Receipt) | Torn

  /** What happens to a write: it lands, it is lost, it is cut short, or it lands but reports a failure. */
  datatype Fate = Lands | IsLost | IsTorn | FailsLate

  type Key = (int, nat)

  /** No receipt is numbered beyond its job's saved attempts, and every receipt names its own attempt. */
  ghost predicate ReceiptsWithin(receipts: map<Key, File>, saved: State) {
    && (forall k :: k in receipts ==> FindJob(saved.jobs, k.0).Some? && k.1 <= saved.jobs[FindJob(saved.jobs, k.0).value].attempts)
    && (forall k :: k in receipts && receipts[k].Good? ==> receipts[k].receipt.tradeId == k.0 && receipts[k].receipt.number == k.1)
  }

  ghost predicate WellFormed(s: State) {
    && UniqueIds(s.jobs)
    && (forall j :: j in s.jobs && j.active.Some? ==> j.active.value.number == j.attempts)
  }

  /** Every job's latest receipt is the readable one on disk. */
  ghost predicate LatestOnDisk(s: State, receipts: map<Key, File>) {
    forall j :: j in s.jobs && j.latest.Some? ==>
      (j.closure.id, j.latest.value.number) in receipts && receipts[(j.closure.id, j.latest.value.number)] == Good(j.latest.value)
  }

  /** Later jobs of the same ids with no fewer attempts. */
  ghost predicate Continues(before: State, after: State) {
    && |before.jobs| <= |after.jobs|
    && forall k :: 0 <= k < |before.jobs| ==>
         after.jobs[k].closure.id == before.jobs[k].closure.id && after.jobs[k].attempts >= before.jobs[k].attempts
  }

  ghost predicate Grows(before: map<Key, File>, after: map<Key, File>) {
    forall k :: k in before ==> k in after && after[k] == before[k]
  }

  class Disk {
    const fates: nat -> Fate
    const room: nat -> bool
    var steps: nat
    var saved: State
    var receipts: map<Key, File>

    constructor (fates: nat -> Fate, room: nat -> bool)
      ensures this.fates == fates && this.room == room && Valid()
    {
      this.fates, this.room, steps := fates, room, 0;
      saved := State([], None, None, None, None, None, None);
      receipts := map[];
    }

    ghost predicate Valid()
      reads this
    {
      WellFormed(saved) && ReceiptsWithin(receipts, saved) && LatestOnDisk(saved, receipts)
    }

    /** From here on every write lands and there is room. */
    ghost predicate Healthy()
      reads this
    {
      forall n :: n >= steps ==> fates(n).Lands? && room(n)
    }

    /** The index is written beside and renamed into place: the old one or the new one, never a mixture. */
    method Save(s: State) returns (ok: bool)
      modifies this
      ensures receipts == old(receipts) && steps == old(steps) + 1
      ensures saved == s || (saved == old(saved) && !ok)
      ensures fates(old(steps)).Lands? ==> ok
    {
      var fate := fates(steps);
      steps := steps + 1;
      if fate.Lands? || fate.FailsLate? { saved := s; }
      ok := fate.Lands?;
    }

    /** A receipt is created only where none exists; it may be left torn. */
    method WriteOnce(key: Key, receipt: Receipt) returns (ok: bool)
      modifies this
      ensures saved == old(saved) && steps <= old(steps) + 1 && steps >= old(steps)
      ensures Grows(old(receipts), receipts) && (forall k :: k in receipts ==> k in old(receipts) || k == key)
      ensures key !in old(receipts) && key in receipts ==> receipts[key] == Good(receipt) || (receipts[key].Torn? && !ok)
      ensures ok ==> key !in old(receipts) && receipts == old(receipts)[key := Good(receipt)]
      ensures key !in old(receipts) && fates(old(steps)).Lands? ==> ok
    {
      if key in receipts { return false; }
      var fate := fates(steps);
      steps := steps + 1;
      if fate.Lands? || fate.FailsLate? { receipts := receipts[key := Good(receipt)]; }
      if fate.IsTorn? { receipts := receipts[key := Torn]; }
      ok := fate.Lands?;
    }

    method Capacity() returns (ok: bool)
      modifies this
      ensures saved == old(saved) && receipts == old(receipts) && steps == old(steps) + 1
      ensures room(old(steps)) ==> ok
    {
      ok := room(steps);
      steps := steps + 1;
    }
  }

  // ---------------------------------------------------------------- the monitor

  /** A new attempt that only records what was found corrupt. */
  function CorruptJob(j: Job, error: AttemptError, now: int): Job {
    var again := StartJob(j.(active := None), now);
    CompleteJob(again, ReceiptFor(again, None, Some(error), true, now), now)
  }

  /** A stored outcome that still verifies is marked as read; otherwise the job is open again. */
  function Rechecked(j: Job, holds: bool, now: int): Job {
    if holds then j.(evidenceAt := Some(now)) else CorruptJob(j, EvidenceCorrupt, now)
  }

  function InterruptedJob(j: Job, now: int): Job
    requires j.active.Some?
  {
    CompleteJob(j, ReceiptFor(j, None, Some(Interrupted), true, now), now)
  }

  function FinishedJob(j: Job, result: Summary, now: int): Job
    requires j.active.Some?
  {
    CompleteJob(j, ReceiptFor(j, Some(result), None, result.retry, now), now)
  }

  /**
   What recovery makes of a job: a readable receipt is adopted, an unreadable one is left and answered by a new
   attempt, a verified result without receipt is committed, and anything else is retried. On a failing disk a
   result whose receipt was lost may be recorded as an interruption.
   */
  predicate Recovered(before: Job, after: Job, file: Option<File>, found: Option<Summary>, now: int, calm: bool) {
    if before.active.None? then after == before
    else
      match file
      case Some(Good(r)) => after == AdoptJob(before, r, now)
      case Some(Torn) => after == CorruptJob(before, ReceiptCorrupt, now)
      case None =>
        || (found.Some? && after == FinishedJob(before, found.value, now))
        || (after == InterruptedJob(before, now) && !(found.Some? && calm))
  }

  function FileAt(receipts: map<Key, File>, j: Job): Option<File> {
    if j.active.None? then None
    else
      var key := (j.closure.id, j.active.value.number);
      if key in receipts then Some(receipts[key]) else None
  }

  /** The attempts of active jobs have been saved. */
  ghost predicate Claimed(s: State, saved: State) {
    forall k :: 0 <= k < |s.jobs| && s.jobs[k].active.Some? ==>
      k < |saved.jobs| && saved.jobs[k].attempts >= s.jobs[k].attempts
  }

  ghost predicate OnlyFor(id: int, before: map<Key, File>, after: map<Key, File>) {
    forall k :: k in after ==> k in before || k.0 == id
  }

  class Monitor {
    const disk: Disk
    var state: State

    ghost predicate Valid()
      reads this, disk
    {
      disk.Valid() && WellFormed(state) && LatestOnDisk(state, disk.receipts) && Continues(disk.saved, state) && Claimed(state, disk.saved)
    }

    constructor (disk: Disk, state: State)
      ensures this.disk == disk && this.state == state
    {
      this.disk, this.state := disk, state;
    }

    /** Opening reads the saved index and writes it back. */
    static method Open(disk: Disk) returns (m: Monitor, ok: bool)
      requires disk.Valid()
      modifies disk
      ensures fresh(m) && m.disk == disk && m.Valid() && m.state == old(disk.saved)
      ensures disk.saved == old(disk.saved) && disk.receipts == old(disk.receipts)
      ensures old(disk.Healthy()) ==> ok && disk.Healthy()
    {
      m := new Monitor(disk, disk.saved);
      ok := disk.Save(m.state);
    }

    /** The claim is durable before the attempt begins, and its number is new to the store. */
    method Start(i: nat, now: int) returns (ok: bool)
      requires Valid() && i < |state.jobs|
      modifies this, disk
      ensures disk.Valid() && disk.receipts == old(disk.receipts) && Continues(old(disk.saved), disk.saved)
      ensures old(state.jobs[i].active.Some?) ==> !ok
      ensures ok ==>
                && Valid() && state == Replace(old(state), i, StartJob(old(state.jobs[i]), now)) && disk.saved == state
                && (state.jobs[i].closure.id, state.jobs[i].attempts) !in disk.receipts
      ensures old(state.jobs[i].active.None? && disk.Healthy()) ==> ok && disk.Healthy()
    {
      if state.jobs[i].active.Some? { return false; }
      ok := disk.Capacity();
      if !ok { return; }
      ghost var before := disk.saved;
      var job := StartJob(state.jobs[i], now);
      NumberIsNew(disk.receipts, disk.saved, state, i);
      ReplacedState(state, i, job, disk.saved, disk.receipts);
      state := Replace(state, i, job);
      ok := disk.Save(state);
    }

    /** The receipt is written first, then the index. Without a claim, or over an existing receipt, nothing is completed. */
    method Complete(i: nat, result: Option<Summary>, error: Option<AttemptError>, retryable: bool, now: int) returns (ok: bool)
      requires Valid() && i < |state.jobs|
      modifies this, disk
      ensures Valid() && Grows(old(disk.receipts), disk.receipts) && OnlyFor(old(state.jobs[i].closure.id), old(disk.receipts), disk.receipts)
      ensures Continues(old(disk.saved), disk.saved)
      ensures |state.jobs| == old(|state.jobs|) && state.jobs[i].closure == old(state.jobs[i].closure)
      ensures FileAt(old(disk.receipts), old(state.jobs[i])).Some? || old(state.jobs[i].active.None?) ==> !ok && state == old(state)
      ensures ok ==>
                && old(state.jobs[i].active.Some?) && disk.saved == state
                && var receipt := ReceiptFor(old(state.jobs[i]), result, error, retryable, now);
                   && state == Replace(old(state), i, CompleteJob(old(state.jobs[i]), receipt, now))
                   && disk.receipts == old(disk.receipts)[(receipt.tradeId, receipt.number) := Good(receipt)]
      ensures !ok ==> state == old(state) || state.jobs[i].active.None?
      ensures old(state.jobs[i].active.Some? && FileAt(disk.receipts, state.jobs[i]).None? && disk.Healthy()) ==> ok && disk.Healthy()
    {
      hide WellFormed, Continues, LatestOnDisk, ReceiptsWithin, Claimed, FindJob, Backoff;
      ContinuesItself(disk.saved);
      if state.jobs[i].active.None? { return false; }
      var receipt := ReceiptFor(state.jobs[i], result, error, retryable, now);
      var key := (receipt.tradeId, receipt.number);
      ghost var before := disk.receipts;
      ClaimIsWithin(state, disk.saved, i);
      ok := disk.WriteOnce(key, receipt);
      ReceiptWritten(before, disk.receipts, disk.saved, state, i, key, receipt);
      if !ok { return; }
      var job := CompleteJob(state.jobs[i], receipt, now);
      ReplacedState(state, i, job, disk.saved, disk.receipts);
      ClaimsKept(state, i, job, disk.saved);
      state := Replace(state, i, job);
      ContinuesItself(state);
      ok := disk.Save(state);
    }

    method RecoverJob(i: nat, found: Option<Summary>, now: int) returns (ok: bool)
      requires Valid() && i < |state.jobs| && state.jobs[i].active.Some?
      modifies this, disk
      ensures disk.Valid() && Grows(old(disk.receipts), disk.receipts)
      ensures OnlyFor(old(state.jobs[i].closure.id), old(disk.receipts), disk.receipts) && Continues(old(disk.saved), disk.saved)
      ensures ok ==>
                && Valid() && disk.saved == state && |state.jobs| == old(|state.jobs|)
                && state == Replace(old(state), i, state.jobs[i])
                && Recovered(old(state.jobs[i]), state.jobs[i], FileAt(old(disk.receipts), old(state.jobs[i])), found, now, old(disk.Healthy()))
      ensures old(disk.Healthy()) ==> ok && disk.Healthy()
    {
      hide WellFormed, Continues, LatestOnDisk, ReceiptsWithin, Claimed, FindJob, Backoff;
      var job := state.jobs[i];
      var key := (job.closure.id, job.active.value.number);
      ghost var saved := disk.saved;
      ContinuesItself(saved);
      if key !in disk.receipts {
        if found.Some? {
          ok := Complete(i, found, None, found.value.retry, now);
          if ok { return; }
        }
        ghost var first := disk.saved;
        ok := Complete(i, None, Some(Interrupted), true, now);
        ContinuesThrough(saved, first, disk.saved);
      } else if disk.receipts[key].Good? {
        var receipt := disk.receipts[key].receipt;
        NamesItsAttempt(disk.receipts, disk.saved, key);
        ReplacedState(state, i, AdoptJob(job, receipt, now), disk.saved, disk.receipts);
        ClaimsKept(state, i, AdoptJob(job, receipt, now), disk.saved);
        state := Replace(state, i, AdoptJob(job, receipt, now));
        ContinuesItself(state);
        ok := disk.Save(state);
      } else {
        ok := Release(i);
        if !ok { return; }
        ghost var idle := disk.saved;
        ok := RecordCorrupt(i, ReceiptCorrupt, now);
        ContinuesThrough(saved, idle, disk.saved);
      }
    }

    /** Gives up the claim of a job. */
    method Release(i: nat) returns (ok: bool)
      requires Valid() && i < |state.jobs|
      modifies this, disk
      ensures Valid() && disk.receipts == old(disk.receipts) && Continues(old(disk.saved), disk.saved)
      ensures state == Replace(old(state), i, old(state.jobs[i]).(active := None))
      ensures ok ==> disk.saved == state
      ensures old(disk.Healthy()) ==> ok && disk.Healthy()
    {
      hide WellFormed, Continues, LatestOnDisk, ReceiptsWithin, Claimed;
      var job := state.jobs[i];
      ContinuesItself(disk.saved);
      LatestIsThere(state, disk.receipts, i);
      ReplacedState(state, i, job.(active := None), disk.saved, disk.receipts);
      ClaimsKept(state, i, job.(active := None), disk.saved);
      state := Replace(state, i, job.(active := None));
      ContinuesItself(state);
      ok := disk.Save(state);
    }

    /** A new attempt records that the receipt of the one before, or its stored outcome, could not be read. */
    method RecordCorrupt(i: nat, error: AttemptError, now: int) returns (ok: bool)
      requires Valid() && i < |state.jobs| && state.jobs[i].active.None?
      modifies this, disk
      ensures disk.Valid() && Grows(old(disk.receipts), disk.receipts)
      ensures OnlyFor(old(state.jobs[i].closure.id), old(disk.receipts), disk.receipts) && Continues(old(disk.saved), disk.saved)
      ensures ok ==> Valid() && disk.saved == state && state == Replace(old(state), i, CorruptJob(old(state.jobs[i]), error, now))
      ensures old(disk.Healthy()) ==> ok && disk.Healthy()
    {
      hide WellFormed, Continues, LatestOnDisk, ReceiptsWithin, Claimed, Backoff;
      ghost var saved, job := disk.saved, state.jobs[i];
      ok := Start(i, now);
      if !ok { return; }
      StartedJob(job, now);
      assert job.(active := None) == job;
      ghost var claimed := disk.saved;
      ok := Complete(i, None, Some(error), true, now);
      ContinuesThrough(saved, claimed, disk.saved);
    }

    /** After a restart no attempt is left open, and every readable receipt has been adopted. */
    method Recover(found: (int, nat) -> Option<Summary>, now: int) returns (ok: bool)
      requires Valid()
      modifies this, disk
      ensures disk.Valid() && Grows(old(disk.receipts), disk.receipts) && Continues(old(disk.saved), disk.saved)
      ensures ok ==> Valid() && |state.jobs| == old(|state.jobs|) && forall j :: j in state.jobs ==> j.active.None?
      ensures ok ==> forall k :: 0 <= k < |state.jobs| ==>
                       Recovered(old(state.jobs[k]), state.jobs[k], FileAt(old(disk.receipts), old(state.jobs[k])),
                                 FoundFor(found, old(state.jobs[k])), now, old(disk.Healthy()))
      ensures ok && old(disk.saved == state) ==> disk.saved == state
      ensures old(disk.Healthy()) ==> ok && disk.Healthy()
    {
      hide WellFormed, Continues, LatestOnDisk, ReceiptsWithin, Claimed, Recovered, FileAt, FoundFor, OnlyFor;
      ghost var calm, jobs, files, saved := disk.Healthy(), state.jobs, disk.receipts, disk.saved;
      ContinuesItself(saved);
      var i := 0;
      while i < |state.jobs|
        invariant i <= |state.jobs| == |jobs|
        invariant Valid() && Grows(files, disk.receipts) && Continues(saved, disk.saved)
        invariant calm ==> disk.Healthy()
        invariant old(disk.saved == state) ==> disk.saved == state
        invariant forall k :: i <= k < |jobs| ==> state.jobs[k] == jobs[k] && FileAt(disk.receipts, jobs[k]) == FileAt(files, jobs[k])
        invariant forall k :: 0 <= k < i ==>
                    state.jobs[k].active.None? && Recovered(jobs[k], state.jobs[k], FileAt(files, jobs[k]), FoundFor(found, jobs[k]), now, calm)
      {
        ghost var mid, kept, before := disk.saved, disk.receipts, state.jobs;
        if state.jobs[i].active.Some? {
          ghost var calmNow := disk.Healthy();
          UniqueWhenWellFormed(state);
          var ok := RecoverJob(i, FoundFor(found, state.jobs[i]), now);
          ContinuesThrough(saved, mid, disk.saved);
          if !ok { return false; }
          OthersUntouched(before, i, kept, disk.receipts);
          assert state.jobs == before[i := state.jobs[i]];
          IdleAfterRecovery(jobs[i], state.jobs[i], FileAt(files, jobs[i]), FoundFor(found, jobs[i]), now, calmNow, calm);
        } else {
          IdleIsRecovered(jobs[i], FileAt(files, jobs[i]), FoundFor(found, jobs[i]), now, calm);
        }
        i := i + 1;
      }
      ok := true;
    }

    /** Reads the stored outcome of a finished job again. The mark of a good one is kept in memory. */
    method Recheck(i: nat, holds: bool, now: int) returns (ok: bool)
      requires Valid() && i < |state.jobs| && Finished(state.jobs[i])
      modifies this, disk
      ensures disk.Valid() && Grows(old(disk.receipts), disk.receipts) && Continues(old(disk.saved), disk.saved)
      ensures ok ==> Valid() && state == Replace(old(state), i, Rechecked(old(state.jobs[i]), holds, now))
      ensures holds ==> ok && disk.saved == old(disk.saved) && disk.receipts == old(disk.receipts)
      ensures old(disk.Healthy()) ==> ok && disk.Healthy()
    {
      hide WellFormed, Continues, LatestOnDisk, ReceiptsWithin, Claimed, CorruptJob;
      var job := state.jobs[i];
      ContinuesItself(disk.saved);
      LatestIsThere(state, disk.receipts, i);
      var stored := disk.receipts[(job.closure.id, job.latest.value.number)];
      if holds && stored == Good(job.latest.value) {
        var marked := job.(evidenceAt := Some(now));
        ReplacedState(state, i, marked, disk.saved, disk.receipts);
        ClaimsKept(state, i, marked, disk.saved);
        state := Replace(state, i, marked);
        return true;
      }
      ok := RecordCorrupt(i, EvidenceCorrupt, now);
    }

    /** Reads every stored outcome again; whatever does not verify is open again, and every other job is as it was. */
    method VerifyLatest(holds: Job -> bool, now: int) returns (ok: bool)
      requires Valid()
      modifies this, disk
      ensures disk.Valid() && Grows(old(disk.receipts), disk.receipts) && Continues(old(disk.saved), disk.saved)
      ensures ok ==> Valid() && disk.saved == state && |state.jobs| == old(|state.jobs|)
      ensures ok ==> forall k :: 0 <= k < |state.jobs| ==>
                       var j := old(state.jobs[k]); state.jobs[k] == if Finished(j) then Rechecked(j, holds(j), now) else j
      ensures old(disk.Healthy()) ==> ok && disk.Healthy()
    {
      hide WellFormed, Continues, LatestOnDisk, ReceiptsWithin, Claimed, Rechecked, Finished;
      ghost var calm, jobs, files, saved := disk.Healthy(), state.jobs, disk.receipts, disk.saved;
      ContinuesItself(saved);
      var i := 0;
      while i < |state.jobs|
        invariant i <= |state.jobs| == |jobs|
        invariant Valid() && Grows(files, disk.receipts) && Continues(saved, disk.saved)
        invariant calm ==> disk.Healthy()
        invariant forall k :: i <= k < |jobs| ==> state.jobs[k] == jobs[k]
        invariant forall k :: 0 <= k < i ==> state.jobs[k] == if Finished(jobs[k]) then Rechecked(jobs[k], holds(jobs[k]), now) else jobs[k]
      {
        ghost var mid := disk.saved;
        if Finished(state.jobs[i]) {
          ok := Recheck(i, holds(state.jobs[i]), now);
          ContinuesThrough(saved, mid, disk.saved);
          if !ok { return; }
        }
        i := i + 1;
      }
      ghost var checked := disk.saved;
      ok := SaveState();
      ContinuesThrough(saved, checked, disk.saved);
    }

    /** Writes the index as it is in memory. */
    method SaveState() returns (ok: bool)
      requires Valid()
      modifies disk
      ensures Valid() && disk.receipts == old(disk.receipts) && Continues(old(disk.saved), disk.saved)
      ensures ok ==> disk.saved == state
      ensures old(disk.Healthy()) ==> ok && disk.Healthy()
    {
      hide WellFormed, Continues, LatestOnDisk, ReceiptsWithin, Claimed;
      ContinuesItself(disk.saved);
      StateFitsItself(state, disk.saved, disk.receipts);
      ok := disk.Save(state);
    }

    /** Reads the outcome that was read longest ago. When its mark cannot be saved it is treated as one that does not verify. */
    method VerifyOldest(holds: Job -> bool, now: int) returns (ok: bool)
      requires Valid()
      modifies this, disk
      ensures disk.Valid() && Grows(old(disk.receipts), disk.receipts) && Continues(old(disk.saved), disk.saved)
      ensures ok ==> Valid()
      ensures ok ==> (state == old(state) && forall j :: j in state.jobs ==> !DueCheck(j, now))
                     || exists i: nat :: Verified(old(state), state, i, holds, now, old(disk.Healthy()))
      ensures old(disk.Healthy()) ==> ok && disk.Healthy()
    {
      hide WellFormed, Continues, LatestOnDisk, ReceiptsWithin, Claimed, CorruptJob;
      ghost var calm, saved, was := disk.Healthy(), disk.saved, state;
      ContinuesItself(saved);
      var next := NextCheck(state, now);
      if next.None? { return true; }
      var i := next.value;
      if holds(state.jobs[i]) {
        ok := Recheck(i, true, now);
        ok := SaveState();
        if ok {
          assert Verified(was, state, i, holds, now, calm);
          return;
        }
      }
      ghost var mid, marked := disk.saved, state;
      ok := RecordCorrupt(i, EvidenceCorrupt, now);
      ContinuesThrough(saved, mid, disk.saved);
      if ok {
        assert state.jobs == marked.jobs[i := state.jobs[i]];
        assert state == Replace(was, i, state.jobs[i]);
        assert Verified(was, state, i, holds, now, calm);
      }
    }

    /** Runs the next due job: its outcome, or the failure to obtain one, becomes the receipt of a new attempt. */
    method RunOne(run: Job -> Option<Summary>, now: int) returns (ran: bool, ok: bool)
      requires Valid()
      modifies this, disk
      ensures disk.Valid() && Grows(old(disk.receipts), disk.receipts) && Continues(old(disk.saved), disk.saved)
      ensures ok ==> Valid()
      ensures !ran ==> ok && state == old(state) && forall j :: j in state.jobs ==> !Due(j, now)
      ensures ran && ok ==>
                disk.saved == state && |state.jobs| == old(|state.jobs|)
                && exists i: nat ::
                     && IsNext(old(state), i, now) && state == Replace(old(state), i, state.jobs[i])
                     && Attempted(old(state.jobs[i]), state.jobs[i], run(StartJob(old(state.jobs[i]), now)), now, old(disk.Healthy()))
      ensures old(disk.Healthy()) ==> ok && disk.Healthy()
    {
      hide WellFormed, Continues, LatestOnDisk, ReceiptsWithin, Claimed, IsNext, StartJob, CompleteJob;
      UniqueWhenWellFormed(state);
      ghost var saved, first := disk.saved, state;
      ContinuesItself(saved);
      var next := NextJob(state, now);
      if next.None? { return false, true; }
      ran := true;
      var i := next.value;
      NextIsIdle(state, i, now);
      ok := Start(i, now);
      if !ok { return; }
      StartedJob(first.jobs[i], now);
      ghost var claimed := disk.saved;
      var result := run(state.jobs[i]);
      if result.Some? {
        ok := Complete(i, result, None, result.value.retry, now);
        ContinuesThrough(saved, claimed, disk.saved);
        if ok { return; }
        claimed := disk.saved;
      }
      ok := Complete(i, None, Some(RunFailed), true, now);
      ContinuesThrough(saved, claimed, disk.saved);
    }

    /** Finds or adds the job of a closed trade; a refusal changes nothing. */
    method AddJob(c: Closure, now: int, maxJobs: nat) returns (index: nat, error: Option<SourceError>)
      modifies this
      ensures match AddClosure(old(state), c, now, maxJobs)
              case Added(next, i) => state == next && index == i && error.None?
              case NotAdded(e) => state == old(state) && error == Some(e)
    {
      var known := FindJob(state.jobs, c.id);
      index, error := 0, None;
      if known.Some? {
        index := known.value;
        var prior := state.jobs[index];
        if prior.closure.positionId != c.positionId || prior.closure.closedAt != c.closedAt { return 0, Some(IdentityChanged); }
        if prior.closure.createdAt != c.createdAt {
          if prior.verified { return 0, Some(CreationChanged); }
          prior := prior.(correctedFrom := Some(prior.closure.createdAt), closure := prior.closure.(createdAt := c.createdAt));
        }
        state := Replace(state, index, prior.(verified := true));
      } else {
        if |state.jobs| >= maxJobs { return 0, Some(BudgetExceeded); }
        index := |state.jobs|;
        state := state.(jobs := state.jobs + [NewJob(c, now)]);
      }
    }

    /** Takes the rows of a page in turn. */
    method TakePage(rows: seq<Row>, asOf: int, now: int, maxJobs: nat) returns (error: Option<SourceError>)
      modifies this
      ensures (state, error) == TakeRows(old(state), rows, asOf, now, maxJobs)
    {
      hide AddClosure;
      ghost var start := state;
      var i := 0;
      while i < |rows|
        invariant i <= |rows|
        invariant TakeRows(state, rows[i..], asOf, now, maxJobs) == TakeRows(start, rows, asOf, now, maxJobs)
      {
        assert rows[i..][0] == rows[i] && rows[i..][1..] == rows[i + 1..];
        if rows[i].BadRow? { return Some(InvalidIdentity); }
        var index, refused := AddJob(rows[i].closure, now, maxJobs);
        if refused.Some? { return refused; }
        state := Seen(state, index, asOf);
        i := i + 1;
      }
      error := None;
    }

    /** One page of the scan. The outcome is saved whether the page was accepted or not. */
    method DiscoverPage(loaded: Option<Page>, now: int, maxJobs: nat) returns (ok: bool)
      requires Valid()
      modifies this, disk
      ensures Valid() && disk.receipts == old(disk.receipts) && Continues(old(disk.saved), disk.saved)
      ensures state == Discover(old(state), loaded, now, maxJobs)
           || state == Failed(Discover(old(state), loaded, now, maxJobs), IndexNotWritten)
      ensures ok ==> disk.saved == state
      ensures old(disk.Healthy()) ==> ok && disk.Healthy() && state == Discover(old(state), loaded, now, maxJobs)
    {
      hide TakeRows, CloseTo, WellFormed, Continues, LatestOnDisk, ReceiptsWithin, Claimed, OnlyMarks, UniqueIds;
      ghost var was, saved := state, disk.saved;
      UniqueWhenWellFormed(state);
      DiscoverOnlyMarks(state, loaded, now, maxJobs);
      ContinuesItself(saved);
      if loaded.None? {
        state := Failed(state, LoadFailed);
      } else if loaded.value.asOf.None? || loaded.value.total < 0 {
        state := Failed(state, InvalidInventory);
      } else if state.scanAsOf.Some? && state.scanAsOf != loaded.value.asOf {
        state := Failed(state, BoundaryChanged);
      } else {
        var page := loaded.value;
        var error := TakePage(page.rows, page.asOf.value, now, maxJobs);
        if error.Some? { state := Failed(state, error.value); }
        else { state := CloseTo(state, page.rows, page.asOf.value, page.total, page.done, now); }
      }
      assert state == Discover(was, loaded, now, maxJobs);
      MarkedStateFits(was, state, saved, disk.receipts);
      ContinuesItself(state);
      ok := disk.Save(state);
      if !ok {
        MarkedStateFits(state, Failed(state, IndexNotWritten), disk.saved, disk.receipts);
        ghost var first := disk.saved;
        state := Failed(state, IndexNotWritten);
        ContinuesItself(state);
        ok := disk.Save(state);
        ContinuesThrough(saved, first, disk.saved);
      }
    }
  }

  function FoundFor(found: (int, nat) -> Option<Summary>, j: Job): Option<Summary> {
    if j.active.None? then None else found(j.closure.id, j.active.value.number)
  }

  /** One due job was read again, and on a calm disk with the outcome that this gives; nothing else has changed. */
  ghost predicate Verified(before: State, after: State, i: nat, holds: Job -> bool, now: int, calm: bool) {
    && i < |before.jobs| == |after.jobs| && DueCheck(before.jobs[i], now)
    && after == Replace(before, i, after.jobs[i])
    && (calm ==> after.jobs[i] == Rechecked(before.jobs[i], holds(before.jobs[i]), now))
  }

  /** A run's outcome: its result, or a failure to be retried; a failing disk may turn the one into the other. */
  predicate Attempted(before: Job, after: Job, result: Option<Summary>, now: int, calm: bool) {
    var started := StartJob(before, now);
    || (result.Some? && after == FinishedJob(started, result.value, now))
    || (after == FailedJob(started, now) && !(result.Some? && calm))
  }

  lemma StartedJob(j: Job, now: int)
    ensures var s := StartJob(j, now); s.active.Some? && s.active.value.number == s.attempts && s.closure == j.closure
  {
  }

  function FailedJob(j: Job, now: int): Job
    requires j.active.Some?
  {
    CompleteJob(j, ReceiptFor(j, None, Some(RunFailed), true, now), now)
  }

  // ---------------------------------------------------------------- small facts about the index

  /** An index that discovery has only marked still fits the store. */
  lemma MarkedStateFits(s: State, t: State, saved: State, receipts: map<Key, File>)
    requires WellFormed(s) && LatestOnDisk(s, receipts) && Continues(saved, s) && Claimed(s, saved)
    requires WellFormed(saved) && ReceiptsWithin(receipts, saved)
    requires (OnlyMarks(s, t) && UniqueIds(t.jobs)) || t.jobs == s.jobs
    ensures WellFormed(t) && LatestOnDisk(t, receipts) && Continues(saved, t) && Claimed(t, saved) && ReceiptsWithin(receipts, t)
  {
    hide UniqueIds, FindJob, ReceiptsWithin, OnlyMarks, WellFormed, LatestOnDisk, Continues, Claimed;
    UniqueWhenWellFormed(s);
    SameJobs(s, t);
    MarkedJobs(s, t, receipts);
    MarkedContinues(s, t, saved);
    NumbersStayWithin(saved, t, receipts);
  }

  lemma MarkedJobs(s: State, t: State, receipts: map<Key, File>)
    requires WellFormed(s) && LatestOnDisk(s, receipts) && OnlyMarks(s, t) && UniqueIds(t.jobs)
    ensures WellFormed(t) && LatestOnDisk(t, receipts)
  {
    hide UniqueIds;
    forall j | j in t.jobs
      ensures j.active.Some? ==> j.active.value.number == j.attempts
      ensures j.latest.Some? ==> (j.closure.id, j.latest.value.number) in receipts
                                 && receipts[(j.closure.id, j.latest.value.number)] == Good(j.latest.value)
    {
      var k :| 0 <= k < |t.jobs| && t.jobs[k] == j;
      if k < |s.jobs| { assert s.jobs[k] in s.jobs; }
    }
  }

  lemma MarkedContinues(s: State, t: State, saved: State)
    requires Continues(saved, s) && Claimed(s, saved) && OnlyMarks(s, t)
    ensures Continues(saved, t) && Claimed(t, saved)
  {
  }

  lemma NumbersStayWithin(saved: State, t: State, receipts: map<Key, File>)
    requires UniqueIds(t.jobs) && Continues(saved, t) && ReceiptsWithin(receipts, saved)
    ensures ReceiptsWithin(receipts, t)
  {
    hide UniqueIds;
    forall k | k in receipts ensures FindJob(t.jobs, k.0).Some? && k.1 <= t.jobs[FindJob(t.jobs, k.0).value].attempts {
      var at := FindJob(saved.jobs, k.0).value;
      FoundAt(t.jobs, at);
    }
  }

  /** The index in memory may replace the saved one. */
  lemma StateFitsItself(s: State, saved: State, receipts: map<Key, File>)
    requires WellFormed(s) && LatestOnDisk(s, receipts) && Continues(saved, s) && WellFormed(saved) && ReceiptsWithin(receipts, saved)
    ensures ReceiptsWithin(receipts, s) && Continues(s, s) && Claimed(s, s)
  {
    NumbersStayWithin(saved, s, receipts);
  }

  lemma UniqueWhenWellFormed(s: State)
    requires WellFormed(s)
    ensures UniqueIds(s.jobs)
  {
  }

  lemma NextIsIdle(s: State, i: nat, now: int)
    requires IsNext(s, i, now)
    ensures i < |s.jobs| && s.jobs[i].active.None?
  {
  }

  lemma OthersUntouched(jobs: seq<Job>, i: nat, before: map<Key, File>, after: map<Key, File>)
    requires UniqueIds(jobs) && i < |jobs| && Grows(before, after) && OnlyFor(jobs[i].closure.id, before, after)
    ensures forall k :: 0 <= k < |jobs| && k != i ==> FileAt(after, jobs[k]) == FileAt(before, jobs[k])
  {
  }

  lemma IdleAfterRecovery(before: Job, after: Job, file: Option<File>, found: Option<Summary>, now: int, calmer: bool, calm: bool)
    requires Recovered(before, after, file, found, now, calmer) && (calm ==> calmer)
    ensures after.active.None? && Recovered(before, after, file, found, now, calm)
  {
  }

  lemma IdleIsRecovered(j: Job, file: Option<File>, found: Option<Summary>, now: int, calm: bool)
    requires j.active.None?
    ensures Recovered(j, j, file, found, now, calm)
  {
  }

  lemma {:induction false} FoundAt(jobs: seq<Job>, i: nat)
    requires UniqueIds(jobs) && i < |jobs|
    ensures FindJob(jobs, jobs[i].closure.id) == Some(i)
  {
    var found := FindJob(jobs, jobs[i].closure.id);
    if found.None? { assert false; }
  }

  /** The next number of an idle job is beyond every receipt of that job. */
  lemma NumberIsNew(receipts: map<Key, File>, saved: State, s: State, i: nat)
    requires ReceiptsWithin(receipts, saved) && Continues(saved, s) && UniqueIds(saved.jobs) && UniqueIds(s.jobs) && i < |s.jobs|
    ensures forall n: nat :: n > s.jobs[i].attempts ==> (s.jobs[i].closure.id, n) !in receipts
  {
    forall n: nat | (s.jobs[i].closure.id, n) in receipts ensures n <= s.jobs[i].attempts {
      var k := (s.jobs[i].closure.id, n);
      var at := FindJob(saved.jobs, k.0).value;
      assert s.jobs[at].closure.id == s.jobs[i].closure.id;
      assert at == i;
    }
  }

  lemma ClaimIsWithin(s: State, saved: State, i: nat)
    requires WellFormed(s) && WellFormed(saved) && Continues(saved, s) && Claimed(s, saved) && i < |s.jobs| && s.jobs[i].active.Some?
    ensures FindJob(saved.jobs, s.jobs[i].closure.id) == Some(i) && s.jobs[i].active.value.number <= saved.jobs[i].attempts
  {
    assert s.jobs[i] in s.jobs;
    FoundAt(saved.jobs, i);
  }

  lemma ContinuesItself(s: State)
    ensures Continues(s, s) && Claimed(s, s)
  {
  }

  lemma ContinuesThrough(a: State, b: State, c: State)
    ensures Continues(a, b) && Continues(b, c) ==> Continues(a, c)
  {
  }

  lemma ClaimsKept(s: State, i: nat, j: Job, saved: State)
    requires Claimed(s, saved) && i < |s.jobs| && j.active.None?
    ensures Claimed(Replace(s, i, j), saved)
  {
  }

  lemma NamesItsAttempt(receipts: map<Key, File>, saved: State, k: Key)
    requires ReceiptsWithin(receipts, saved) && k in receipts && receipts[k].Good?
    ensures receipts[k].receipt.tradeId == k.0 && receipts[k].receipt.number == k.1
  {
  }

  lemma LatestIsThere(s: State, receipts: map<Key, File>, i: nat)
    requires LatestOnDisk(s, receipts) && i < |s.jobs|
    ensures s.jobs[i].latest.Some? ==>
            var k := (s.jobs[i].closure.id, s.jobs[i].latest.value.number);
            k in receipts && receipts[k] == Good(s.jobs[i].latest.value)
  {
    assert s.jobs[i] in s.jobs;
  }

  /** A receipt of a claimed attempt fits into the store, however its writing ended. */
  lemma ReceiptWritten(before: map<Key, File>, after: map<Key, File>, saved: State, s: State, i: nat, key: Key, receipt: Receipt)
    requires ReceiptsWithin(before, saved) && LatestOnDisk(saved, before) && LatestOnDisk(s, before)
    requires Grows(before, after) && (forall k :: k in after ==> k in before || k == key)
    requires FindJob(saved.jobs, key.0) == Some(i) && key.1 <= saved.jobs[i].attempts
    requires receipt.tradeId == key.0 && receipt.number == key.1
    requires key !in before && key in after ==> after[key] == Good(receipt) || after[key].Torn?
    ensures ReceiptsWithin(after, saved) && LatestOnDisk(saved, after) && LatestOnDisk(s, after)
  {
    hide FindJob;
  }

  /** Replacing one job by a later version of itself keeps the index well formed. */
  lemma ReplacedState(s: State, i: nat, j: Job, saved: State, receipts: map<Key, File>)
    requires WellFormed(s) && Continues(saved, s) && i < |s.jobs| && LatestOnDisk(s, receipts)
    requires j.closure == s.jobs[i].closure && j.attempts >= s.jobs[i].attempts
    requires j.active.Some? ==> j.active.value.number == j.attempts
    requires j.latest.Some? ==>
               (j.closure.id, j.latest.value.number) in receipts && receipts[(j.closure.id, j.latest.value.number)] == Good(j.latest.value)
    ensures var t := Replace(s, i, j);
            && WellFormed(t) && Continues(saved, t) && Continues(s, t) && LatestOnDisk(t, receipts)
            && (ReceiptsWithin(receipts, saved) && WellFormed(saved) ==> ReceiptsWithin(receipts, t))
  {
    var t := Replace(s, i, j);
    forall g | g in t.jobs ensures g == j || g in s.jobs { }
    if ReceiptsWithin(receipts, saved) && WellFormed(saved) {
      forall k | k in receipts ensures FindJob(t.jobs, k.0).Some? && k.1 <= t.jobs[FindJob(t.jobs, k.0).value].attempts {
        var at := FindJob(saved.jobs, k.0).value;
        FoundAt(t.jobs, at);
      }
    }
  }
}
