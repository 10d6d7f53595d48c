/** The paged scan that finds closed trades: what one page does to the index, and what a finished scan guarantees. */
module AuditDiscovery {
  import opened Common
  import opened AuditJobs

  /** A row without valid dates or ids is bad. */
  datatype Row = Row(closure: Closure) | BadRow

  datatype Page = Page(asOf: Option<int>, total: int, rows: seq<Row>, done: bool)

  // ---------------------------------------------------------------- one row

  datatype Added = Added(state: State, index: nat) | NotAdded(error: SourceError)

  function NewJob(c: Closure, now: int): Job {
    Job(c, None, true, None, now, None, 0, None, None, Some(now))
  }

  /** A known trade must be the same trade; its creation time may be corrected once, before it has been verified. */
  function AddClosure(s: State, c: Closure, now: int, maxJobs: nat): (r: Added)
    ensures r.Added? ==> r.index < |r.state.jobs|
  {
    var known := FindJob(s.jobs, c.id);
    if known.Some? then
      var prior := s.jobs[known.value];
      if prior.closure.positionId != c.positionId || prior.closure.closedAt != c.closedAt then NotAdded(IdentityChanged)
      else if prior.closure.createdAt == c.createdAt then Added(Replace(s, known.value, prior.(verified := true)), known.value)
      else if prior.verified then NotAdded(CreationChanged)
      else
        Added(Replace(s, known.value, prior.(correctedFrom := Some(prior.closure.createdAt),
                                             closure := prior.closure.(createdAt := c.createdAt), verified := true)), known.value)
    else if |s.jobs| >= maxJobs then NotAdded(BudgetExceeded)
    else Added(s.(jobs := s.jobs + [NewJob(c, now)]), |s.jobs|)
  }

  /** Rows are taken until one is bad or refused; what was taken stays. */
  function TakeRows(s: State, rows: seq<Row>, asOf: int, now: int, maxJobs: nat): (State, Option<SourceError>)
    decreases |rows|
  {
    if rows == [] then (s, None)
    else if rows[0].BadRow? then (s, Some(InvalidIdentity))
    else
      match AddClosure(s, rows[0].closure, now, maxJobs)
      case NotAdded(error) => (s, Some(error))
      case Added(next, i) => TakeRows(Seen(next, i, asOf), rows[1..], asOf, now, maxJobs)
  }

  function Seen(s: State, i: nat, asOf: int): State
    requires i < |s.jobs|
  {
    Replace(s, i, s.jobs[i].(lastSeen := Some(asOf)))
  }

  // ---------------------------------------------------------------- one page

  predicate Missed(j: Job, asOf: int) {
    j.closure.createdAt <= asOf && j.closure.closedAt <= asOf && j.lastSeen != Some(asOf)
  }

  predicate AnyMissed(jobs: seq<Job>, asOf: int) {
    exists j :: j in jobs && Missed(j, asOf)
  }

  function Failed(s: State, error: SourceError): State {
    s.(sourceError := Some(error))
  }

  /** After its rows a page moves the cursor, or ends the scan once no known trade is missing. */
  function CloseTo(s: State, rows: seq<Row>, asOf: int, total: int, done: bool, now: int): State {
    var counted := s.(sourceTotal := Some(total), lastDiscoveryAt := Some(now), sourceError := None);
    if !done && (rows == [] || rows[|rows| - 1].BadRow?) then Failed(counted, CannotAdvance)
    else if !done then
      var last := rows[|rows| - 1].closure;
      counted.(cursor := Some(Position(last.createdAt, last.id)), scanAsOf := Some(asOf))
    else
      var ended := counted.(cursor := None, scanAsOf := None);
      if AnyMissed(ended.jobs, asOf) then Failed(ended, MissingFromSource) else ended.(lastCompletedAt := Some(now))
  }

  function Discover(s: State, loaded: Option<Page>, now: int, maxJobs: nat): State {
    if loaded.None? then Failed(s, LoadFailed)
    else
      var page := loaded.value;
      if page.asOf.None? || page.total < 0 then Failed(s, InvalidInventory)
      else if s.scanAsOf.Some? && s.scanAsOf != page.asOf then Failed(s, BoundaryChanged)
      else
        var (taken, error) := TakeRows(s, page.rows, page.asOf.value, now, maxJobs);
        if error.Some? then Failed(taken, error.value)
        else CloseTo(taken, page.rows, page.asOf.value, page.total, page.done, now)
  }

  // ---------------------------------------------------------------- the same jobs, only marked

  /** Discovery adds jobs and marks them; attempts, claims and receipts stay as they are. */
  predicate OnlyMarks(before: State, after: State) {
    && |before.jobs| <= |after.jobs|
    && (forall k :: 0 <= k < |before.jobs| ==> Marked(before.jobs[k], after.jobs[k]))
    && (forall k :: |before.jobs| <= k < |after.jobs| ==> Unstarted(after.jobs[k]))
  }

  predicate Marked(j: Job, m: Job) {
    && m.closure.id == j.closure.id && m.closure.closedAt == j.closure.closedAt && m.attempts == j.attempts
    && m.active == j.active && m.latest == j.latest && m.nextAt == j.nextAt
  }

  predicate Unstarted(j: Job) {
    j.attempts == 0 && j.active.None? && j.latest.None?
  }

  lemma MarkAgain(a: State, b: State, c: State)
    requires OnlyMarks(a, b) && OnlyMarks(b, c)
    ensures OnlyMarks(a, c)
  {
  }

  lemma AddOnlyMarks(s: State, c: Closure, now: int, maxJobs: nat, asOf: int)
    requires AddClosure(s, c, now, maxJobs).Added? && UniqueIds(s.jobs)
    ensures var r := AddClosure(s, c, now, maxJobs);
            var t := Seen(r.state, r.index, asOf);
            && OnlyMarks(s, t) && UniqueIds(t.jobs) && t.jobs[r.index].closure.id == c.id
            && t == s.(jobs := t.jobs)
            && (forall k :: 0 <= k < |s.jobs| && k != r.index ==> t.jobs[k] == s.jobs[k])
            && t.jobs[r.index].lastSeen == Some(asOf)
  {
  }

  lemma {:induction false} TakeOnlyMarks(s: State, rows: seq<Row>, asOf: int, now: int, maxJobs: nat)
    requires UniqueIds(s.jobs)
    ensures var (t, error) := TakeRows(s, rows, asOf, now, maxJobs);
            OnlyMarks(s, t) && UniqueIds(t.jobs) && t == s.(jobs := t.jobs)
    decreases |rows|
  {
    hide AddClosure, OnlyMarks, UniqueIds;
    MarksItself(s);
    if rows != [] && rows[0].Row? {
      var r := AddClosure(s, rows[0].closure, now, maxJobs);
      if r.Added? {
        AddOnlyMarks(s, rows[0].closure, now, maxJobs, asOf);
        var next := Seen(r.state, r.index, asOf);
        TakeOnlyMarks(next, rows[1..], asOf, now, maxJobs);
        MarkAgain(s, next, TakeRows(next, rows[1..], asOf, now, maxJobs).0);
      }
    }
  }

  lemma MarksItself(s: State)
    ensures OnlyMarks(s, s)
  {
  }

  /** Discovery never touches an attempt, whatever the page. */
  lemma DiscoverOnlyMarks(s: State, loaded: Option<Page>, now: int, maxJobs: nat)
    requires UniqueIds(s.jobs)
    ensures OnlyMarks(s, Discover(s, loaded, now, maxJobs)) && UniqueIds(Discover(s, loaded, now, maxJobs).jobs)
  {
    hide OnlyMarks, UniqueIds, TakeRows, Missed;
    MarksItself(s);
    if loaded.Some? && loaded.value.asOf.Some? { TakeOnlyMarks(s, loaded.value.rows, loaded.value.asOf.value, now, maxJobs); }
    SameJobs(s, Discover(s, loaded, now, maxJobs));
    if loaded.Some? && loaded.value.asOf.Some? {
      var taken := TakeRows(s, loaded.value.rows, loaded.value.asOf.value, now, maxJobs).0;
      SameJobs(taken, Discover(s, loaded, now, maxJobs));
      assert OnlyMarks(s, taken);
      if Discover(s, loaded, now, maxJobs).jobs == taken.jobs { MarkAgain(s, taken, Discover(s, loaded, now, maxJobs)); }
    }
  }

  lemma SameJobs(a: State, b: State)
    ensures a.jobs == b.jobs ==> OnlyMarks(a, b)
  {
  }

  // ---------------------------------------------------------------- completeness of a scan

  /** The rows of the source as of a boundary, in the order of creation time and id. */
  type Snapshot = int -> seq<Closure>

  predicate After(c: Closure, p: Position) {
    c.createdAt > p.createdAt || (c.createdAt == p.createdAt && c.id > p.id)
  }

  predicate Ordered(rows: seq<Closure>) {
    forall i, j :: 0 <= i < j < |rows| ==> After(rows[j], Position(rows[i].createdAt, rows[i].id))
  }

  function Closures(rows: seq<Row>): seq<Closure>
    requires forall r :: r in rows ==> r.Row?
  {
    if rows == [] then [] else [rows[0].closure] + Closures(rows[1..])
  }

  /** The rows of the snapshot that come after the cursor. */
  function Rest(rows: seq<Closure>, cursor: Option<Position>): seq<Closure> {
    if rows == [] then [] else (if cursor.None? || After(rows[0], cursor.value) then [rows[0]] else []) + Rest(rows[1..], cursor)
  }

  /** A page gives the next rows after the cursor; it says `done` only when none remain. Bad rows may stand in for rows. */
  predicate Honest(page: Page, rows: seq<Closure>, cursor: Option<Position>) {
    (forall r :: r in page.rows ==> r.Row?) ==>
      && Closures(page.rows) <= Rest(rows, cursor)
      && (page.done ==> Closures(page.rows) == Rest(rows, cursor))
  }

  predicate SeenAt(jobs: seq<Job>, id: int, asOf: int) {
    exists j :: j in jobs && j.closure.id == id && j.lastSeen == Some(asOf)
  }

  /** While a scan is open, every row of its snapshot up to the cursor has a job marked by this scan. */
  ghost predicate ScanHolds(s: State, snapshot: Snapshot) {
    && s.cursor.Some? == s.scanAsOf.Some?
    && (s.scanAsOf.Some? ==>
          forall c :: c in snapshot(s.scanAsOf.value) && !After(c, s.cursor.value) ==> SeenAt(s.jobs, c.id, s.scanAsOf.value))
  }

  /** Marking more rows of one scan forgets none. */
  lemma {:induction false} TakenAreSeen(s: State, rows: seq<Row>, asOf: int, now: int, maxJobs: nat)
    requires UniqueIds(s.jobs)
    ensures var (t, error) := TakeRows(s, rows, asOf, now, maxJobs);
            && (forall id :: SeenAt(s.jobs, id, asOf) ==> SeenAt(t.jobs, id, asOf))
            && (error.None? ==> (forall r :: r in rows ==> r.Row?) && forall r :: r in rows ==> SeenAt(t.jobs, r.closure.id, asOf))
    decreases |rows|
  {
    hide AddClosure, UniqueIds, OnlyMarks;
    if rows != [] && rows[0].Row? {
      var r := AddClosure(s, rows[0].closure, now, maxJobs);
      if r.Added? {
        AddOnlyMarks(s, rows[0].closure, now, maxJobs, asOf);
        var next := Seen(r.state, r.index, asOf);
        AddKeepsSeen(s, next, r.index, asOf);
        assert next.jobs[r.index] in next.jobs && SeenAt(next.jobs, rows[0].closure.id, asOf);
        TakenAreSeen(next, rows[1..], asOf, now, maxJobs);
      }
    }
  }

  lemma AddKeepsSeen(s: State, t: State, i: nat, asOf: int)
    requires OnlyMarks(s, t) && i < |t.jobs| && t.jobs[i].lastSeen == Some(asOf)
    requires forall k :: 0 <= k < |s.jobs| && k != i ==> t.jobs[k] == s.jobs[k]
    ensures forall id :: SeenAt(s.jobs, id, asOf) ==> SeenAt(t.jobs, id, asOf)
  {
    forall id | SeenAt(s.jobs, id, asOf) ensures SeenAt(t.jobs, id, asOf) {
      var j :| j in s.jobs && j.closure.id == id && j.lastSeen == Some(asOf);
      var k :| 0 <= k < |s.jobs| && s.jobs[k] == j;
      assert t.jobs[k] in t.jobs;
    }
  }

  lemma {:induction false} RestCovers(rows: seq<Closure>, cursor: Option<Position>, c: Closure)
    ensures c in Rest(rows, cursor) <==> c in rows && (cursor.None? || After(c, cursor.value))
  {
    if rows != [] { RestCovers(rows[1..], cursor, c); }
  }

  lemma {:induction false} RestOrdered(rows: seq<Closure>, cursor: Option<Position>)
    requires Ordered(rows)
    ensures Ordered(Rest(rows, cursor))
  {
    if rows != [] {
      assert Ordered(rows[1..]);
      RestOrdered(rows[1..], cursor);
      forall c | c in Rest(rows[1..], cursor) ensures After(c, Position(rows[0].createdAt, rows[0].id)) {
        RestCovers(rows[1..], cursor, c);
        var k :| 0 <= k < |rows[1..]| && rows[1..][k] == c;
        assert rows[k + 1] == c;
      }
    }
  }

  lemma {:induction false} ClosuresAt(rows: seq<Row>, i: nat)
    requires (forall r :: r in rows ==> r.Row?) && i < |rows|
    ensures |Closures(rows)| == |rows| && Closures(rows)[i] == rows[i].closure
  {
    if i > 0 { ClosuresAt(rows[1..], i - 1); }
    else if |rows| > 1 { ClosuresAt(rows[1..], 0); }
    else { assert rows[1..] == []; }
  }

  /** A row up to the last one of an honest page lies up to the old cursor or in the page itself. */
  lemma UpToPage(rows: seq<Closure>, cursor: Option<Position>, page: Page, c: Closure)
    requires Ordered(rows) && Honest(page, rows, cursor) && (forall r :: r in page.rows ==> r.Row?) && c in rows
    requires page.done
          || (page.rows != [] && var last := page.rows[|page.rows| - 1].closure; !After(c, Position(last.createdAt, last.id)))
    ensures (cursor.Some? && !After(c, cursor.value)) || Row(c) in page.rows
  {
    var own, rest := Closures(page.rows), Rest(rows, cursor);
    RestCovers(rows, cursor, c);
    if c in rest && page.rows != [] {
      RestOrdered(rows, cursor);
      var k :| 0 <= k < |rest| && rest[k] == c;
      ClosuresAt(page.rows, |page.rows| - 1);
      if k < |own| {
        ClosuresAt(page.rows, k);
        assert own[k] == rest[k];
        assert page.rows[k] in page.rows;
      } else if !page.done {
        BeyondPrefix(own, rest, k);
      }
    }
  }

  lemma BeyondPrefix(own: seq<Closure>, rest: seq<Closure>, k: nat)
    requires own <= rest && Ordered(rest) && own != [] && |own| <= k < |rest|
    ensures After(rest[k], Position(own[|own| - 1].createdAt, own[|own| - 1].id))
  {
    assert own[|own| - 1] == rest[|own| - 1];
  }

  /** A page that is refused moves neither cursor nor boundary, so the next attempt asks for the same rows. */
  lemma RefusedPageSkipsNothing(s: State, loaded: Option<Page>, now: int, maxJobs: nat)
    requires UniqueIds(s.jobs)
    ensures var t := Discover(s, loaded, now, maxJobs);
            t.sourceError.Some? && t.sourceError != Some(MissingFromSource) ==> t.cursor == s.cursor && t.scanAsOf == s.scanAsOf
  {
    hide TakeRows, AnyMissed, OnlyMarks;
    if loaded.Some? && loaded.value.asOf.Some? { TakeOnlyMarks(s, loaded.value.rows, loaded.value.asOf.value, now, maxJobs); }
  }

  /** One honest page keeps the promise of the open scan; the last one fulfils it. */
  lemma PageKeepsScan(s: State, page: Page, now: int, maxJobs: nat, snapshot: Snapshot)
    requires UniqueIds(s.jobs) && ScanHolds(s, snapshot)
    requires page.asOf.Some? ==> Ordered(snapshot(page.asOf.value)) && Honest(page, snapshot(page.asOf.value), s.cursor)
    ensures var t := Discover(s, Some(page), now, maxJobs);
            && ScanHolds(t, snapshot)
            && (page.done && t.sourceError.None? ==>
                  && page.asOf.Some?
                  && (forall c :: c in snapshot(page.asOf.value) ==> SeenAt(t.jobs, c.id, page.asOf.value))
                  && (forall j :: j in t.jobs ==> !Missed(j, page.asOf.value)))
  {
    hide TakeRows, Missed, OnlyMarks, UniqueIds, Ordered, Honest, SeenAt, After;
    var t := Discover(s, Some(page), now, maxJobs);
    if page.asOf.Some? && page.total >= 0 && (s.scanAsOf.None? || s.scanAsOf == page.asOf) {
      var asOf := page.asOf.value;
      TakeOnlyMarks(s, page.rows, asOf, now, maxJobs);
      TakenAreSeen(s, page.rows, asOf, now, maxJobs);
      var (taken, error) := TakeRows(s, page.rows, asOf, now, maxJobs);
      assert t.jobs == taken.jobs;
      if error.None? && (page.done || page.rows != []) {
        forall c | c in snapshot(asOf)
                   && (page.done || var last := page.rows[|page.rows| - 1].closure; !After(c, Position(last.createdAt, last.id)))
          ensures SeenAt(t.jobs, c.id, asOf)
        {
          UpToPage(snapshot(asOf), s.cursor, page, c);
        }
      }
    }
  }

  // ---------------------------------------------------------------- over restarts

  /** One call of discovery; `kept` is false when the process died before the new index was saved. */
  datatype Call = Call(loaded: Option<Page>, now: int, kept: bool)

  function RunScan(s: State, calls: seq<Call>, maxJobs: nat): State
    decreases |calls|
  {
    if calls == [] then s
    else RunScan(if calls[0].kept then Discover(s, calls[0].loaded, calls[0].now, maxJobs) else s, calls[1..], maxJobs)
  }

  /** Every page that was loaded was honest about the cursor it was asked for. */
  ghost predicate HonestCalls(s: State, calls: seq<Call>, maxJobs: nat, snapshot: Snapshot)
    decreases |calls|
  {
    calls != [] ==>
      && (calls[0].loaded.Some? && calls[0].loaded.value.asOf.Some? ==>
            var page := calls[0].loaded.value;
            Ordered(snapshot(page.asOf.value)) && Honest(page, snapshot(page.asOf.value), s.cursor))
      && HonestCalls(if calls[0].kept then Discover(s, calls[0].loaded, calls[0].now, maxJobs) else s, calls[1..], maxJobs, snapshot)
  }

  /** However many calls fail or are lost, the call that finishes a scan leaves a marked job for every row of its snapshot. */
  lemma {:induction false} FinishedScanIsComplete(s: State, calls: seq<Call>, maxJobs: nat, snapshot: Snapshot)
    requires UniqueIds(s.jobs) && ScanHolds(s, snapshot) && HonestCalls(s, calls, maxJobs, snapshot)
    ensures var t := RunScan(s, calls, maxJobs);
            && ScanHolds(t, snapshot) && OnlyMarks(s, t)
            && (calls != [] && Last(calls).kept && Last(calls).loaded.Some? && Last(calls).loaded.value.done && t.sourceError.None? ==>
                  var asOf := Last(calls).loaded.value.asOf;
                  && asOf.Some?
                  && (forall c :: c in snapshot(asOf.value) ==> SeenAt(t.jobs, c.id, asOf.value))
                  && (forall j :: j in t.jobs ==> !Missed(j, asOf.value)))
    decreases |calls|
  {
    hide Discover, OnlyMarks, UniqueIds, Ordered, Honest, SeenAt, Missed;
    if calls == [] {
      MarksItself(s);
    } else {
      var call := calls[0];
      var next := if call.kept then Discover(s, call.loaded, call.now, maxJobs) else s;
      MarksItself(s);
      DiscoverOnlyMarks(s, call.loaded, call.now, maxJobs);
      if call.loaded.Some? { PageKeepsScan(s, call.loaded.value, call.now, maxJobs, snapshot); }
      else { LostLoadKeepsScan(s, call.now, maxJobs, snapshot); }
      FinishedScanIsComplete(next, calls[1..], maxJobs, snapshot);
      MarkAgain(s, next, RunScan(next, calls[1..], maxJobs));
      if |calls| == 1 { assert RunScan(next, calls[1..], maxJobs) == next; } else { assert Last(calls[1..]) == Last(calls); }
    }
  }

  lemma LostLoadKeepsScan(s: State, now: int, maxJobs: nat, snapshot: Snapshot)
    requires ScanHolds(s, snapshot)
    ensures ScanHolds(Discover(s, None, now, maxJobs), snapshot)
  {
  }

  function Last(calls: seq<Call>): Call
    requires calls != []
  {
    calls[|calls| - 1]
  }
}
