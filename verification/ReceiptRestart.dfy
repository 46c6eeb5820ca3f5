/**
 * The receipt sync on a job table that loses rows.  The operator deletes old jobs, and a table without
 * rows hands out small row ids again; a cursor beyond the table makes the sync start from the top.
 */
module ReceiptRestart {
  import opened Common
  import opened ReceiptSync

  datatype TableEvent =
    | Ordinary(e: Event)
    | Prune(kept: seq<Job>)     // rows are deleted
    | Replace(jobs: seq<Job>)   // another database takes the place of the table

  ghost predicate Happens(cfg: Config, w: World, e: TableEvent)
    requires cfg.Valid()
  {
    match e
    case Ordinary(x) => Possible(cfg, w, x)
    case Prune(kept) => Table(kept) && forall job <- kept :: job in w.jobs
    case Replace(jobs) => Table(jobs)
  }

  function After(cfg: Config, w: World, e: TableEvent): World
    requires cfg.Valid() && (e.Ordinary? ==> Possible(cfg, w, e.e))
  {
    match e
    case Ordinary(x) => Step(cfg, w, x)
    case Prune(kept) => w.(jobs := kept)
    case Replace(jobs) => w.(jobs := jobs)
  }

  ghost predicate History(cfg: Config, w: World, events: seq<TableEvent>)
    requires cfg.Valid()
    decreases |events|
  {
    events == [] || (Happens(cfg, w, events[0]) && History(cfg, After(cfg, w, events[0]), events[1..]))
  }

  ghost function AfterAll(cfg: Config, w: World, events: seq<TableEvent>): World
    requires cfg.Valid() && History(cfg, w, events)
    decreases |events|
  {
    if events == [] then w else AfterAll(cfg, After(cfg, w, events[0]), events[1..])
  }

  // ----- no row is skipped -----

  /** The position at which the next run starts to read. */
  function Resume(jobs: seq<Job>, cursor: nat): (p: nat)
    ensures p <= |jobs|
  {
    Position(jobs, SafeCursor(jobs, cursor))
  }

  predicate Emitted(cfg: Config, file: seq<Receipt>, job: Job)
    requires cfg.Valid()
  {
    forall r <- Emit(cfg, job) :: r in file
  }

  /** The receipts of the rows that the next run will not read are in the file. */
  ghost predicate NothingSkipped(cfg: Config, w: World)
    requires cfg.Valid()
  {
    && Table(w.jobs)
    && forall i :: 0 <= i < Resume(w.jobs, w.store.cursor) ==> Emitted(cfg, w.store.file, w.jobs[i])
  }

  lemma {:induction false} FilterMapHolds(cfg: Config, jobs: seq<Job>, i: nat)
    requires cfg.Valid() && i < |jobs|
    ensures Emitted(cfg, FilterMap(cfg, jobs), jobs[i])
    decreases |jobs|
  {
    hide Emit;
    var init := jobs[..|jobs| - 1];
    if i < |init| {
      FilterMapHolds(cfg, init, i);
      assert init[i] == jobs[i];
    }
  }

  /** Row ids start at one, so a cursor beyond the table resumes at the first row. */
  lemma ResumeFacts(jobs: seq<Job>, cursor: nat)
    requires Table(jobs)
    ensures cursor > MaxRowId(jobs) ==> Resume(jobs, cursor) == 0
    ensures forall i :: 0 <= i < |jobs| ==>
      (i < Resume(jobs, cursor) <==> cursor <= MaxRowId(jobs) && jobs[i].rowid <= cursor)
  {
    var p := Resume(jobs, cursor);
    forall i | 0 <= i < p ensures jobs[i].rowid <= jobs[p - 1].rowid {
      assert i < p - 1 ==> jobs[i].rowid < jobs[p - 1].rowid;
    }
  }

  /** What a complete run with batch size n does, restart or not. */
  lemma SyncResumes(cfg: Config, w: World, n: nat)
    requires cfg.Valid() && Table(w.jobs) && n >= 1
    ensures
      var start, w' := Resume(w.jobs, w.store.cursor), Step(cfg, w, Sync(n));
      var end := Min(start + n, |w.jobs|);
      && Resume(w'.jobs, w'.store.cursor) == end && w'.jobs == w.jobs
      && w'.store.file == w.store.file + FilterMap(cfg, w.jobs[start..end])
  {
    var start := Resume(w.jobs, w.store.cursor);
    var end := Min(start + n, |w.jobs|);
    var rows := w.jobs[start..end];
    SameFilterMap(cfg, cfg.(maxBatch := n), rows);
    hide FilterMap, Table, Position;
    assert Batch(cfg, w, n) == rows;
    if rows != [] {
      assert rows[|rows| - 1] == w.jobs[end - 1];
      PassingTo(w.jobs, end);
    }
  }

  lemma EmittedIn(cfg: Config, a: seq<Receipt>, b: seq<Receipt>, job: Job)
    requires cfg.Valid() && (Emitted(cfg, a, job) || Emitted(cfg, b, job))
    ensures Emitted(cfg, a + b, job)
  {
    hide Emit;
  }

  lemma ReadOn(cfg: Config, file: seq<Receipt>, jobs: seq<Job>, start: nat, end: nat)
    requires cfg.Valid() && start <= end <= |jobs|
    requires forall i :: 0 <= i < start ==> Emitted(cfg, file, jobs[i])
    ensures forall i :: 0 <= i < end ==> Emitted(cfg, file + FilterMap(cfg, jobs[start..end]), jobs[i])
  {
    hide FilterMap, Emitted;
    var rows := jobs[start..end];
    forall i | 0 <= i < end ensures Emitted(cfg, file + FilterMap(cfg, rows), jobs[i]) {
      if i >= start {
        assert rows[i - start] == jobs[i];
        FilterMapHolds(cfg, rows, i - start);
      }
      EmittedIn(cfg, file, FilterMap(cfg, rows), jobs[i]);
    }
  }

  lemma SyncSkipsNothing(cfg: Config, w: World, n: nat)
    requires cfg.Valid() && NothingSkipped(cfg, w) && n >= 1
    ensures NothingSkipped(cfg, Step(cfg, w, Sync(n)))
  {
    SkippingTable(cfg, w);
    SyncResumes(cfg, w, n);
    hide Table, Resume, FilterMap, Emitted, Step, Position, SafeCursor;
    var start := Resume(w.jobs, w.store.cursor);
    ReadOn(cfg, w.store.file, w.jobs, start, Min(start + n, |w.jobs|));
    EmittedUpTo(cfg, Step(cfg, w, Sync(n)), Min(start + n, |w.jobs|));
  }

  lemma SkippingTable(cfg: Config, w: World)
    requires cfg.Valid() && NothingSkipped(cfg, w)
    ensures Table(w.jobs)
  {
  }

  lemma EmittedUpTo(cfg: Config, w: World, end: nat)
    requires cfg.Valid() && Table(w.jobs) && Resume(w.jobs, w.store.cursor) == end
    requires forall i :: 0 <= i < end ==> Emitted(cfg, w.store.file, w.jobs[i])
    ensures NothingSkipped(cfg, w)
  {
    hide Resume, Emitted, Table;
  }

  /** An event that makes a cursor beyond the table valid again. */
  predicate Revives(w: World, e: TableEvent) {
    match e
    case Ordinary(Insert(job)) => MaxRowId(w.jobs) < w.store.cursor <= job.rowid
    case _ => false
  }

  /** Every row at or below the cursor has its receipt. */
  ghost predicate EmittedBelow(cfg: Config, file: seq<Receipt>, jobs: seq<Job>, cursor: nat)
    requires cfg.Valid()
  {
    forall x <- jobs :: x.rowid <= cursor ==> Emitted(cfg, file, x)
  }

  lemma SkippedMeaning(cfg: Config, w: World)
    requires cfg.Valid() && Table(w.jobs)
    ensures NothingSkipped(cfg, w) <==>
      (w.store.cursor <= MaxRowId(w.jobs) ==> EmittedBelow(cfg, w.store.file, w.jobs, w.store.cursor))
  {
    ResumeFacts(w.jobs, w.store.cursor);
    hide Resume, Table, Emitted;
    if NothingSkipped(cfg, w) && w.store.cursor <= MaxRowId(w.jobs) {
      forall x | x in w.jobs && x.rowid <= w.store.cursor ensures Emitted(cfg, w.store.file, x) {
        var i :| 0 <= i < |w.jobs| && w.jobs[i] == x;
      }
    }
  }

  /** A new row leaves nothing skipped unless it revives the cursor above rows that were not emitted. */
  lemma InsertExactly(cfg: Config, w: World, job: Job)
    requires cfg.Valid() && NothingSkipped(cfg, w) && job.rowid > MaxRowId(w.jobs)
    ensures
      var w' := Step(cfg, w, Insert(job));
      NothingSkipped(cfg, w') <==>
        (Revives(w, Ordinary(Insert(job))) ==> EmittedBelow(cfg, w.store.file, w'.jobs, w.store.cursor))
  {
    SkippingTable(cfg, w);
    InsertKeepsTable(w.jobs, job);
    SkippedMeaning(cfg, w);
    SkippedMeaning(cfg, w.(jobs := w.jobs + [job]));
    hide Table, Emitted, NothingSkipped, EmittedBelow;
    if w.store.cursor <= MaxRowId(w.jobs) {
      BelowNewRow(cfg, w.store.file, w.jobs, job, w.store.cursor);
    }
  }

  lemma BelowNewRow(cfg: Config, file: seq<Receipt>, jobs: seq<Job>, job: Job, cursor: nat)
    requires cfg.Valid() && EmittedBelow(cfg, file, jobs, cursor) && cursor < job.rowid
    ensures EmittedBelow(cfg, file, jobs + [job], cursor)
  {
    hide Emitted;
  }

  lemma PruneSkipsNothing(cfg: Config, w: World, kept: seq<Job>)
    requires cfg.Valid() && NothingSkipped(cfg, w) && Happens(cfg, w, Prune(kept))
    ensures NothingSkipped(cfg, w.(jobs := kept))
  {
    ResumeFacts(w.jobs, w.store.cursor);
    ResumeFacts(kept, w.store.cursor);
    hide Resume, Emitted;
    forall i | 0 <= i < Resume(kept, w.store.cursor) ensures Emitted(cfg, w.store.file, kept[i]) {
      assert kept[i] in w.jobs;
      var k :| 0 <= k < |w.jobs| && w.jobs[k] == kept[i];
      assert w.jobs[k].rowid <= w.store.cursor <= MaxRowId(kept);
      MaxIsUpper(w, kept);
    }
  }

  lemma MaxIsUpper(w: World, kept: seq<Job>)
    requires Table(w.jobs) && Table(kept) && forall job <- kept :: job in w.jobs
    ensures MaxRowId(kept) <= MaxRowId(w.jobs)
  {
    if kept != [] {
      var last := kept[|kept| - 1];
      assert last in w.jobs;
      var k :| 0 <= k < |w.jobs| && w.jobs[k] == last;
      assert k < |w.jobs| - 1 ==> w.jobs[k].rowid < w.jobs[|w.jobs| - 1].rowid;
    }
  }

  /** A database of rows never seen is read from its first row exactly when its ids avoid the cursor. */
  predicate ReadFromTop(jobs: seq<Job>, cursor: nat) {
    jobs == [] || cursor > MaxRowId(jobs) || cursor < jobs[0].rowid
  }

  lemma ReplaceExactly(jobs: seq<Job>, cursor: nat)
    requires Table(jobs)
    ensures Resume(jobs, cursor) == 0 <==> ReadFromTop(jobs, cursor)
  {
    ResumeFacts(jobs, cursor);
    hide Resume;
  }

  /** Inserts that do not revive the cursor, and databases that are read from the top. */
  predicate Gentle(w: World, e: TableEvent) {
    !Revives(w, e) && (e.Replace? ==> ReadFromTop(e.jobs, w.store.cursor))
  }

  lemma EventSkipsNothing(cfg: Config, w: World, e: TableEvent)
    requires cfg.Valid() && NothingSkipped(cfg, w) && Happens(cfg, w, e) && Gentle(w, e)
    ensures NothingSkipped(cfg, After(cfg, w, e))
  {
    hide Resume, Emitted, Table;
    match e
    case Prune(kept) => PruneSkipsNothing(cfg, w, kept);
    case Replace(jobs) => ReplaceExactly(jobs, w.store.cursor);
    case Ordinary(x) =>
      match x
      case Insert(job) => InsertExactly(cfg, w, job);
      case Sync(n) => SyncSkipsNothing(cfg, w, n);
      case Interrupted(n, read) => LongerFile(cfg, w, Step(cfg, w, x));
  }

  lemma LongerFile(cfg: Config, w: World, w': World)
    requires cfg.Valid() && NothingSkipped(cfg, w)
    requires w'.jobs == w.jobs && w'.store.cursor == w.store.cursor && w.store.file <= w'.store.file
    ensures NothingSkipped(cfg, w')
  {
    hide Resume, Table, Emit;
    forall i | 0 <= i < Resume(w.jobs, w.store.cursor) ensures Emitted(cfg, w'.store.file, w.jobs[i]) {
      assert Emitted(cfg, w.store.file, w.jobs[i]);
    }
  }

  ghost predicate AllGentle(cfg: Config, w: World, events: seq<TableEvent>)
    requires cfg.Valid() && History(cfg, w, events)
    decreases |events|
  {
    events == [] || (Gentle(w, events[0]) && AllGentle(cfg, After(cfg, w, events[0]), events[1..]))
  }

  lemma {:induction false} HistorySkipsNothing(cfg: Config, w: World, events: seq<TableEvent>)
    requires cfg.Valid() && NothingSkipped(cfg, w)
    requires History(cfg, w, events) && AllGentle(cfg, w, events)
    ensures NothingSkipped(cfg, AfterAll(cfg, w, events))
    decreases |events|
  {
    hide NothingSkipped, Step, Possible, Gentle, Table;
    if events != [] {
      EventSkipsNothing(cfg, w, events[0]);
      HistorySkipsNothing(cfg, After(cfg, w, events[0]), events[1..]);
    }
  }

  // ----- catching up -----

  lemma {:induction false} RunsPass(cfg: Config, w: World, runs: nat)
    requires cfg.Valid() && NothingSkipped(cfg, w)
    requires runs >= RunsNeeded(|w.jobs| - Resume(w.jobs, w.store.cursor), cfg.maxBatch)
    ensures
      var w' := SyncTimes(cfg, w, runs);
      NothingSkipped(cfg, w') && w'.jobs == w.jobs && Resume(w'.jobs, w'.store.cursor) == |w.jobs|
    decreases runs
  {
    hide NothingSkipped, Resume, Step;
    if runs > 0 {
      SkippingTable(cfg, w);
      SyncResumes(cfg, w, cfg.maxBatch);
      SyncSkipsNothing(cfg, w, cfg.maxBatch);
      RunsPass(cfg, Step(cfg, w, Sync(cfg.maxBatch)), runs - 1);
    }
  }

  /**
   * Whatever rows were deleted or databases replaced before, with gentle events only the receipt of
   * every row of the table is in the file after as many runs as its rows need.
   */
  lemma EveryRowEmitted(cfg: Config, w: World, events: seq<TableEvent>, runs: nat, job: Job)
    requires cfg.Valid() && NothingSkipped(cfg, w)
    requires History(cfg, w, events) && AllGentle(cfg, w, events)
    requires
      var w1 := AfterAll(cfg, w, events);
      runs >= RunsNeeded(|w1.jobs| - Resume(w1.jobs, w1.store.cursor), cfg.maxBatch) && job in w1.jobs
    ensures Emitted(cfg, SyncTimes(cfg, AfterAll(cfg, w, events), runs).store.file, job)
  {
    HistorySkipsNothing(cfg, w, events);
    var w1 := AfterAll(cfg, w, events);
    RunsPass(cfg, w1, runs);
    hide History, AllGentle, AfterAll, SyncTimes, Resume, Emitted, Table;
    var w2 := SyncTimes(cfg, w1, runs);
    var i :| 0 <= i < |w1.jobs| && w1.jobs[i] == job;
    assert w2.jobs[i] == job;
  }

  // ----- rows that are never read -----

  /** Once the cursor lies within the table, no run reads a row at or below it, whatever is inserted. */
  lemma {:induction false} BelowTheCursor(cfg: Config, w: World, events: seq<Event>)
    requires cfg.Valid() && Consistent(w) && PossibleRun(cfg, w, events)
    requires forall e <- events :: !e.Interrupted?
    ensures
      var w' := Execute(cfg, w, events);
      var p, p' := |Passed(w)|, |Passed(w')|;
      && Consistent(w') && w.jobs <= w'.jobs && p <= p'
      && w'.store.file == w.store.file + FilterMap(cfg, w'.jobs[p..p'])
    decreases |events|
  {
    if events == [] {
      assert w.jobs[|Passed(w)|..|Passed(w)|] == [];
    } else {
      var w1 := Step(cfg, w, events[0]);
      FirstEvent(cfg, w, events[0]);
      hide Step, Possible, Passed, Consistent, FilterMap;
      BelowTheCursor(cfg, w1, events[1..]);
      var w' := Execute(cfg, w, events);
      hide Execute, PossibleRun;
      JoinRanges(cfg, w.store.file, w1.jobs, w'.jobs, |Passed(w)|, |Passed(w1)|, |Passed(w')|);
    }
  }

  lemma FirstEvent(cfg: Config, w: World, e: Event)
    requires cfg.Valid() && Consistent(w) && Possible(cfg, w, e) && !e.Interrupted?
    ensures
      var w' := Step(cfg, w, e);
      var p, p' := |Passed(w)|, |Passed(w')|;
      && Consistent(w') && w.jobs <= w'.jobs && p <= p' <= |w'.jobs|
      && w'.store.file == w.store.file + FilterMap(cfg, w'.jobs[p..p'])
  {
    match e
    case Insert(job) => InsertKeepsPassed(w, job);
    case Sync(n) =>
      hide FilterMap;
      BatchFollows(cfg, w, n);
      SyncPasses(cfg, w, n);
  }

  lemma Ranges(jobs: seq<Job>, jobs': seq<Job>, a: nat, b: nat, c: nat)
    requires jobs <= jobs' && a <= b <= |jobs| && b <= c <= |jobs'|
    ensures jobs[a..b] + jobs'[b..c] == jobs'[a..c]
  {
    assert jobs[a..b] == jobs'[a..b];
  }

  lemma JoinRanges(cfg: Config, file: seq<Receipt>, jobs: seq<Job>, jobs': seq<Job>, a: nat, b: nat, c: nat)
    requires cfg.Valid() && jobs <= jobs' && a <= b <= |jobs| && b <= c <= |jobs'|
    ensures file + FilterMap(cfg, jobs[a..b]) + FilterMap(cfg, jobs'[b..c]) == file + FilterMap(cfg, jobs'[a..c])
  {
    hide *;
    Ranges(jobs, jobs', a, b, c);
    FilterMapAppend(cfg, jobs[a..b], jobs'[b..c]);
    Reassociate(file, FilterMap(cfg, jobs[a..b]), FilterMap(cfg, jobs'[b..c]));
  }

  /** Rows are deleted and the ids reach the cursor again before the next run: the new row is revived. */
  lemma RevivedCursor(cfg: Config, w: World, job: Job)
    requires cfg.Valid() && Consistent(w) && w.store.cursor == job.rowid > 0
    ensures
      var w0, w1 := w.(jobs := []), w.(jobs := [job]);
      && Happens(cfg, w, Prune([])) && After(cfg, w, Prune([])) == w0
      && Happens(cfg, w0, Ordinary(Insert(job))) && After(cfg, w0, Ordinary(Insert(job))) == w1
      && Revives(w0, Ordinary(Insert(job))) && Consistent(w1) && |Passed(w1)| == 1
  {
    OneRow(job);
    hide Position, Emit, FilterMap;
    assert [] + [job] == [job];
    assert Table([]);
  }

  lemma OneRow(job: Job)
    requires job.rowid > 0
    ensures Table([job]) && MaxRowId([job]) == job.rowid && Position([job], job.rowid) == 1
  {
    PositionUnique([job], job.rowid, 1);
  }

  /** No later run reads that row: the file grows by the receipts of rows behind it only. */
  lemma RevivedCursorLosesRow(cfg: Config, w: World, job: Job, events: seq<Event>)
    requires cfg.Valid() && Consistent(w) && w.store.cursor == job.rowid > 0
    requires PossibleRun(cfg, w.(jobs := [job]), events) && forall e <- events :: !e.Interrupted?
    ensures
      var w' := Execute(cfg, w.(jobs := [job]), events);
      && 1 <= |Passed(w')| && w'.jobs[0] == job
      && w'.store.file == w.store.file + FilterMap(cfg, w'.jobs[1..|Passed(w')|])
  {
    RevivedCursor(cfg, w, job);
    hide Passed, PossibleRun, Execute, FilterMap, Consistent;
    BelowTheCursor(cfg, w.(jobs := [job]), events);
  }
}
