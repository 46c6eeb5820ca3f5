/**
 * The ClawMart monitor: every run appends one ledger row for each sale it has not recorded yet,
 * rescans the receipt log and rewrites its state file.  Runs may crash between two ledger rows or
 * before the state file is written, and the state file may be lost.
 */
module ClawMartMonitor {
  import opened Common
  import ClawMart

  /** A ledger line: text or other bookkeeping, or a paid ClawMart order. */
  datatype LedgerRow = Other | PaidOrder(checkpoint: int, snapshot: nat)

  /** The orders recorded in the ledger; checkpoints that are not positive do not count. */
  function Recorded(ledger: seq<LedgerRow>): set<int> {
    set r | r in ledger && r.PaidOrder? && r.checkpoint > 0 :: r.checkpoint
  }

  method ExistingOrderCheckpoints(ledger: seq<LedgerRow>) returns (checkpoints: set<int>)
    ensures checkpoints == Recorded(ledger)
  {
    checkpoints := {};
    for i := 0 to |ledger|
      invariant checkpoints == Recorded(ledger[..i])
    {
      var row := ledger[i];
      assert ledger[..i + 1] == ledger[..i] + [row];
      if row.PaidOrder? && row.checkpoint > 0 {
        checkpoints := checkpoints + {row.checkpoint};
      }
    }
    assert ledger[..|ledger|] == ledger;
  }

  /** The rows for the orders previous+1..total that are not recorded yet, in order. */
  function NewRows(previous: nat, total: nat, known: set<int>): seq<LedgerRow>
    decreases total - previous
  {
    if total <= previous then []
    else (if previous + 1 in known then [] else [PaidOrder(previous + 1, total)]) + NewRows(previous + 1, total, known)
  }

  /** The monitor's state file. */
  datatype State = State(totalSales: nat, lastRouted: nat)

  class Monitor {
    const pool: string
    var ledger: seq<LedgerRow>
    var state: State

    constructor (pool: string)
      ensures this.pool == pool && ledger == [] && state == State(0, 0)
    {
      this.pool := pool;
      ledger, state := [], State(0, 0);
    }

    method AppendSalesLedgerRows(previous: nat, total: nat) returns (added: nat)
      modifies `ledger
      ensures ledger == old(ledger) + NewRows(previous, total, Recorded(old(ledger)))
      ensures added == |ledger| - |old(ledger)|
    {
      added := 0;
      if total <= previous { return; }
      var existing := ExistingOrderCheckpoints(ledger);
      ghost var rows := [];
      var order := previous;
      while order < total
        invariant previous <= order <= total
        invariant ledger == old(ledger) + rows && added == |rows|
        invariant rows + NewRows(order, total, existing) == NewRows(previous, total, existing)
      {
        ghost var rest := NewRows(order + 1, total, existing);
        if order + 1 !in existing {
          var row := PaidOrder(order + 1, total);
          assert rows + ([row] + rest) == rows + [row] + rest;
          ledger, rows := ledger + [row], rows + [row];
          added := added + 1;
        } else {
          assert NewRows(order, total, existing) == rest;
        }
        order := order + 1;
      }
    }

    /** A complete run on a sales reading; a failed reading leaves everything as it was. */
    method Run(reading: Option<nat>, receipts: seq<ClawMart.Row>) returns (added: nat, compliant: bool)
      modifies this
      ensures reading.None? ==> ledger == old(ledger) && state == old(state)
      ensures reading.Some? ==>
                && ledger == old(ledger) + NewRows(old(state).totalSales, reading.value, Recorded(old(ledger)))
                && state == State(reading.value, Max(old(state).lastRouted, ClawMart.Checkpoint(receipts, pool)))
                && (compliant <==> reading.value <= state.lastRouted)
      ensures added == |ledger| - |old(ledger)|
    {
      added, compliant := 0, false;
      if reading.None? { return; }
      var total := reading.value;
      if total > state.totalSales {
        added := AppendSalesLedgerRows(state.totalSales, total);
      }
      var checkpoint, _, _ := ClawMart.StakingRouteCheckpoint(receipts, pool);
      var lastRouted := Max(state.lastRouted, checkpoint);
      compliant := total <= lastRouted;
      state := State(total, lastRouted);
    }
  }

  // ----- the ledger over whole histories -----

  /** The ledger and the sales count of the state file. */
  datatype World = World(ledger: seq<LedgerRow>, previous: nat)

  datatype Event =
    | Complete(total: nat)
    | Crashed(total: nat, written: nat)  // dies with `written` of its rows in the ledger, state file not written
    | StateLost                          // the state file is gone: the count restarts from zero
    | Foreign(row: LedgerRow)            // another writer appends to the ledger

  predicate Possible(w: World, e: Event) {
    match e
    case Crashed(total, written) => written <= |NewRows(w.previous, total, Recorded(w.ledger))|
    case Foreign(row) => row.Other?
    case _ => true
  }

  function Step(w: World, e: Event): World
    requires Possible(w, e)
  {
    match e
    case Complete(total) =>
      World(w.ledger + NewRows(w.previous, total, Recorded(w.ledger)), total)
    case Crashed(total, written) =>
      World(w.ledger + NewRows(w.previous, total, Recorded(w.ledger))[..written], w.previous)
    case StateLost => w.(previous := 0)
    case Foreign(row) => w.(ledger := w.ledger + [row])
  }

  predicate PossibleRun(w: World, events: seq<Event>)
    decreases |events|
  {
    events == [] || (Possible(w, events[0]) && PossibleRun(Step(w, events[0]), events[1..]))
  }

  function Execute(w: World, events: seq<Event>): World
    requires PossibleRun(w, events)
    decreases |events|
  {
    if events == [] then w else Execute(Step(w, events[0]), events[1..])
  }

  /** How often an order appears in the ledger. */
  function Copies(ledger: seq<LedgerRow>, order: int): nat {
    if ledger == [] then 0
    else Copies(ledger[..|ledger| - 1], order)
         + if ledger[|ledger| - 1].PaidOrder? && ledger[|ledger| - 1].checkpoint == order then 1 else 0
  }

  /** The ledger holds the orders 1..n, each once, and no others. */
  ghost predicate Exactly(ledger: seq<LedgerRow>, n: nat) {
    forall order: int :: Copies(ledger, order) == if 1 <= order <= n then 1 else 0
  }

  lemma {:induction false} CopiesIn(ledger: seq<LedgerRow>, order: int)
    requires order > 0
    ensures order in Recorded(ledger) <==> Copies(ledger, order) > 0
  {
    if ledger != [] {
      var init, r := ledger[..|ledger| - 1], ledger[|ledger| - 1];
      CopiesIn(init, order);
      assert ledger == init + [r];
      assert Recorded(ledger) == Recorded(init) + Recorded([r]);
    }
  }

  lemma CopiesAppend(ledger: seq<LedgerRow>, r: LedgerRow, order: int)
    ensures Copies(ledger + [r], order)
         == Copies(ledger, order) + if r.PaidOrder? && r.checkpoint == order then 1 else 0
  {
    assert (ledger + [r])[..|ledger|] == ledger;
  }

  function Fresh(from: nat, count: nat, total: nat): seq<LedgerRow> {
    seq(count, k requires 0 <= k => PaidOrder(from + 1 + k, total))
  }

  /** When 1..n is recorded and nothing else, a run from `previous` <= n adds exactly n+1..total. */
  lemma {:induction false} NewRowsContinue(previous: nat, total: nat, known: set<int>, n: nat)
    requires forall order :: 1 <= order ==> (order in known <==> order <= n)
    requires previous <= n
    ensures NewRows(previous, total, known) == if total <= n then [] else Fresh(n, total - n, total)
    decreases total - previous
  {
    if total > previous {
      if previous + 1 <= n {
        NewRowsContinue(previous + 1, total, known, n);
      } else {
        NewRowsAfter(previous + 1, total, known, n);
        assert Fresh(n, total - n, total) == [PaidOrder(n + 1, total)] + Fresh(n + 1, total - n - 1, total);
      }
    }
  }

  lemma {:induction false} NewRowsAfter(previous: nat, total: nat, known: set<int>, n: nat)
    requires forall order :: 1 <= order ==> (order in known <==> order <= n)
    requires n < previous <= total
    ensures NewRows(previous, total, known) == Fresh(previous, total - previous, total)
    decreases total - previous
  {
    if total > previous {
      NewRowsAfter(previous + 1, total, known, n);
      assert Fresh(previous, total - previous, total)
          == [PaidOrder(previous + 1, total)] + Fresh(previous + 1, total - previous - 1, total);
    }
  }

  /** Appending any number of the rows n+1, n+2, ... keeps the ledger gap-free. */
  lemma {:induction false} FreshKeepsExactly(ledger: seq<LedgerRow>, n: nat, count: nat, total: nat)
    requires Exactly(ledger, n)
    ensures Exactly(ledger + Fresh(n, count, total), n + count)
    decreases count
  {
    if count == 0 {
      assert ledger + Fresh(n, count, total) == ledger;
    } else {
      FreshKeepsExactly(ledger, n, count - 1, total);
      var before := ledger + Fresh(n, count - 1, total);
      assert ledger + Fresh(n, count, total) == before + [PaidOrder(n + count, total)];
      var after := before + [PaidOrder(n + count, total)];
      forall order: int ensures Copies(after, order) == if 1 <= order <= n + count then 1 else 0 {
        CopiesAppend(before, PaidOrder(n + count, total), order);
        assert Copies(before, order) == if 1 <= order <= n + count - 1 then 1 else 0;
      }
    }
  }

  /** The length of the gap-free ledger after a step. */
  function HighWater(n: nat, e: Event): nat {
    match e
    case Complete(total) => Max(n, total)
    case Crashed(_, written) => n + written
    case _ => n
  }

  /** A run on a gap-free ledger owes the rows n+1..total. */
  lemma RowsOwed(w: World, n: nat, total: nat)
    requires Exactly(w.ledger, n) && w.previous <= n
    ensures NewRows(w.previous, total, Recorded(w.ledger)) == if total <= n then [] else Fresh(n, total - n, total)
  {
    forall order | 1 <= order ensures order in Recorded(w.ledger) <==> order <= n {
      CopiesIn(w.ledger, order);
      assert Copies(w.ledger, order) == if 1 <= order <= n then 1 else 0;
    }
    NewRowsContinue(w.previous, total, Recorded(w.ledger), n);
  }

  lemma StepKeepsLedger(w: World, e: Event, n: nat)
    requires Possible(w, e)
    requires Exactly(w.ledger, n) && w.previous <= n
    ensures Exactly(Step(w, e).ledger, HighWater(n, e)) && Step(w, e).previous <= HighWater(n, e)
    ensures e.Crashed? ==> HighWater(n, e) <= Max(n, e.total)
  {
    if e.Foreign? {
      forall order ensures Copies(w.ledger + [e.row], order) == Copies(w.ledger, order) {
        CopiesAppend(w.ledger, e.row, order);
      }
    } else if !e.StateLost? {
      RowsOwed(w, n, e.total);
      if e.total > n {
        var count := if e.Crashed? then e.written else e.total - n;
        assert Fresh(n, e.total - n, e.total)[..count] == Fresh(n, count, e.total);
        FreshKeepsExactly(w.ledger, n, count, e.total);
      } else {
        assert w.ledger + [] == w.ledger;
      }
    }
  }

  /** The highest reading of the runs that completed. */
  function Settled(events: seq<Event>): nat {
    if events == [] then 0
    else Max(if events[0].Complete? then events[0].total else 0, Settled(events[1..]))
  }

  function Seen(events: seq<Event>): nat {
    if events == [] then 0
    else Max(if events[0].Complete? || events[0].Crashed? then events[0].total else 0, Seen(events[1..]))
  }

  /** How many orders the ledger holds in the end, when it started with n. */
  function Length(n: nat, events: seq<Event>): nat
    decreases |events|
  {
    if events == [] then n else Length(HighWater(n, events[0]), events[1..])
  }

  /**
   * For every sequence of readings, crashes, lost state files and foreign rows, the ledger holds the
   * orders 1..n, each exactly once, where n is at least every completed reading and at most every
   * reading seen.
   */
  lemma {:induction false} LedgerIsExact(w: World, events: seq<Event>, n0: nat)
    requires PossibleRun(w, events)
    requires Exactly(w.ledger, n0) && w.previous <= n0
    ensures Exactly(Execute(w, events).ledger, Length(n0, events))
    ensures Execute(w, events).previous <= Length(n0, events)
    ensures Max(n0, Settled(events)) <= Length(n0, events) <= Max(n0, Seen(events))
    decreases |events|
  {
    if events != [] {
      StepKeepsLedger(w, events[0], n0);
      hide Exactly, Step, Possible;
      LedgerIsExact(Step(w, events[0]), events[1..], HighWater(n0, events[0]));
    }
  }

  lemma ExactlyOne(ledger: seq<LedgerRow>, a: nat, b: nat)
    requires Exactly(ledger, a) && Exactly(ledger, b)
    ensures a == b
  {
    assert Copies(ledger, a) == if 1 <= a <= b then 1 else 0;
    assert Copies(ledger, b) == if 1 <= b <= a then 1 else 0;
  }

  /** A run that read this total and got all the rows it owed into the ledger, whether or not it crashed later. */
  predicate WroteAll(w: World, e: Event, total: nat)
    requires Possible(w, e)
  {
    match e
    case Complete(t) => t == total
    case Crashed(t, written) => t == total && written == |NewRows(w.previous, t, Recorded(w.ledger))|
    case _ => false
  }

  predicate SomeRunWroteAll(w: World, events: seq<Event>, total: nat)
    requires PossibleRun(w, events)
    decreases |events|
  {
    events != [] && (WroteAll(w, events[0], total) || SomeRunWroteAll(Step(w, events[0]), events[1..], total))
  }

  /** One event brings the ledger to a total that nothing exceeds exactly when it writes all its rows. */
  lemma StepReaches(w: World, e: Event, n: nat, top: nat)
    requires Possible(w, e)
    requires Exactly(w.ledger, n) && w.previous <= n < top
    requires e.Complete? || e.Crashed? ==> e.total <= top
    ensures HighWater(n, e) <= top
    ensures HighWater(n, e) == top <==> WroteAll(w, e, top)
  {
    if e.Complete? || e.Crashed? {
      RowsOwed(w, n, e.total);
    }
  }

  lemma {:induction false} LengthReaches(w: World, events: seq<Event>, n: nat, top: nat)
    requires PossibleRun(w, events)
    requires Exactly(w.ledger, n) && w.previous <= n <= top && Seen(events) <= top
    ensures Length(n, events) == top <==> n == top || SomeRunWroteAll(w, events, top)
    decreases |events|
  {
    if events != [] {
      StepKeepsLedger(w, events[0], n);
      if n < top {
        StepReaches(w, events[0], n, top);
      }
      hide Exactly, Step, Possible, WroteAll;
      LengthReaches(Step(w, events[0]), events[1..], HighWater(n, events[0]), top);
    }
  }

  /**
   * The ledger holds exactly the orders up to the highest total ever seen if and only if it held them
   * from the start, or some run that read this total got all its rows into the ledger.
   */
  lemma LedgerCompleteExactly(w: World, events: seq<Event>, n0: nat)
    requires PossibleRun(w, events)
    requires Exactly(w.ledger, n0) && w.previous <= n0
    ensures
      var top := Max(n0, Seen(events));
      Exactly(Execute(w, events).ledger, top) <==> n0 == top || SomeRunWroteAll(w, events, top)
  {
    LedgerIsExact(w, events, n0);
    LengthReaches(w, events, n0, Max(n0, Seen(events)));
    hide Exactly;
    if Exactly(Execute(w, events).ledger, Max(n0, Seen(events))) {
      ExactlyOne(Execute(w, events).ledger, Max(n0, Seen(events)), Length(n0, events));
    }
  }

  /** It is enough that every crashed run was followed by a completed one that read at least as much. */
  lemma RerunCompletesLedger(w: World, events: seq<Event>)
    requires w == World([], 0)
    requires PossibleRun(w, events)
    requires forall i :: 0 <= i < |events| && events[i].Crashed? ==>
      exists j :: i < j < |events| && events[j].Complete? && events[i].total <= events[j].total
    ensures Exactly(Execute(w, events).ledger, Seen(events))
  {
    LedgerIsExact(w, events, 0);
    CrashesSettled(events);
  }

  lemma {:induction false} SettledAtLeast(events: seq<Event>, j: nat)
    requires j < |events| && events[j].Complete?
    ensures Settled(events) >= events[j].total
  {
    if j > 0 {
      SettledAtLeast(events[1..], j - 1);
    }
  }

  lemma {:induction false} SeenAttained(events: seq<Event>) returns (i: nat)
    requires Seen(events) > 0
    ensures i < |events| && (events[i].Complete? || events[i].Crashed?) && events[i].total == Seen(events)
  {
    if Seen(events) == Seen(events[1..]) {
      var k := SeenAttained(events[1..]);
      i := k + 1;
    } else {
      i := 0;
    }
  }

  lemma CrashesSettled(events: seq<Event>)
    requires forall i :: 0 <= i < |events| && events[i].Crashed? ==>
      exists j :: i < j < |events| && events[j].Complete? && events[i].total <= events[j].total
    ensures Settled(events) >= Seen(events)
  {
    if Seen(events) > 0 {
      var i := SeenAttained(events);
      if events[i].Complete? {
        SettledAtLeast(events, i);
      } else {
        var j :| i < j < |events| && events[j].Complete? && events[i].total <= events[j].total;
        SettledAtLeast(events, j);
      }
    }
  }

  /** A crash before the first row and then a lower reading leave the highest order out. */
  lemma CrashLeavesGap(w: World, events: seq<Event>)
    requires w == World([], 0)
    requires events == [Crashed(2, 0), Complete(1)]
    ensures PossibleRun(w, events) && Seen(events) == 2
    ensures Copies(Execute(w, events).ledger, 2) == 0
  {
    var rest := events[1..];
    assert rest == [Complete(1)] && rest[1..] == [];
    assert Seen(rest) == 1 && Length(0, rest) == 1 && Length(0, events) == 1;
    hide NewRows, Recorded;
    assert Step(w, events[0]) == w;
    assert PossibleRun(Step(w, rest[0]), []) && PossibleRun(w, rest);
    hide Execute, Length;
    LedgerIsExact(w, events, 0);
  }

  // ----- the stored checkpoint -----

  lemma {:induction false} CheckpointGrows(log: seq<ClawMart.Row>, log': seq<ClawMart.Row>, pool: string)
    requires log <= log'
    ensures ClawMart.Checkpoint(log, pool) <= ClawMart.Checkpoint(log', pool)
    decreases |log'|
  {
    if |log'| == |log| {
      assert log == log';
    } else {
      assert log <= log'[..|log'| - 1];
      CheckpointGrows(log, log'[..|log'| - 1], pool);
    }
  }

  /** The shared log, and the checkpoint in the monitor's state file. */
  datatype Shared = Shared(log: seq<ClawMart.Row>, stored: nat)

  datatype SharedEvent =
    | OnLog(e: ClawMart.LogEvent)   // the router or another writer
    | Monitored                     // a complete run of the monitor
    | StateFileLost

  function SharedStep(cfg: ClawMart.RouterConfig, s: Shared, e: SharedEvent): Shared {
    match e
    case OnLog(x) => s.(log := ClawMart.LogStep(cfg, s.log, x))
    case Monitored => s.(stored := Max(s.stored, ClawMart.Checkpoint(s.log, cfg.pool)))
    case StateFileLost => s.(stored := 0)
  }

  function SharedRun(cfg: ClawMart.RouterConfig, s: Shared, events: seq<SharedEvent>): Shared
    decreases |events|
  {
    if events == [] then s else SharedRun(cfg, SharedStep(cfg, s, events[0]), events[1..])
  }

  predicate LogEventsAllowed(cfg: ClawMart.RouterConfig, events: seq<SharedEvent>) {
    forall e <- events :: e.OnLog? ==> ClawMart.Allowed(cfg, e.e)
  }

  /** The receipts are a partition and the stored checkpoint does not exceed theirs. */
  ghost predicate InStep(cfg: ClawMart.RouterConfig, s: Shared) {
    ClawMart.ExactlyOnce(s.log, cfg.pool) && s.stored <= ClawMart.Checkpoint(s.log, cfg.pool)
  }

  lemma {:induction false} HistoryKeepsInStep(cfg: ClawMart.RouterConfig, s: Shared, events: seq<SharedEvent>)
    requires InStep(cfg, s) && LogEventsAllowed(cfg, events)
    ensures InStep(cfg, SharedRun(cfg, s, events))
    decreases |events|
  {
    hide ClawMart.ExactlyOnce, ClawMart.Checkpoint, ClawMart.LogStep, ClawMart.Allowed;
    if events != [] {
      if events[0].OnLog? {
        ClawMart.StepKeepsExactlyOnce(cfg, s.log, events[0].e);
      }
      HistoryKeepsInStep(cfg, SharedStep(cfg, s, events[0]), events[1..]);
    }
  }

  ghost predicate AllCovered(log: seq<ClawMart.Row>, pool: string, total: nat) {
    forall sale: nat :: 1 <= sale <= total ==> ClawMart.Coverage(log, pool, sale) == 1
  }

  lemma CoveredToCheckpoint(log: seq<ClawMart.Row>, pool: string, total: nat)
    requires ClawMart.ExactlyOnce(log, pool)
    ensures AllCovered(log, pool, total) <==> total <= ClawMart.Checkpoint(log, pool)
  {
    hide ClawMart.Coverage, ClawMart.Checkpoint, ClawMart.DeltaSum;
    if total > ClawMart.Checkpoint(log, pool) {
      assert ClawMart.Coverage(log, pool, total) == 0;
    }
  }

  /**
   * After every history that the monitor shares with the router, a run of the monitor stores the
   * router's checkpoint, and it finds a reading compliant if and only if a receipt covers each sale.
   */
  lemma StoredCheckpointAgrees(cfg: ClawMart.RouterConfig, s: Shared, events: seq<SharedEvent>, reading: nat)
    requires InStep(cfg, s) && LogEventsAllowed(cfg, events)
    ensures
      var s', s'' := SharedRun(cfg, s, events), SharedStep(cfg, SharedRun(cfg, s, events), Monitored);
      && s''.stored == ClawMart.Checkpoint(s'.log, cfg.pool)
      && (reading <= s''.stored <==> AllCovered(s'.log, cfg.pool, reading))
  {
    HistoryKeepsInStep(cfg, s, events);
    CoveredToCheckpoint(SharedRun(cfg, s, events).log, cfg.pool, reading);
    hide ClawMart.ExactlyOnce, ClawMart.Checkpoint, AllCovered;
  }
}
