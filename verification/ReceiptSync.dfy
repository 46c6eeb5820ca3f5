/**
 * Receipt sync: a cursor-driven copy of finished jobs from an append-only table to an append-only
 * receipt file.  A run may stop with an error, or crash, after part of its rows were written.
 */
module ReceiptSync {
  import opened Common

  /** A job row.  A missing execution time is stamped by the sync itself and is not kept here. */
  datatype Job = Job(rowid: nat, id: string, status: string, paymentUsd: real, revenueSol: real, revenueUsd: real,
                     executedAt: Option<string>)

  /** The units of the eighth decimal place. */
  type Units = int

  datatype Receipt = Receipt(id: string, success: bool, executedAt: Option<string>,
                             profitSol: Units, revenueSol: Units, revenueUsd: Units, costSol: Units, feeSol: Units,
                             paymentSol: Units, paymentUsd: Units)

  /** MAX_BATCH is at least one, the price positive and the fee not negative. */
  datatype Config = Config(maxBatch: nat, solPriceUsd: real, feeSol: real) {
    predicate Valid() {
      maxBatch >= 1 && solPriceUsd > 0.0 && feeSol >= 0.0
    }
  }

  /** round(x, 8): the nearest multiple, and of two equally near ones the even one. */
  function Round8(x: real): Units {
    var n := (100000000.0 * x).Floor;
    var rest := 100000000.0 * x - n as real;
    if rest < 0.5 || (rest == 0.5 && n % 2 == 0) then n else n + 1
  }

  /** The payment in SOL; only positive amounts are converted. */
  function PaymentSol(cfg: Config, job: Job): real
    requires cfg.Valid()
  {
    if job.paymentUsd > 0.0 then job.paymentUsd / cfg.solPriceUsd else 0.0
  }

  /** Only executed and failed jobs give a receipt; statuses are compared trimmed and in lower case. */
  function NormalizeReceipt(cfg: Config, job: Job): (r: Option<Receipt>)
    requires cfg.Valid()
  {
    if job.status != "executed" && job.status != "failed" then None
    else
      var paymentSol := PaymentSol(cfg, job);
      var cost := cfg.feeSol + paymentSol;
      Some(Receipt(job.id, job.status == "executed", job.executedAt, Round8(job.revenueSol - cost),
                   Round8(job.revenueSol), Round8(job.revenueUsd), Round8(cost), Round8(cfg.feeSol),
                   Round8(paymentSol), Round8(job.paymentUsd)))
  }

  predicate Near(a: real, b: real, tolerance: real) {
    -tolerance <= a - b <= tolerance
  }

  /** Half a unit off at most, and to the even side when it is half a unit. */
  lemma RoundFacts(x: real)
    ensures Near(Round8(x) as real, 100000000.0 * x, 0.5)
    ensures Round8(x) as real - 100000000.0 * x in {-0.5, 0.5} ==> Round8(x) % 2 == 0
  {
  }

  lemma RoundGrows(a: real, b: real)
    requires a <= b
    ensures Round8(a) <= Round8(b)
  {
  }

  lemma RoundZero()
    ensures Round8(0.0) == 0
  {
  }

  /** Rounded parts of a rounded sum miss it by at most one unit. */
  lemma SumOfRounded(a: real, b: real)
    ensures -1 <= Round8(a) + Round8(b) - Round8(a + b) <= 1
  {
    RoundFacts(a);
    RoundFacts(b);
    RoundFacts(a + b);
    hide Round8;
  }

  /** A product, kept apart from the sums around it. */
  function Times(a: real, b: real): real {
    a * b
  }

  lemma Distributes(u: real, share: real, price: real)
    ensures Times(u - 100000000.0 * share, price) == Times(u, price) - 100000000.0 * Times(share, price)
  {
  }

  lemma ScaleBounds(d: real, price: real)
    requires price > 0.0 && -0.5 <= d <= 0.5
    ensures -(price / 2.0) <= Times(d, price) <= price / 2.0
  {
    NotNegative(0.5 - d, price);
    NotNegative(0.5 + d, price);
    assert (0.5 - d) * price == 0.5 * price - d * price && (0.5 + d) * price == 0.5 * price + d * price;
  }

  lemma NotNegative(a: real, b: real)
    requires a >= 0.0 && b >= 0.0
    ensures a * b >= 0.0
  {
  }

  lemma Scaled(u: real, share: real, price: real, usd: real)
    requires price > 0.0 && Times(share, price) == usd && Near(u, 100000000.0 * share, 0.5)
    ensures Near(Times(u, price), 100000000.0 * usd, price / 2.0)
  {
    hide Times;
    ScaleBounds(u - 100000000.0 * share, price);
    Distributes(u, share, price);
  }

  lemma Quotient(usd: real, price: real)
    requires price > 0.0
    ensures Times(usd / price, price) == usd
    ensures usd > 0.0 ==> usd / price >= 0.0
  {
  }

  /** The payment on the receipt times the price is the payment in dollars, to within half a unit at that price. */
  lemma PaymentAccounts(cfg: Config, job: Job)
    requires cfg.Valid()
    ensures PaymentSol(cfg, job) >= 0.0
    ensures job.paymentUsd > 0.0 ==>
      Near(Round8(PaymentSol(cfg, job)) as real * cfg.solPriceUsd, 100000000.0 * job.paymentUsd, cfg.solPriceUsd / 2.0)
    ensures job.paymentUsd <= 0.0 ==> Round8(PaymentSol(cfg, job)) == 0
  {
    if job.paymentUsd > 0.0 {
      var share := job.paymentUsd / cfg.solPriceUsd;
      Quotient(job.paymentUsd, cfg.solPriceUsd);
      RoundFacts(share);
      hide Round8, Near;
      assert Round8(share) as real * cfg.solPriceUsd == Times(Round8(share) as real, cfg.solPriceUsd);
      hide Times;
      Scaled(Round8(share) as real, share, cfg.solPriceUsd, job.paymentUsd);
    } else {
      RoundZero();
    }
  }

  lemma CostAccounts(revenue: real, fee: real, payment: real)
    requires fee >= 0.0 && payment >= 0.0
    ensures -1 <= Round8(fee) + Round8(payment) - Round8(fee + payment) <= 1
    ensures -1 <= Round8(revenue - (fee + payment)) + Round8(fee + payment) - Round8(revenue) <= 1
    ensures Round8(fee + payment) >= Round8(fee) >= 0 && Round8(payment) >= 0
  {
    hide Round8;
    SumOfRounded(fee, payment);
    SumOfRounded(revenue - (fee + payment), fee + payment);
    assert revenue - (fee + payment) + (fee + payment) == revenue;
    RoundGrows(fee, fee + payment);
    RoundGrows(0.0, fee);
    RoundGrows(0.0, payment);
    RoundZero();
  }

  /**
   * Exactly finished jobs give a receipt.  Each amount on it is rounded on its own, so cost and profit
   * add up to the revenue, and fee and payment to the cost, to within one unit of the eighth place.
   */
  lemma ReceiptAccounts(cfg: Config, job: Job)
    requires cfg.Valid()
    ensures
      var r := NormalizeReceipt(cfg, job);
      && (r.Some? <==> job.status in {"executed", "failed"})
      && (r.Some? ==>
            && (r.value.success <==> job.status == "executed")
            && r.value.id == job.id && r.value.executedAt == job.executedAt
            && r.value.revenueSol == Round8(job.revenueSol) && r.value.revenueUsd == Round8(job.revenueUsd)
            && r.value.paymentUsd == Round8(job.paymentUsd) && r.value.feeSol == Round8(cfg.feeSol)
            && -1 <= r.value.feeSol + r.value.paymentSol - r.value.costSol <= 1
            && -1 <= r.value.profitSol + r.value.costSol - r.value.revenueSol <= 1
            && r.value.costSol >= r.value.feeSol >= 0 && r.value.paymentSol >= 0)
  {
    ReceiptFields(cfg, job);
    PaymentAccounts(cfg, job);
    hide *;
    CostAccounts(job.revenueSol, cfg.feeSol, PaymentSol(cfg, job));
  }

  /**
   * The payment on a receipt times the price is the payment of the job in dollars, to within half a unit
   * at that price, and the fee the configured one; without a positive payment there is none.
   */
  lemma ReceiptPayment(cfg: Config, job: Job)
    requires cfg.Valid() && NormalizeReceipt(cfg, job).Some?
    ensures
      var r := NormalizeReceipt(cfg, job).value;
      && Near(r.feeSol as real, 100000000.0 * cfg.feeSol, 0.5)
      && (job.paymentUsd > 0.0 ==>
            Near(r.paymentSol as real * cfg.solPriceUsd, 100000000.0 * job.paymentUsd, cfg.solPriceUsd / 2.0))
      && (job.paymentUsd <= 0.0 ==> r.paymentSol == 0)
  {
    ReceiptFields(cfg, job);
    PaymentAccounts(cfg, job);
    RoundFacts(cfg.feeSol);
    hide *;
  }

  lemma ReceiptFields(cfg: Config, job: Job)
    requires cfg.Valid()
    ensures
      var r, payment := NormalizeReceipt(cfg, job), PaymentSol(cfg, job);
      && (r.Some? <==> job.status in {"executed", "failed"})
      && (r.Some? ==>
            && r.value.id == job.id && r.value.executedAt == job.executedAt
            && (r.value.success <==> job.status == "executed")
            && r.value.revenueSol == Round8(job.revenueSol) && r.value.revenueUsd == Round8(job.revenueUsd)
            && r.value.paymentUsd == Round8(job.paymentUsd) && r.value.feeSol == Round8(cfg.feeSol)
            && r.value.paymentSol == Round8(payment) && r.value.costSol == Round8(cfg.feeSol + payment)
            && r.value.profitSol == Round8(job.revenueSol - (cfg.feeSol + payment)))
  {
    hide Round8, PaymentSol;
  }

  /** What a job contributes to the receipt file. */
  function Emit(cfg: Config, job: Job): seq<Receipt>
    requires cfg.Valid()
  {
    var r := NormalizeReceipt(cfg, job);
    if r.Some? then [r.value] else []
  }

  /** The declarative form: the receipts of all finished jobs, in row order. */
  function FilterMap(cfg: Config, jobs: seq<Job>): seq<Receipt>
    requires cfg.Valid()
  {
    if jobs == [] then [] else FilterMap(cfg, jobs[..|jobs| - 1]) + Emit(cfg, jobs[|jobs| - 1])
  }

  /** Row ids are positive and grow down the table; the table need not be dense. */
  ghost predicate Table(jobs: seq<Job>) {
    && (forall i :: 0 <= i < |jobs| ==> jobs[i].rowid > 0)
    && (forall i, j :: 0 <= i < j < |jobs| ==> jobs[i].rowid < jobs[j].rowid)
  }

  function MaxRowId(jobs: seq<Job>): nat {
    if jobs == [] then 0 else jobs[|jobs| - 1].rowid
  }

  /** The number of rows at or before a cursor: where the next batch starts. */
  function Position(jobs: seq<Job>, cursor: nat): (p: nat)
    ensures p <= |jobs|
    ensures p > 0 ==> jobs[p - 1].rowid <= cursor
    ensures forall i :: p <= i < |jobs| ==> jobs[i].rowid > cursor
  {
    if jobs == [] then 0
    else if jobs[|jobs| - 1].rowid <= cursor then |jobs|
    else Position(jobs[..|jobs| - 1], cursor)
  }

  /** A cursor beyond the table, as after a replaced database, restarts from the top. */
  function SafeCursor(jobs: seq<Job>, cursor: nat): nat {
    if cursor <= MaxRowId(jobs) then cursor else 0
  }

  function ReadRows(cfg: Config, jobs: seq<Job>, cursor: nat): seq<Job> {
    var start := Position(jobs, SafeCursor(jobs, cursor));
    jobs[start..Min(start + cfg.maxBatch, |jobs|)]
  }

  datatype Store = Store(cursor: nat, synced: nat, file: seq<Receipt>)

  function CursorAfter(cursor: nat, rows: seq<Job>): nat {
    if rows == [] then cursor else rows[|rows| - 1].rowid
  }

  /** A complete run on the current table. */
  function RunSpec(cfg: Config, jobs: seq<Job>, s: Store): Store
    requires cfg.Valid()
  {
    var rows := ReadRows(cfg, jobs, s.cursor);
    Store(CursorAfter(s.cursor, rows), s.synced + |FilterMap(cfg, rows)|, s.file + FilterMap(cfg, rows))
  }

  class Syncer {
    const cfg: Config
    var cursor: nat
    var synced: nat
    var file: seq<Receipt>

    constructor (cfg: Config)
      ensures this.cfg == cfg && Contents() == Store(0, 0, [])
    {
      this.cfg := cfg;
      cursor, synced, file := 0, 0, [];
    }

    function Contents(): Store
      reads this
    {
      Store(cursor, synced, file)
    }

    method Run(jobs: seq<Job>) returns (appended: nat)
      requires cfg.Valid()
      modifies this
      ensures Contents() == RunSpec(cfg, jobs, old(Contents()))
      ensures appended == |file| - |old(file)|
    {
      var rows := ReadRows(cfg, jobs, cursor);
      NoRows(cfg, cursor, rows);
      hide NormalizeReceipt, FilterMap, CursorAfter, ReadRows;
      appended := 0;
      var newCursor := cursor;
      for i := 0 to |rows|
        invariant newCursor == CursorAfter(cursor, rows[..i])
        invariant file == old(file) + FilterMap(cfg, rows[..i])
        invariant appended == |FilterMap(cfg, rows[..i])|
        invariant cursor == old(cursor) && synced == old(synced)
      {
        NextRow(cfg, cursor, rows, i);
        newCursor := rows[i].rowid;
        var receipt := NormalizeReceipt(cfg, rows[i]);
        if receipt.None? { continue; }
        file := file + [receipt.value];
        appended := appended + 1;
      }
      assert rows[..|rows|] == rows;
      cursor, synced := newCursor, synced + appended;
    }
  }

  lemma NoRows(cfg: Config, cursor: nat, rows: seq<Job>)
    requires cfg.Valid()
    ensures FilterMap(cfg, rows[..0]) == [] && CursorAfter(cursor, rows[..0]) == cursor
  {
  }

  lemma NextRow(cfg: Config, cursor: nat, rows: seq<Job>, i: nat)
    requires cfg.Valid() && i < |rows|
    ensures CursorAfter(cursor, rows[..i + 1]) == rows[i].rowid
    ensures FilterMap(cfg, rows[..i + 1])
         == if NormalizeReceipt(cfg, rows[i]).Some?
            then FilterMap(cfg, rows[..i]) + [NormalizeReceipt(cfg, rows[i]).value]
            else FilterMap(cfg, rows[..i])
  {
    hide NormalizeReceipt;
    assert rows[..i + 1] == rows[..i] + [rows[i]];
    FilterMapSnoc(cfg, rows[..i], rows[i]);
  }

  // ----- histories -----

  datatype World = World(jobs: seq<Job>, store: Store)

  datatype Event =
    | Insert(job: Job)
    | Sync(batch: nat)                    // a complete run with any batch size
    | Interrupted(batch: nat, read: nat)  // `read` rows were handled, the cursor was not advanced

  function Batch(cfg: Config, w: World, n: nat): seq<Job> {
    ReadRows(cfg.(maxBatch := n), w.jobs, w.store.cursor)
  }

  predicate Possible(cfg: Config, w: World, e: Event) {
    match e
    case Insert(job) => job.rowid > MaxRowId(w.jobs)
    case Sync(n) => n >= 1
    case Interrupted(n, read) => n >= 1 && read <= |Batch(cfg, w, n)|
  }

  function Step(cfg: Config, w: World, e: Event): World
    requires cfg.Valid() && Possible(cfg, w, e)
  {
    match e
    case Insert(job) => w.(jobs := w.jobs + [job])
    case Sync(n) => w.(store := RunSpec(cfg.(maxBatch := n), w.jobs, w.store))
    case Interrupted(n, read) =>
      w.(store := w.store.(file := w.store.file + FilterMap(cfg, Batch(cfg, w, n)[..read])))
  }

  predicate PossibleRun(cfg: Config, w: World, events: seq<Event>)
    requires cfg.Valid()
    decreases |events|
  {
    events == [] || (Possible(cfg, w, events[0]) && PossibleRun(cfg, Step(cfg, w, events[0]), events[1..]))
  }

  function Execute(cfg: Config, w: World, events: seq<Event>): World
    requires cfg.Valid() && PossibleRun(cfg, w, events)
    decreases |events|
  {
    if events == [] then w else Execute(cfg, Step(cfg, w, events[0]), events[1..])
  }

  /** The rows the cursor has passed. */
  function Passed(w: World): seq<Job> {
    w.jobs[..Position(w.jobs, w.store.cursor)]
  }

  ghost predicate Consistent(w: World) {
    Table(w.jobs) && w.store.cursor <= MaxRowId(w.jobs)
  }

  /** The file is the filter-map of the rows up to the cursor, and the counter is its length. */
  ghost predicate Mirrors(cfg: Config, w: World)
    requires cfg.Valid()
  {
    && Consistent(w)
    && w.store.file == FilterMap(cfg, Passed(w))
    && w.store.synced == |w.store.file|
  }

  lemma FilterMapSnoc(cfg: Config, a: seq<Job>, x: Job)
    requires cfg.Valid()
    ensures FilterMap(cfg, a + [x]) == FilterMap(cfg, a) + Emit(cfg, x)
  {
    hide Emit;
    assert (a + [x])[..|a|] == a;
  }

  lemma Reassociate<T>(a: seq<T>, b: seq<T>, c: seq<T>)
    ensures a + b + c == a + (b + c)
  {
  }

  lemma {:induction false} FilterMapAppend(cfg: Config, a: seq<Job>, b: seq<Job>)
    requires cfg.Valid()
    ensures FilterMap(cfg, a + b) == FilterMap(cfg, a) + FilterMap(cfg, b)
    decreases |b|
  {
    if b == [] {
      assert a + b == a;
    } else {
      var init, x := b[..|b| - 1], b[|b| - 1];
      assert b == init + [x];
      hide *;
      FilterMapAppend(cfg, a, init);
      FilterMapSnoc(cfg, a + init, x);
      FilterMapSnoc(cfg, init, x);
      Reassociate(a, init, [x]);
      Reassociate(FilterMap(cfg, a), FilterMap(cfg, init), Emit(cfg, x));
    }
  }

  /** In a table the position of a cursor is the only place that splits the row ids at it. */
  lemma PositionUnique(jobs: seq<Job>, cursor: nat, p: nat)
    requires Table(jobs) && p <= |jobs|
    requires p > 0 ==> jobs[p - 1].rowid <= cursor
    requires p < |jobs| ==> jobs[p].rowid > cursor
    ensures Position(jobs, cursor) == p
  {
  }

  /** Passing the rows up to `end` puts the cursor at the last of them. */
  lemma PassingTo(jobs: seq<Job>, end: nat)
    requires Table(jobs) && 0 < end <= |jobs|
    ensures jobs[end - 1].rowid <= MaxRowId(jobs) && Position(jobs, jobs[end - 1].rowid) == end
  {
    PositionUnique(jobs, jobs[end - 1].rowid, end);
  }

  /** A batch starts right after the passed rows, and passing it moves the cursor to its end. */
  lemma BatchFollows(cfg: Config, w: World, n: nat)
    requires cfg.Valid() && Consistent(w) && n >= 1
    ensures
      var rows, start := Batch(cfg, w, n), Position(w.jobs, w.store.cursor);
      && rows == w.jobs[start..start + |rows|]
      && |rows| == Min(n, |w.jobs| - start)
      && CursorAfter(w.store.cursor, rows) <= MaxRowId(w.jobs)
      && Position(w.jobs, CursorAfter(w.store.cursor, rows)) == start + |rows|
  {
    hide Table, Position;
    var rows, start := Batch(cfg, w, n), Position(w.jobs, w.store.cursor);
    if rows != [] {
      assert rows[|rows| - 1] == w.jobs[start + |rows| - 1];
      PassingTo(w.jobs, start + |rows|);
    }
  }

  lemma InsertKeepsTable(jobs: seq<Job>, job: Job)
    requires Table(jobs) && job.rowid > MaxRowId(jobs)
    ensures Table(jobs + [job])
  {
    forall i | 0 <= i < |jobs| ensures jobs[i].rowid <= MaxRowId(jobs) {
      if i < |jobs| - 1 {
        assert jobs[i].rowid < jobs[|jobs| - 1].rowid;
      }
    }
  }

  lemma InsertKeepsPassed(w: World, job: Job)
    requires Consistent(w) && job.rowid > MaxRowId(w.jobs)
    ensures var w' := w.(jobs := w.jobs + [job]); Consistent(w') && Passed(w') == Passed(w)
  {
    var jobs', p := w.jobs + [job], Position(w.jobs, w.store.cursor);
    InsertKeepsTable(w.jobs, job);
    PositionUnique(jobs', w.store.cursor, p);
    assert jobs'[..p] == w.jobs[..p];
  }

  lemma SyncPasses(cfg: Config, w: World, n: nat)
    requires cfg.Valid() && Consistent(w) && n >= 1
    ensures
      var w' := Step(cfg, w, Sync(n));
      && Consistent(w') && Passed(w') == Passed(w) + Batch(cfg, w, n)
      && FilterMap(cfg, Passed(w')) == FilterMap(cfg, Passed(w)) + FilterMap(cfg, Batch(cfg, w, n))
      && w'.store.file == w.store.file + FilterMap(cfg, Batch(cfg, w, n))
  {
    hide Emit, NormalizeReceipt, FilterMap, ReadRows, Table;
    BatchFollows(cfg, w, n);
    FilterMapAppend(cfg, Passed(w), Batch(cfg, w, n));
    SameFilterMap(cfg, cfg.(maxBatch := n), Batch(cfg, w, n));
  }

  lemma SameEmit(cfg: Config, other: Config, job: Job)
    requires cfg.Valid() && other.Valid() && other.solPriceUsd == cfg.solPriceUsd && other.feeSol == cfg.feeSol
    ensures Emit(cfg, job) == Emit(other, job)
  {
  }

  lemma {:induction false} SameFilterMap(cfg: Config, other: Config, jobs: seq<Job>)
    requires cfg.Valid() && other.Valid() && other.solPriceUsd == cfg.solPriceUsd && other.feeSol == cfg.feeSol
    ensures FilterMap(cfg, jobs) == FilterMap(other, jobs)
  {
    hide NormalizeReceipt;
    if jobs != [] {
      SameEmit(cfg, other, jobs[|jobs| - 1]);
      hide Emit;
      SameFilterMap(cfg, other, jobs[..|jobs| - 1]);
    }
  }

  /**
   * As long as no run is interrupted, the receipt file equals the ordered filter-map of the rows up
   * to the cursor, whatever the batch sizes and however inserts and runs interleave.
   */
  lemma {:induction false} FileMirrorsTable(cfg: Config, w: World, events: seq<Event>)
    requires cfg.Valid() && Mirrors(cfg, w)
    requires PossibleRun(cfg, w, events)
    requires forall e <- events :: !e.Interrupted?
    ensures Mirrors(cfg, Execute(cfg, w, events))
    decreases |events|
  {
    if events != [] {
      match events[0] {
        case Insert(job) => InsertKeepsPassed(w, job);
        case Sync(n) =>
          SyncPasses(cfg, w, n);
          SameFilterMap(cfg, cfg.(maxBatch := n), Batch(cfg, w, n));
      }
      FileMirrorsTable(cfg, Step(cfg, w, events[0]), events[1..]);
    }
  }

  /** `a` is what remains of `b` when some elements are dropped. */
  predicate Subsequence<T(==)>(a: seq<T>, b: seq<T>)
    decreases |b|
  {
    if a == [] then true
    else if b == [] then false
    else
      || Subsequence(a, b[..|b| - 1])
      || (a[|a| - 1] == b[|b| - 1] && Subsequence(a[..|a| - 1], b[..|b| - 1]))
  }

  lemma {:induction false} SubsequenceExtend<T>(a: seq<T>, b: seq<T>, junk: seq<T>)
    requires Subsequence(a, b)
    ensures Subsequence(a, b + junk)
    decreases |junk|
  {
    if junk == [] {
      assert b + junk == b;
    } else {
      SubsequenceExtend(a, b, junk[..|junk| - 1]);
      assert (b + junk)[..|b + junk| - 1] == b + junk[..|junk| - 1];
    }
  }

  lemma SubsequenceSnoc<T>(a: seq<T>, b: seq<T>, x: T)
    requires Subsequence(a, b)
    ensures Subsequence(a + [x], b + [x])
  {
    assert (a + [x])[..|a|] == a && (b + [x])[..|b|] == b;
  }

  lemma AppendSnoc<T>(a: seq<T>, c: seq<T>)
    requires c != []
    ensures a + c[..|c| - 1] + [c[|c| - 1]] == a + c
  {
  }

  lemma {:induction false} SubsequenceAppend<T>(a: seq<T>, b: seq<T>, c: seq<T>)
    requires Subsequence(a, b)
    ensures Subsequence(a + c, b + c)
    decreases |c|
  {
    hide Subsequence;
    if c == [] {
      assert a + c == a && b + c == b;
    } else {
      var init := c[..|c| - 1];
      SubsequenceAppend(a, b, init);
      SubsequenceSnoc(a + init, b + init, c[|c| - 1]);
      AppendSnoc(a, c);
      AppendSnoc(b, c);
    }
  }

  /**
   * With interruptions receipts may repeat, but none is missing or out of order: the filter-map of
   * the rows up to the cursor is always a subsequence of the file.
   */
  lemma {:induction false} NothingIsLost(cfg: Config, w: World, events: seq<Event>)
    requires cfg.Valid() && Consistent(w) && Subsequence(FilterMap(cfg, Passed(w)), w.store.file)
    requires PossibleRun(cfg, w, events)
    ensures var w' := Execute(cfg, w, events);
      Consistent(w') && Subsequence(FilterMap(cfg, Passed(w')), w'.store.file)
    decreases |events|
  {
    if events != [] {
      match events[0] {
        case Insert(job) => InsertKeepsPassed(w, job);
        case Sync(n) =>
          SyncPasses(cfg, w, n);
          SubsequenceAppend(FilterMap(cfg, Passed(w)), w.store.file, FilterMap(cfg, Batch(cfg, w, n)));
        case Interrupted(n, read) =>
          SubsequenceExtend(FilterMap(cfg, Passed(w)), w.store.file, FilterMap(cfg, Batch(cfg, w, n)[..read]));
      }
      NothingIsLost(cfg, Step(cfg, w, events[0]), events[1..]);
    }
  }

  // ----- what interruptions add -----

  /** The receipts that an event leaves in the file without passing their rows. */
  function RepeatsOf(cfg: Config, w: World, e: Event): nat
    requires cfg.Valid() && Possible(cfg, w, e)
  {
    if e.Interrupted? then |FilterMap(cfg, Batch(cfg, w, e.batch)[..e.read])| else 0
  }

  /** The receipts that interrupted runs leave in the file. */
  function Repeats(cfg: Config, w: World, events: seq<Event>): nat
    requires cfg.Valid() && PossibleRun(cfg, w, events)
    decreases |events|
  {
    if events == [] then 0
    else RepeatsOf(cfg, w, events[0]) + Repeats(cfg, Step(cfg, w, events[0]), events[1..])
  }

  /** The receipt of some row of the table. */
  ghost predicate FromTable(cfg: Config, jobs: seq<Job>, r: Receipt)
    requires cfg.Valid()
  {
    exists job <- jobs :: Emit(cfg, job) == [r]
  }

  /** Every receipt in the file is the receipt of a table row. */
  ghost predicate Genuine(cfg: Config, w: World)
    requires cfg.Valid()
  {
    forall r <- w.store.file :: FromTable(cfg, w.jobs, r)
  }

  lemma {:induction false} FilterMapFromTable(cfg: Config, part: seq<Job>, jobs: seq<Job>)
    requires cfg.Valid() && forall job <- part :: job in jobs
    ensures forall r <- FilterMap(cfg, part) :: FromTable(cfg, jobs, r)
  {
    hide NormalizeReceipt;
    if part != [] {
      var job := part[|part| - 1];
      assert job in part;
      FilterMapFromTable(cfg, part[..|part| - 1], jobs);
      forall r | r in Emit(cfg, job) ensures FromTable(cfg, jobs, r) {
        assert Emit(cfg, job) == [r];
      }
    }
  }

  /** One event adds the receipts of the rows it passes, and those that it repeats later. */
  lemma StepAccounts(cfg: Config, w: World, e: Event)
    requires cfg.Valid() && Consistent(w) && Possible(cfg, w, e)
    ensures
      var w' := Step(cfg, w, e);
      var passed, passed' := FilterMap(cfg, Passed(w)), FilterMap(cfg, Passed(w'));
      && Consistent(w') && w.store.file <= w'.store.file
      && w'.store.synced - w.store.synced == |passed'| - |passed|
      && |w'.store.file| - |w.store.file| == |passed'| - |passed| + RepeatsOf(cfg, w, e)
  {
    match e
    case Insert(job) => InsertKeepsPassed(w, job);
    case Interrupted(_, _) =>
    case Sync(n) =>
      SyncPasses(cfg, w, n);
      SameFilterMap(cfg, cfg.(maxBatch := n), Batch(cfg, w, n));
  }

  lemma StepInvents(cfg: Config, w: World, e: Event)
    requires cfg.Valid() && Consistent(w) && Possible(cfg, w, e)
    requires Genuine(cfg, w)
    ensures Genuine(cfg, Step(cfg, w, e))
  {
    hide Emit, FilterMap, Batch;
    match e
    case Insert(job) =>
    case Interrupted(n, read) =>
      BatchFollows(cfg, w, n);
      FilterMapFromTable(cfg, Batch(cfg, w, n)[..read], w.jobs);
    case Sync(n) =>
      BatchFollows(cfg, w, n);
      SyncPasses(cfg, w, n);
      FilterMapFromTable(cfg, Batch(cfg, w, n), w.jobs);
  }

  /** Over every history each receipt in the file is the receipt of a table row. */
  lemma {:induction false} NothingIsInvented(cfg: Config, w: World, events: seq<Event>)
    requires cfg.Valid() && Consistent(w) && PossibleRun(cfg, w, events)
    requires Genuine(cfg, w)
    ensures Genuine(cfg, Execute(cfg, w, events))
    decreases |events|
  {
    hide Genuine, Step, Possible;
    if events != [] {
      StepInvents(cfg, w, events[0]);
      StepAccounts(cfg, w, events[0]);
      NothingIsInvented(cfg, Step(cfg, w, events[0]), events[1..]);
    }
  }

  /** The file holds the receipts of the passed rows and what interrupted runs left; the counter counts the former. */
  lemma {:induction false} FileLength(cfg: Config, w: World, events: seq<Event>)
    requires cfg.Valid() && Consistent(w) && PossibleRun(cfg, w, events)
    ensures
      var w' := Execute(cfg, w, events);
      var growth := |FilterMap(cfg, Passed(w'))| - |FilterMap(cfg, Passed(w))|;
      && w'.store.synced == w.store.synced + growth
      && |w'.store.file| == |w.store.file| + growth + Repeats(cfg, w, events)
    decreases |events|
  {
    if events != [] {
      StepAccounts(cfg, w, events[0]);
      hide Step, Possible, FilterMap, Passed, Batch;
      FileLength(cfg, Step(cfg, w, events[0]), events[1..]);
    }
  }

  lemma {:induction false} SubsequenceLength<T>(a: seq<T>, b: seq<T>)
    requires Subsequence(a, b)
    ensures |a| <= |b| && (|a| == |b| ==> a == b)
    decreases |b|
  {
    if a != [] {
      var b' := b[..|b| - 1];
      if Subsequence(a, b') {
        SubsequenceLength(a, b');
      } else {
        SubsequenceLength(a[..|a| - 1], b');
        assert a == a[..|a| - 1] + [a[|a| - 1]] && b == b' + [b[|b| - 1]];
      }
    }
  }

  /** After any history the file mirrors the table if and only if interrupted runs left no receipt in it. */
  lemma MirrorsExactly(cfg: Config, w: World, events: seq<Event>)
    requires cfg.Valid() && Mirrors(cfg, w) && PossibleRun(cfg, w, events)
    ensures Mirrors(cfg, Execute(cfg, w, events)) <==> Repeats(cfg, w, events) == 0
  {
    SubsequenceSelf(w.store.file);
    NothingIsLost(cfg, w, events);
    FileLength(cfg, w, events);
    hide Execute, Repeats, FilterMap, Passed, Subsequence, PossibleRun;
    var w' := Execute(cfg, w, events);
    SubsequenceLength(FilterMap(cfg, Passed(w')), w'.store.file);
  }

  lemma {:induction false} SubsequenceSelf<T>(a: seq<T>)
    ensures Subsequence(a, a)
  {
    if a != [] {
      SubsequenceSelf(a[..|a| - 1]);
    }
  }

  // ----- catching up -----

  function SyncTimes(cfg: Config, w: World, runs: nat): World
    requires cfg.Valid()
    decreases runs
  {
    if runs == 0 then w else SyncTimes(cfg, Step(cfg, w, Sync(cfg.maxBatch)), runs - 1)
  }

  lemma OneSyncAdvances(cfg: Config, w: World)
    requires cfg.Valid() && Consistent(w)
    ensures
      var w' := Step(cfg, w, Sync(cfg.maxBatch));
      && Consistent(w') && w'.jobs == w.jobs
      && |Passed(w')| == Min(|Passed(w)| + cfg.maxBatch, |w.jobs|)
      && Passed(w') == w.jobs[..|Passed(w')|]
  {
    hide FilterMap, ReadRows;
    assert cfg.(maxBatch := cfg.maxBatch) == cfg;
    BatchFollows(cfg, w, cfg.maxBatch);
    SyncPasses(cfg, w, cfg.maxBatch);
  }

  /** The batches it takes to pass `remaining` rows: their number over the batch size, rounded up. */
  function RunsNeeded(remaining: nat, batch: nat): nat
    requires batch >= 1
  {
    if remaining == 0 then 0 else 1 + RunsNeeded(remaining - Min(batch, remaining), batch)
  }

  /** Without inserts, that many complete runs pass the whole table. */
  lemma {:induction false} CatchesUp(cfg: Config, w: World, runs: nat)
    requires cfg.Valid() && Consistent(w)
    requires runs >= RunsNeeded(|w.jobs| - |Passed(w)|, cfg.maxBatch)
    ensures Passed(SyncTimes(cfg, w, runs)) == w.jobs
    decreases runs
  {
    hide FilterMap, ReadRows, Table;
    if runs > 0 {
      OneSyncAdvances(cfg, w);
      CatchesUp(cfg, Step(cfg, w, Sync(cfg.maxBatch)), runs - 1);
    } else {
      assert w.jobs[..|w.jobs|] == w.jobs;
    }
  }
}
