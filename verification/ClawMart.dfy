/**
 * ClawMart settlement.  The staking router and the monitor share an append-only receipt log; the
 * monitor also keeps an append-only revenue ledger.  Both recompute their progress by scanning.
 */
module ClawMart {
  import opened Common

  // ----- the receipt log -----

  /** One line of the log: text that does not parse to an object, or an object with these keys. */
  datatype Row =
    | Junk
    | Receipt(stakingPoolUrl: string, poolUrl: string, source: string, channel: string,
              clawMartTotalSalesRouted: Option<int>, totalSalesRouted: Option<int>,
              clawMartTotalSales: Option<int>, totalSales: Option<int>,
              deltaSalesRouted: int, at: nat)

  /** The first key that is present counts, even when a later one is larger. */
  function ExtractRoutedTotalSales(r: Row): nat
    requires r.Receipt?
  {
    var raw :=
      if r.clawMartTotalSalesRouted.Some? then r.clawMartTotalSalesRouted.value
      else if r.totalSalesRouted.Some? then r.totalSalesRouted.value
      else if r.clawMartTotalSales.Some? then r.clawMartTotalSales.value
      else if r.totalSales.Some? then r.totalSales.value
      else 0;
    if raw < 0 then 0 else raw
  }

  function PoolOf(r: Row): string
    requires r.Receipt?
  {
    if r.stakingPoolUrl != "" then r.stakingPoolUrl else r.poolUrl
  }

  function SourceOf(r: Row): string
    requires r.Receipt?
  {
    if r.source != "" then r.source else r.channel
  }

  predicate ClawMartSource(source: string) {
    source == "" || source == "clawmart" || source == "claw_mart" || source == "kamiyo_agent_clawmart"
  }

  /** A line that counts as routed sales of the pool. */
  predicate Matches(r: Row, pool: string) {
    && r.Receipt?
    && (pool == "" || PoolOf(r) == pool)
    && ClawMartSource(SourceOf(r))
    && ExtractRoutedTotalSales(r) > 0
  }

  function Checkpoint(log: seq<Row>, pool: string): nat {
    if log == [] then 0
    else
      var before, r := Checkpoint(log[..|log| - 1], pool), log[|log| - 1];
      if Matches(r, pool) then Max(before, ExtractRoutedTotalSales(r)) else before
  }

  function MatchCount(log: seq<Row>, pool: string): nat {
    if log == [] then 0
    else MatchCount(log[..|log| - 1], pool) + if Matches(log[|log| - 1], pool) then 1 else 0
  }

  /** The latest time of the matching lines that carry the checkpoint; 0 stands for no time. */
  function LastReceiptAt(log: seq<Row>, pool: string): nat {
    if log == [] then 0
    else
      var init, r := log[..|log| - 1], log[|log| - 1];
      if !Matches(r, pool) || ExtractRoutedTotalSales(r) < Checkpoint(init, pool) then LastReceiptAt(init, pool)
      else if ExtractRoutedTotalSales(r) > Checkpoint(init, pool) then r.at
      else Max(LastReceiptAt(init, pool), r.at)
  }

  /** The router's scan. */
  method StakingCheckpoint(log: seq<Row>, pool: string) returns (routed: nat, matched: nat)
    ensures routed == Checkpoint(log, pool)
    ensures matched == MatchCount(log, pool)
  {
    routed, matched := 0, 0;
    for i := 0 to |log|
      invariant routed == Checkpoint(log[..i], pool)
      invariant matched == MatchCount(log[..i], pool)
    {
      assert log[..i + 1][..i] == log[..i];
      var r := log[i];
      if r.Junk? { continue; }
      if pool != "" && PoolOf(r) != pool { continue; }
      if SourceOf(r) != "" && !ClawMartSource(SourceOf(r)) { continue; }
      var value := ExtractRoutedTotalSales(r);
      if value <= 0 { continue; }
      matched := matched + 1;
      routed := Max(routed, value);
    }
    assert log[..|log|] == log;
  }

  /** The monitor's own scan of the same log. */
  method StakingRouteCheckpoint(log: seq<Row>, pool: string) returns (routed: nat, count: nat, lastAt: nat)
    ensures routed == Checkpoint(log, pool)
    ensures count == MatchCount(log, pool)
    ensures lastAt == LastReceiptAt(log, pool)
  {
    routed, count, lastAt := 0, 0, 0;
    for i := 0 to |log|
      invariant routed == Checkpoint(log[..i], pool)
      invariant count == MatchCount(log[..i], pool)
      invariant lastAt == LastReceiptAt(log[..i], pool)
    {
      assert log[..i + 1][..i] == log[..i];
      var r := log[i];
      if r.Junk? { continue; }
      if pool != "" && PoolOf(r) != pool { continue; }
      if SourceOf(r) != "" && !ClawMartSource(SourceOf(r)) { continue; }
      var value := ExtractRoutedTotalSales(r);
      if value <= 0 { continue; }
      count := count + 1;
      if value > routed {
        routed, lastAt := value, r.at;
        continue;
      }
      if value == routed && r.at != 0 {
        if lastAt == 0 || r.at > lastAt { lastAt := r.at; }
      }
    }
    assert log[..|log|] == log;
  }

  // ----- the router -----

  datatype RouterConfig = RouterConfig(enabled: bool, apiKeySet: bool, pool: string, perSale: nat, minTransfer: nat)

  datatype RouterOutcome = Disabled | NoApiKey | ApiError | UpToDate | BelowMinimum | RouteFailed | Routed

  function ReceiptFor(pool: string, total: nat, delta: nat, at: nat): Row {
    Receipt(pool, "", "clawmart", "clawmart", Some(total), None, Some(total), None, delta, at)
  }

  /** What a run appends: a receipt only when an uncovered, large enough amount was routed. */
  function RouterStep(cfg: RouterConfig, log: seq<Row>, reading: Option<nat>, sent: bool, at: nat)
      : (seq<Row>, RouterOutcome) {
    if !cfg.enabled then (log, Disabled)
    else if !cfg.apiKeySet then (log, NoApiKey)
    else if reading.None? then (log, ApiError)
    else
      var checkpoint := Checkpoint(log, cfg.pool);
      if reading.value <= checkpoint then (log, UpToDate)
      else
        var delta := reading.value - checkpoint;
        if cfg.perSale == 0 || delta * cfg.perSale < cfg.minTransfer then (log, BelowMinimum)
        else if !sent then (log, RouteFailed)
        else (log + [ReceiptFor(cfg.pool, reading.value, delta, at)], Routed)
  }

  class StakingRouter {
    const cfg: RouterConfig
    var receipts: seq<Row>

    constructor (cfg: RouterConfig)
      ensures this.cfg == cfg && receipts == []
    {
      this.cfg := cfg;
      receipts := [];
    }

    method Run(reading: Option<nat>, sent: bool, at: nat) returns (outcome: RouterOutcome)
      modifies `receipts
      ensures (receipts, outcome) == RouterStep(cfg, old(receipts), reading, sent, at)
    {
      if !cfg.enabled { return Disabled; }
      if !cfg.apiKeySet { return NoApiKey; }
      if reading.None? { return ApiError; }
      var total := reading.value;
      var lastRouted, _ := StakingCheckpoint(receipts, cfg.pool);
      var delta := if total > lastRouted then total - lastRouted else 0;
      if delta == 0 { return UpToDate; }
      var amount := delta * cfg.perSale;
      if cfg.perSale <= 0 || amount <= 0 || amount < cfg.minTransfer { return BelowMinimum; }
      if !sent { return RouteFailed; }
      receipts := receipts + [ReceiptFor(cfg.pool, total, delta, at)];
      return Routed;
    }
  }

  // ----- every sale is routed exactly once -----

  predicate Covers(r: Row, pool: string, sale: nat) {
    Matches(r, pool) && ExtractRoutedTotalSales(r) - r.deltaSalesRouted < sale <= ExtractRoutedTotalSales(r)
  }

  /** How many receipts of the log cover a sale. */
  function Coverage(log: seq<Row>, pool: string, sale: nat): nat {
    if log == [] then 0
    else Coverage(log[..|log| - 1], pool, sale) + if Covers(log[|log| - 1], pool, sale) then 1 else 0
  }

  function DeltaSum(log: seq<Row>, pool: string): int {
    if log == [] then 0
    else DeltaSum(log[..|log| - 1], pool) + if Matches(log[|log| - 1], pool) then log[|log| - 1].deltaSalesRouted else 0
  }

  /** The receipts' intervals partition 1..checkpoint. */
  ghost predicate ExactlyOnce(log: seq<Row>, pool: string) {
    && DeltaSum(log, pool) == Checkpoint(log, pool)
    && forall sale: nat :: Coverage(log, pool, sale) == if 1 <= sale <= Checkpoint(log, pool) then 1 else 0
  }

  /**
   * What happens: a router run, a router run that pays and then fails or dies before it writes its
   * receipt, or some other writer's line that does not match the pool.
   */
  datatype LogEvent =
    | RouterRun(reading: Option<nat>, sent: bool, at: nat)
    | RouterCrash(total: nat)
    | Foreign(row: Row)

  predicate Allowed(cfg: RouterConfig, e: LogEvent) {
    e.Foreign? ==> !Matches(e.row, cfg.pool)
  }

  function LogStep(cfg: RouterConfig, log: seq<Row>, e: LogEvent): seq<Row> {
    match e
    case RouterRun(reading, sent, at) => RouterStep(cfg, log, reading, sent, at).0
    case RouterCrash(_) => log
    case Foreign(row) => log + [row]
  }

  function LogRun(cfg: RouterConfig, log: seq<Row>, events: seq<LogEvent>): seq<Row>
    decreases |events|
  {
    if events == [] then log else LogRun(cfg, LogStep(cfg, log, events[0]), events[1..])
  }

  lemma AppendRow(log: seq<Row>, r: Row, pool: string)
    ensures Checkpoint(log + [r], pool)
         == if Matches(r, pool) then Max(Checkpoint(log, pool), ExtractRoutedTotalSales(r)) else Checkpoint(log, pool)
    ensures DeltaSum(log + [r], pool)
         == DeltaSum(log, pool) + if Matches(r, pool) then r.deltaSalesRouted else 0
    ensures MatchCount(log + [r], pool) == MatchCount(log, pool) + if Matches(r, pool) then 1 else 0
    ensures forall sale: nat ::
      Coverage(log + [r], pool, sale) == Coverage(log, pool, sale) + if Covers(r, pool, sale) then 1 else 0
  {
    assert (log + [r])[..|log|] == log;
  }

  /**
   * A run routes exactly when it may, the reading is above the checkpoint, the uncovered sales are
   * worth a transfer, and the transfer succeeds; then it appends one receipt for exactly those sales.
   */
  lemma RunAppends(cfg: RouterConfig, log: seq<Row>, reading: Option<nat>, sent: bool, at: nat)
    ensures
      var (log', outcome), checkpoint := RouterStep(cfg, log, reading, sent, at), Checkpoint(log, cfg.pool);
      && (outcome.Routed? <==>
            && cfg.enabled && cfg.apiKeySet && sent && reading.Some? && reading.value > checkpoint
            && (reading.value - checkpoint) * cfg.perSale >= Max(1, cfg.minTransfer))
      && log' == if outcome.Routed?
                 then log + [ReceiptFor(cfg.pool, reading.value, reading.value - checkpoint, at)] else log
  {
    hide Checkpoint;
    if reading.Some? && reading.value > Checkpoint(log, cfg.pool) {
      MulMono(cfg.perSale, 1, reading.value - Checkpoint(log, cfg.pool));
    }
  }

  lemma AppendKeepsExactlyOnce(log: seq<Row>, r: Row, pool: string)
    requires ExactlyOnce(log, pool)
    requires Matches(r, pool) ==>
      && ExtractRoutedTotalSales(r) > Checkpoint(log, pool)
      && r.deltaSalesRouted == ExtractRoutedTotalSales(r) - Checkpoint(log, pool)
    ensures ExactlyOnce(log + [r], pool) && Checkpoint(log, pool) <= Checkpoint(log + [r], pool)
  {
    AppendRow(log, r, pool);
    hide Checkpoint, DeltaSum, Coverage, Matches, ExtractRoutedTotalSales;
    var log' := log + [r];
    forall sale: nat ensures Coverage(log', pool, sale) == if 1 <= sale <= Checkpoint(log', pool) then 1 else 0 {
      assert Coverage(log, pool, sale) == if 1 <= sale <= Checkpoint(log, pool) then 1 else 0;
    }
  }

  lemma RunKeepsExactlyOnce(cfg: RouterConfig, log: seq<Row>, reading: Option<nat>, sent: bool, at: nat)
    requires ExactlyOnce(log, cfg.pool)
    ensures
      var log' := RouterStep(cfg, log, reading, sent, at).0;
      ExactlyOnce(log', cfg.pool) && log <= log' && Checkpoint(log, cfg.pool) <= Checkpoint(log', cfg.pool)
  {
    hide ExactlyOnce, Checkpoint, Matches;
    RunAppends(cfg, log, reading, sent, at);
    if RouterStep(cfg, log, reading, sent, at).1.Routed? {
      hide RouterStep;
      var delta := reading.value - Checkpoint(log, cfg.pool);
      ReceiptCarries(cfg.pool, reading.value, delta, at);
      AppendKeepsExactlyOnce(log, ReceiptFor(cfg.pool, reading.value, delta, at), cfg.pool);
    }
  }

  lemma ReceiptCarries(pool: string, total: nat, delta: nat, at: nat)
    ensures
      var r := ReceiptFor(pool, total, delta, at);
      ExtractRoutedTotalSales(r) == total && r.deltaSalesRouted == delta && (Matches(r, pool) <==> total > 0)
  {
  }

  lemma StepKeepsExactlyOnce(cfg: RouterConfig, log: seq<Row>, e: LogEvent)
    requires Allowed(cfg, e) && ExactlyOnce(log, cfg.pool)
    ensures
      var log' := LogStep(cfg, log, e);
      && ExactlyOnce(log', cfg.pool)
      && log <= log' && Checkpoint(log, cfg.pool) <= Checkpoint(log', cfg.pool)
  {
    hide ExactlyOnce, Checkpoint, Matches, RouterStep, ExtractRoutedTotalSales;
    match e
    case Foreign(row) => AppendKeepsExactlyOnce(log, row, cfg.pool);
    case RouterCrash(_) =>
    case RouterRun(reading, sent, at) => RunKeepsExactlyOnce(cfg, log, reading, sent, at);
  }

  /**
   * For every sequence of sales readings, rising or falling, with blocked, failed and crashed runs and
   * other writers in between, every sale up to the checkpoint is covered by exactly one receipt and
   * the routed deltas sum to the checkpoint.
   */
  lemma {:induction false} SalesRoutedExactlyOnce(cfg: RouterConfig, log: seq<Row>, events: seq<LogEvent>)
    requires ExactlyOnce(log, cfg.pool)
    requires forall e <- events :: Allowed(cfg, e)
    ensures
      var log' := LogRun(cfg, log, events);
      ExactlyOnce(log', cfg.pool) && log <= log' && Checkpoint(log, cfg.pool) <= Checkpoint(log', cfg.pool)
    decreases |events|
  {
    hide ExactlyOnce, Checkpoint, Allowed, LogStep;
    if events != [] {
      StepKeepsExactlyOnce(cfg, log, events[0]);
      SalesRoutedExactlyOnce(cfg, LogStep(cfg, log, events[0]), events[1..]);
    }
  }

  /** A log without matching lines is where the count starts. */
  lemma {:induction false} UnmatchedLogStarts(log: seq<Row>, pool: string)
    requires forall r <- log :: !Matches(r, pool)
    ensures ExactlyOnce(log, pool) && Checkpoint(log, pool) == 0
  {
    if log != [] {
      UnmatchedLogStarts(log[..|log| - 1], pool);
    }
  }

  // ----- what is paid for -----

  /** Whether a run on this reading moves funds once it gets to the transfer and the transfer succeeds. */
  predicate Pays(cfg: RouterConfig, log: seq<Row>, reading: Option<nat>) {
    RouterStep(cfg, log, reading, true, 0).1.Routed?
  }

  /** Whether an event moves the funds for a sale. */
  predicate PaysFor(cfg: RouterConfig, log: seq<Row>, e: LogEvent, sale: nat) {
    match e
    case RouterRun(reading, sent, _) =>
      sent && Pays(cfg, log, reading) && Checkpoint(log, cfg.pool) < sale <= reading.value
    case RouterCrash(total) =>
      Pays(cfg, log, Some(total)) && Checkpoint(log, cfg.pool) < sale <= total
    case Foreign(_) => false
  }

  /** How often a sale is paid for. */
  function Payments(cfg: RouterConfig, log: seq<Row>, events: seq<LogEvent>, sale: nat): nat
    decreases |events|
  {
    if events == [] then 0
    else (if PaysFor(cfg, log, events[0], sale) then 1 else 0)
         + Payments(cfg, LogStep(cfg, log, events[0]), events[1..], sale)
  }

  /** How many crashed runs paid for it. */
  function LostPayments(cfg: RouterConfig, log: seq<Row>, events: seq<LogEvent>, sale: nat): nat
    decreases |events|
  {
    if events == [] then 0
    else (if events[0].RouterCrash? && PaysFor(cfg, log, events[0], sale) then 1 else 0)
         + LostPayments(cfg, LogStep(cfg, log, events[0]), events[1..], sale)
  }

  /** A completed run pays for exactly the sales that its receipt covers. */
  lemma RunPaysWhatItRecords(cfg: RouterConfig, log: seq<Row>, reading: Option<nat>, sent: bool, at: nat, sale: nat)
    ensures Coverage(RouterStep(cfg, log, reading, sent, at).0, cfg.pool, sale)
         == Coverage(log, cfg.pool, sale)
            + if PaysFor(cfg, log, RouterRun(reading, sent, at), sale) then 1 else 0
  {
    hide Checkpoint, Coverage, Matches;
    RunAppends(cfg, log, reading, sent, at);
    RunAppends(cfg, log, reading, true, 0);
    if RouterStep(cfg, log, reading, sent, at).1.Routed? {
      hide RouterStep;
      var delta := reading.value - Checkpoint(log, cfg.pool);
      ReceiptCarries(cfg.pool, reading.value, delta, at);
      AppendRow(log, ReceiptFor(cfg.pool, reading.value, delta, at), cfg.pool);
    }
  }

  lemma StepPays(cfg: RouterConfig, log: seq<Row>, e: LogEvent, sale: nat)
    requires Allowed(cfg, e)
    ensures (if PaysFor(cfg, log, e, sale) then 1 else 0) + Coverage(log, cfg.pool, sale)
         == Coverage(LogStep(cfg, log, e), cfg.pool, sale)
            + if e.RouterCrash? && PaysFor(cfg, log, e, sale) then 1 else 0
  {
    hide Checkpoint, Coverage, Matches, RouterStep, Pays;
    match e
    case Foreign(row) => AppendRow(log, row, cfg.pool);
    case RouterCrash(_) =>
    case RouterRun(reading, sent, at) => RunPaysWhatItRecords(cfg, log, reading, sent, at, sale);
  }

  /** A sale is paid for once for each receipt that covers it, and once more by each crashed run that did. */
  lemma {:induction false} PaymentsAccount(cfg: RouterConfig, log: seq<Row>, events: seq<LogEvent>, sale: nat)
    requires forall e <- events :: Allowed(cfg, e)
    ensures Payments(cfg, log, events, sale) + Coverage(log, cfg.pool, sale)
         == Coverage(LogRun(cfg, log, events), cfg.pool, sale) + LostPayments(cfg, log, events, sale)
    decreases |events|
  {
    hide Coverage, Allowed, LogStep, PaysFor;
    if events != [] {
      StepPays(cfg, log, events[0], sale);
      PaymentsAccount(cfg, LogStep(cfg, log, events[0]), events[1..], sale);
    }
  }

  /**
   * Of the sales that receipts came to cover, exactly those that no crashed run had paid for are paid
   * for once; the sales above the checkpoint are paid for by crashed runs only.
   */
  lemma PaidExactlyOnce(cfg: RouterConfig, log: seq<Row>, events: seq<LogEvent>, sale: nat)
    requires ExactlyOnce(log, cfg.pool)
    requires forall e <- events :: Allowed(cfg, e)
    requires sale > Checkpoint(log, cfg.pool)
    ensures
      var lost := LostPayments(cfg, log, events, sale);
      if sale <= Checkpoint(LogRun(cfg, log, events), cfg.pool)
      then Payments(cfg, log, events, sale) == 1 + lost
      else Payments(cfg, log, events, sale) == lost
  {
    SalesRoutedExactlyOnce(cfg, log, events);
    PaymentsAccount(cfg, log, events, sale);
    hide Coverage, Payments, LostPayments, LogRun, Checkpoint, DeltaSum, Allowed;
  }

  /** A crashed run repeats itself: the same reading pays for every uncovered sale again. */
  lemma CrashPaysTwice(cfg: RouterConfig, log: seq<Row>, reading: nat, at: nat, sale: nat)
    requires ExactlyOnce(log, cfg.pool) && Pays(cfg, log, Some(reading))
    requires Checkpoint(log, cfg.pool) < sale <= reading
    ensures
      var events := [RouterCrash(reading), RouterRun(Some(reading), true, at)];
      Payments(cfg, log, events, sale) == 2 && LostPayments(cfg, log, events, sale) == 1
  {
    var events := [RouterCrash(reading), RouterRun(Some(reading), true, at)];
    var rest := events[1..];
    assert rest == [RouterRun(Some(reading), true, at)] && rest[1..] == [];
    hide Checkpoint, RouterStep, Pays;
    assert PaysFor(cfg, log, events[0], sale) && PaysFor(cfg, log, rest[0], sale);
    assert Payments(cfg, log, rest, sale) == 1 && LostPayments(cfg, log, rest, sale) == 0;
  }

  // ----- the lamports -----

  /** What an event moves out of the wallet. */
  function Outlay(cfg: RouterConfig, log: seq<Row>, e: LogEvent): nat {
    match e
    case RouterRun(reading, sent, _) =>
      if sent && Pays(cfg, log, reading) then (reading.value - Checkpoint(log, cfg.pool)) * cfg.perSale else 0
    case RouterCrash(total) =>
      if Pays(cfg, log, Some(total)) then (total - Checkpoint(log, cfg.pool)) * cfg.perSale else 0
    case Foreign(_) => 0
  }

  function Spent(cfg: RouterConfig, log: seq<Row>, events: seq<LogEvent>, lostOnly: bool): nat
    decreases |events|
  {
    if events == [] then 0
    else (if lostOnly && !events[0].RouterCrash? then 0 else Outlay(cfg, log, events[0]))
         + Spent(cfg, LogStep(cfg, log, events[0]), events[1..], lostOnly)
  }

  lemma RunSpends(cfg: RouterConfig, log: seq<Row>, reading: Option<nat>, sent: bool, at: nat)
    ensures Outlay(cfg, log, RouterRun(reading, sent, at))
         == (Checkpoint(RouterStep(cfg, log, reading, sent, at).0, cfg.pool) - Checkpoint(log, cfg.pool)) * cfg.perSale
  {
    hide Checkpoint, Matches;
    RunAppends(cfg, log, reading, sent, at);
    RunAppends(cfg, log, reading, true, 0);
    if RouterStep(cfg, log, reading, sent, at).1.Routed? {
      hide RouterStep;
      var delta := reading.value - Checkpoint(log, cfg.pool);
      ReceiptCarries(cfg.pool, reading.value, delta, at);
      AppendRow(log, ReceiptFor(cfg.pool, reading.value, delta, at), cfg.pool);
    }
  }

  lemma StepSpends(cfg: RouterConfig, log: seq<Row>, e: LogEvent)
    requires Allowed(cfg, e)
    ensures Outlay(cfg, log, e)
         == (Checkpoint(LogStep(cfg, log, e), cfg.pool) - Checkpoint(log, cfg.pool)) * cfg.perSale
            + if e.RouterCrash? then Outlay(cfg, log, e) else 0
  {
    hide Checkpoint, Matches, RouterStep, Pays;
    match e
    case Foreign(row) => AppendRow(log, row, cfg.pool);
    case RouterCrash(_) =>
    case RouterRun(reading, sent, at) => RunSpends(cfg, log, reading, sent, at);
  }

  /** The wallet pays the price of every sale the checkpoint passed, and on top what crashed runs moved. */
  lemma {:induction false} OutlayAccounts(cfg: RouterConfig, log: seq<Row>, events: seq<LogEvent>)
    requires forall e <- events :: Allowed(cfg, e)
    ensures Spent(cfg, log, events, false)
         == (Checkpoint(LogRun(cfg, log, events), cfg.pool) - Checkpoint(log, cfg.pool)) * cfg.perSale
            + Spent(cfg, log, events, true)
    decreases |events|
  {
    hide Checkpoint, Allowed, LogStep, Outlay;
    if events != [] {
      var log1 := LogStep(cfg, log, events[0]);
      StepSpends(cfg, log, events[0]);
      OutlayAccounts(cfg, log1, events[1..]);
      var a, b := Checkpoint(log, cfg.pool), Checkpoint(log1, cfg.pool);
      var c := Checkpoint(LogRun(cfg, log, events), cfg.pool);
      assert (c - a) * cfg.perSale == (c - b) * cfg.perSale + (b - a) * cfg.perSale;
    }
  }
}
