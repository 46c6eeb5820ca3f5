/**
 * What the two scans of the receipt log and one run of the staking router say, with the keys and values
 * of a log line written out.
 */
module ClawMartScans {
  import opened Common
  import opened ClawMart

  // ----- which lines match -----

  /** The first of the four keys that is present carries the total. */
  predicate Carries(r: Row, n: int)
    requires r.Receipt?
  {
    || r.clawMartTotalSalesRouted == Some(n)
    || (r.clawMartTotalSalesRouted == None && r.totalSalesRouted == Some(n))
    || (r.clawMartTotalSalesRouted == None && r.totalSalesRouted == None && r.clawMartTotalSales == Some(n))
    || (r.clawMartTotalSalesRouted == None && r.totalSalesRouted == None && r.clawMartTotalSales == None
        && r.totalSales == Some(n))
  }

  predicate ForPool(r: Row, pool: string)
    requires r.Receipt?
  {
    pool == "" || r.stakingPoolUrl == pool || (r.stakingPoolUrl == "" && r.poolUrl == pool)
  }

  /** Named after ClawMart by its source, or by its channel when the source is empty, or not named at all. */
  predicate FromClawMart(r: Row)
    requires r.Receipt?
  {
    || r.source in {"clawmart", "claw_mart", "kamiyo_agent_clawmart"}
    || (r.source == "" && r.channel in {"", "clawmart", "claw_mart", "kamiyo_agent_clawmart"})
  }

  /** A line counts when it is a receipt for the pool, from ClawMart, that carries a positive total. */
  predicate Counts(r: Row, pool: string, n: int) {
    r.Receipt? && ForPool(r, pool) && FromClawMart(r) && n > 0 && Carries(r, n)
  }

  lemma CountsExactly(r: Row, pool: string)
    ensures Matches(r, pool) <==> exists n :: Counts(r, pool, n)
    ensures forall n :: Counts(r, pool, n) ==> ExtractRoutedTotalSales(r) == n
  {
    if Matches(r, pool) {
      assert Counts(r, pool, ExtractRoutedTotalSales(r));
    }
  }

  // ----- the scans -----

  /** The positions of the lines that count. */
  ghost function Counted(log: seq<Row>, pool: string): set<nat> {
    set i: nat | i < |log| && exists n :: Counts(log[i], pool, n)
  }

  lemma CountedSnoc(log: seq<Row>, r: Row, pool: string)
    ensures Counted(log + [r], pool) == Counted(log, pool) + if Matches(r, pool) then {|log|} else {}
  {
    CountsExactly(r, pool);
    hide Matches, Counts;
    var all := log + [r];
    assert forall i :: 0 <= i < |log| ==> all[i] == log[i];
    assert all[|log|] == r;
  }

  lemma {:induction false} MatchCountExactly(log: seq<Row>, pool: string)
    ensures MatchCount(log, pool) == |Counted(log, pool)|
  {
    if log != [] {
      var init, r := log[..|log| - 1], log[|log| - 1];
      assert log == init + [r];
      MatchCountExactly(init, pool);
      CountedSnoc(init, r, pool);
      assert |init| !in Counted(init, pool);
      hide Counted, Matches;
    } else {
      assert Counted(log, pool) == {};
    }
  }

  /** The checkpoint is the largest total that a line carries, and zero without one. */
  ghost predicate IsCheckpoint(log: seq<Row>, pool: string, top: nat) {
    && (forall i, n :: 0 <= i < |log| && Counts(log[i], pool, n) ==> n <= top)
    && (top > 0 ==> exists i :: 0 <= i < |log| && Counts(log[i], pool, top))
  }

  /** The latest time among the lines that carry the checkpoint; zero stands for none. */
  ghost predicate IsLastAt(log: seq<Row>, pool: string, top: nat, at: nat) {
    && (forall i :: 0 <= i < |log| && Counts(log[i], pool, top) ==> log[i].at <= at)
    && (at > 0 ==> exists i :: 0 <= i < |log| && Counts(log[i], pool, top) && log[i].at == at)
  }

  lemma CheckpointSnoc(log: seq<Row>, r: Row, pool: string, top: nat)
    requires IsCheckpoint(log, pool, top)
    ensures IsCheckpoint(log + [r], pool, if Matches(r, pool) then Max(top, ExtractRoutedTotalSales(r)) else top)
  {
    CountsExactly(r, pool);
    hide Counts;
    var all := log + [r];
    assert forall i :: 0 <= i < |log| ==> all[i] == log[i];
    assert all[|log|] == r;
    if top > 0 {
      var i :| 0 <= i < |log| && Counts(log[i], pool, top);
      assert Counts(all[i], pool, top);
    }
    if Matches(r, pool) {
      assert Counts(all[|log|], pool, ExtractRoutedTotalSales(r)) by {
        var n :| Counts(r, pool, n);
      }
    }
  }

  lemma {:induction false} CheckpointExactly(log: seq<Row>, pool: string)
    ensures IsCheckpoint(log, pool, Checkpoint(log, pool))
  {
    if log != [] {
      var init, r := log[..|log| - 1], log[|log| - 1];
      assert log == init + [r];
      CheckpointExactly(init, pool);
      CheckpointSnoc(init, r, pool, Checkpoint(init, pool));
      hide IsCheckpoint, Matches, ExtractRoutedTotalSales;
    }
  }

  lemma LastAtSame(log: seq<Row>, r: Row, pool: string, top: nat, at: nat)
    requires IsLastAt(log, pool, top, at) && !Counts(r, pool, top)
    ensures IsLastAt(log + [r], pool, top, at)
  {
    hide ForPool, FromClawMart, Carries;
    var all := log + [r];
    assert forall i :: 0 <= i < |log| ==> all[i] == log[i];
    if at > 0 {
      var i :| 0 <= i < |log| && Counts(log[i], pool, top) && log[i].at == at;
      assert Counts(all[i], pool, top) && all[i].at == at;
    }
  }

  lemma LastAtEqual(log: seq<Row>, r: Row, pool: string, top: nat, at: nat)
    requires IsLastAt(log, pool, top, at) && Counts(r, pool, top)
    ensures IsLastAt(log + [r], pool, top, Max(at, r.at))
  {
    hide ForPool, FromClawMart, Carries;
    var all := log + [r];
    assert forall i :: 0 <= i < |log| ==> all[i] == log[i];
    assert all[|log|] == r;
    if r.at < at {
      var i :| 0 <= i < |log| && Counts(log[i], pool, top) && log[i].at == at;
      assert Counts(all[i], pool, top) && all[i].at == at;
    } else {
      assert Counts(all[|log|], pool, top) && all[|log|].at == Max(at, r.at);
    }
  }

  lemma LastAtFirst(log: seq<Row>, r: Row, pool: string, top: nat)
    requires Counts(r, pool, top)
    requires forall i, n :: 0 <= i < |log| && Counts(log[i], pool, n) ==> n < top
    ensures IsLastAt(log + [r], pool, top, r.at)
  {
    hide ForPool, FromClawMart, Carries;
    var all := log + [r];
    assert forall i :: 0 <= i < |log| ==> all[i] == log[i];
    assert all[|log|] == r;
    assert Counts(all[|log|], pool, top) && all[|log|].at == r.at;
  }

  lemma {:induction false} LastReceiptExactly(log: seq<Row>, pool: string)
    ensures IsLastAt(log, pool, Checkpoint(log, pool), LastReceiptAt(log, pool))
  {
    if log != [] {
      var init, r := log[..|log| - 1], log[|log| - 1];
      assert log == init + [r];
      LastReceiptExactly(init, pool);
      CheckpointExactly(init, pool);
      CountsExactly(r, pool);
      var top, value := Checkpoint(init, pool), if Matches(r, pool) then ExtractRoutedTotalSales(r) else 0;
      assert Matches(r, pool) ==> Counts(r, pool, value);
      hide Matches, Counts, IsLastAt, ExtractRoutedTotalSales;
      if !Matches(r, pool) || value < top {
        LastAtSame(init, r, pool, top, LastReceiptAt(init, pool));
      } else if value == top {
        LastAtEqual(init, r, pool, top, LastReceiptAt(init, pool));
      } else {
        LastAtFirst(init, r, pool, value);
      }
    }
  }

  /** Both scans report this checkpoint, the number of lines that count, and the monitor's the latest time. */
  lemma ScansExactly(log: seq<Row>, pool: string)
    ensures IsCheckpoint(log, pool, Checkpoint(log, pool))
    ensures MatchCount(log, pool) == |Counted(log, pool)|
    ensures IsLastAt(log, pool, Checkpoint(log, pool), LastReceiptAt(log, pool))
  {
    CheckpointExactly(log, pool);
    MatchCountExactly(log, pool);
    LastReceiptExactly(log, pool);
  }

  // ----- one run of the router -----

  /** Why a run stops, in the order in which the script asks. */
  lemma RouterOutcomes(cfg: RouterConfig, log: seq<Row>, reading: Option<nat>, sent: bool, at: nat)
    ensures
      var outcome := RouterStep(cfg, log, reading, sent, at).1;
      var asked := cfg.enabled && cfg.apiKeySet && reading.Some?;
      var uncovered: int := if reading.Some? then reading.value - Checkpoint(log, cfg.pool) else 0;
      && (outcome.Disabled? <==> !cfg.enabled)
      && (outcome.NoApiKey? <==> cfg.enabled && !cfg.apiKeySet)
      && (outcome.ApiError? <==> cfg.enabled && cfg.apiKeySet && reading.None?)
      && (outcome.UpToDate? <==> asked && uncovered <= 0)
      && (outcome.BelowMinimum? <==>
            asked && uncovered > 0 && (cfg.perSale == 0 || uncovered * cfg.perSale < cfg.minTransfer))
      && (outcome.RouteFailed? <==>
            asked && uncovered > 0 && cfg.perSale > 0 && uncovered * cfg.perSale >= cfg.minTransfer && !sent)
      && (outcome.Routed? <==>
            asked && uncovered > 0 && cfg.perSale > 0 && uncovered * cfg.perSale >= cfg.minTransfer && sent)
  {
    hide Checkpoint;
  }

  /** The receipt of a routed run names the pool and ClawMart, and carries the total and the uncovered sales. */
  lemma RoutedReceipt(cfg: RouterConfig, log: seq<Row>, reading: Option<nat>, sent: bool, at: nat)
    ensures
      var (log', outcome) := RouterStep(cfg, log, reading, sent, at);
      if outcome.Routed? then
        && reading.Some? && |log'| == |log| + 1 && log <= log'
        && var r := log'[|log|];
           && r.Receipt? && r.stakingPoolUrl == cfg.pool && r.source == "clawmart" && r.channel == "clawmart"
           && Carries(r, reading.value) && r.clawMartTotalSales == Some(reading.value) && r.at == at
           && r.deltaSalesRouted == reading.value - Checkpoint(log, cfg.pool)
           && (Counts(r, cfg.pool, reading.value) <==> reading.value > 0)
      else log' == log
  {
    hide Checkpoint;
  }
}
