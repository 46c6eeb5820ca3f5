/**
 * Exactly which configurations of the inflow router keep a share of the inflow: over all histories of
 * complete runs, and over all histories in which runs may crash after their transfer.
 */
module InflowShare {
  import opened Common
  import opened InflowRouter

  ghost predicate Within(k: nat, w: World) {
    10000 * w.routed <= k * w.inflow
  }

  /** No history routes more than k basis points of the inflow. */
  ghost predicate AlwaysWithin(cfg: Config, k: nat) {
    forall w, events :: PossibleRun(cfg, w, events) && Opens(w) ==> Within(k, Execute(cfg, w, events))
  }

  ghost predicate NoCrash(events: seq<Event>) {
    forall e <- events :: !e.Crash?
  }

  /** No history of complete runs does. */
  ghost predicate WithinUnlessCrashed(cfg: Config, k: nat) {
    forall w, events :: PossibleRun(cfg, w, events) && Opens(w) && NoCrash(events) ==>
      Within(k, Execute(cfg, w, events))
  }

  /** The script never asks the pool for anything but zero. */
  predicate Idle(cfg: Config) {
    !cfg.enabled || !cfg.walletSet || cfg.bps == 0
  }

  lemma IdleMovesNothing(cfg: Config, w: World, e: Event)
    requires Idle(cfg) && Possible(cfg, w, e)
    ensures Step(cfg, w, e).routed == w.routed
  {
  }

  lemma {:induction false} IdleRoutesNothing(cfg: Config, w: World, events: seq<Event>)
    requires Idle(cfg) && PossibleRun(cfg, w, events)
    ensures Execute(cfg, w, events).routed == w.routed
    decreases |events|
  {
    if events != [] {
      IdleMovesNothing(cfg, w, events[0]);
      IdleRoutesNothing(cfg, Step(cfg, w, events[0]), events[1..]);
    }
  }

  lemma IdleStaysWithin(cfg: Config, k: nat, w: World, events: seq<Event>)
    requires Idle(cfg) && PossibleRun(cfg, w, events) && Opens(w)
    ensures Within(k, Execute(cfg, w, events))
  {
    IdleRoutesNothing(cfg, w, events);
    hide Execute, PossibleRun;
    MulMono(k, 0, Execute(cfg, w, events).inflow);
  }

  lemma AtMost(n: nat, a: nat, inflow: nat, k: nat)
    requires n <= a * inflow && a <= k
    ensures n <= k * inflow
  {
    MulMono(inflow, a, k);
  }

  lemma CompleteRunsStayWithin(cfg: Config, k: nat, w: World, events: seq<Event>)
    requires PossibleRun(cfg, w, events) && Opens(w) && NoCrash(events) && k >= Max(cfg.bps, 5000)
    ensures Within(k, Execute(cfg, w, events))
  {
    hide PossibleRun, Execute, Opens;
    RoutedShareBounded(cfg, w, events);
    var w' := Execute(cfg, w, events);
    AtMost(10000 * w'.routed, Max(cfg.bps, 5000), w'.inflow, k);
  }

  lemma RoutedStaysWithin(cfg: Config, k: nat, w: World, events: seq<Event>)
    requires PossibleRun(cfg, w, events) && Opens(w) && k >= 10000
    ensures Within(k, Execute(cfg, w, events))
  {
    hide PossibleRun, Execute, Opens, Covered;
    CrashesNeverOverspend(cfg, w, events);
    var w' := Execute(cfg, w, events);
    AtMost(10000 * w'.routed, 10000, w'.inflow, k);
  }

  // ----- complete runs route half -----

  function Start(balance: nat): World {
    World(balance, Store(Some(0), Some(balance), ""), balance, 0)
  }

  function ExactRuns(cfg: Config, w: World, runs: nat): seq<Event>
    decreases runs
  {
    if runs == 0 then []
    else [Tick(Exact(cfg, w, true))] + ExactRuns(cfg, Step(cfg, w, Tick(Exact(cfg, w, true))), runs - 1)
  }

  lemma {:induction false} ExactRunsSettle(cfg: Config, w: World, runs: nat)
    ensures NoCrash(ExactRuns(cfg, w, runs)) && PossibleRun(cfg, w, ExactRuns(cfg, w, runs))
    ensures Execute(cfg, w, ExactRuns(cfg, w, runs)) == Settle(cfg, w, runs)
    decreases runs
  {
    hide Step, Exact;
    if runs > 0 {
      var w1 := Step(cfg, w, Tick(Exact(cfg, w, true)));
      ExactRunsSettle(cfg, w1, runs - 1);
      assert ExactRuns(cfg, w, runs)[1..] == ExactRuns(cfg, w1, runs - 1);
    }
  }

  /** What is left of a wallet that came to rest. */
  lemma LittleIsLeft(cfg: Config, w: World)
    requires cfg.bps > 0 && Drained(cfg, w)
    ensures Pending(w.balance, w.store) < 10000 * Max(1, cfg.minTransfer)
  {
    MulMono(Pending(w.balance, w.store), 1, cfg.bps);
  }

  /** Up to a half share, complete runs go on until half of a large inflow is routed, but for a rest. */
  lemma RepeatedRunsRouteHalf(cfg: Config, k: nat) returns (w: World, events: seq<Event>)
    requires !Idle(cfg) && cfg.bps <= 5000 && k < 5000
    ensures PossibleRun(cfg, w, events) && Opens(w) && NoCrash(events)
    ensures !Within(k, Execute(cfg, w, events))
  {
    var b := 50000000 * Max(1, cfg.minTransfer);
    w := Start(b);
    events := ExactRuns(cfg, w, b);
    ExactRunsSettle(cfg, w, b);
    hide ExactRuns;
    Settles(cfg, w, b);
    hide Settle;
    LittleIsLeft(cfg, Settle(cfg, w, b));
    MulMono(b, k, 4999);
  }

  /** One exact run routes the configured share to the lamport. */
  lemma OneRunRoutesTheShare(cfg: Config, k: nat) returns (w: World, events: seq<Event>)
    requires !Idle(cfg) && k < cfg.bps
    ensures PossibleRun(cfg, w, events) && Opens(w) && NoCrash(events)
    ensures !Within(k, Execute(cfg, w, events))
  {
    var unit := Max(1, cfg.minTransfer);
    var b := 10000 * unit;
    w := Start(b);
    events := ExactRuns(cfg, w, 1);
    ExactRunsSettle(cfg, w, 1);
    hide ExactRuns, PossibleRun, Execute, Step, Exact, Share, MakePlan;
    ShareOfUnits(cfg, unit);
    ExactRun(cfg, w, true);
    var w' := Step(cfg, w, Tick(Exact(cfg, w, true)));
    assert Settle(cfg, w', 0) == w' && Settle(cfg, w, 1) == w';
    hide Settle;
    assert w'.routed == unit * cfg.bps && w'.inflow == 10000 * unit;
    Exceeds(unit, k, cfg.bps);
  }

  lemma Exceeds(unit: nat, k: nat, bps: nat)
    requires unit > 0 && k < bps
    ensures 10000 * (unit * bps) > k * (10000 * unit)
  {
    MulMono(unit, k + 1, bps);
  }

  lemma ShareOfUnits(cfg: Config, unit: nat)
    requires cfg.bps > 0
    ensures Share(cfg, 10000 * unit) == unit * cfg.bps >= unit
  {
    MulMono(unit, 1, cfg.bps);
  }

  // ----- crashed runs route everything -----

  /** Runs that all lose their state file. */
  function LostRuns(cfg: Config, w: World, runs: nat): seq<Event>
    decreases runs
  {
    if runs == 0 then []
    else [Crash(Exact(cfg, w, true))] + LostRuns(cfg, Step(cfg, w, Crash(Exact(cfg, w, true))), runs - 1)
  }

  /** A lost run moves its share off the wallet and leaves the baseline where it was. */
  lemma LostRun(cfg: Config, w: World)
    requires Operational(cfg, w)
    ensures
      var w' := Step(cfg, w, Crash(Exact(cfg, w, true)));
      var p, p', m := Pending(w.balance, w.store), Pending(w'.balance, w'.store), w'.routed - w.routed;
      && Operational(cfg, w') && w'.inflow == w.inflow && p' + m == p
      && m == if Drained(cfg, w) then 0 else Share(cfg, p)
  {
  }

  lemma {:induction false} LostRunsDrain(cfg: Config, w: World, runs: nat)
    requires Operational(cfg, w) && runs >= Pending(w.balance, w.store)
    ensures PossibleRun(cfg, w, LostRuns(cfg, w, runs))
    ensures
      var w' := Execute(cfg, w, LostRuns(cfg, w, runs));
      && Drained(cfg, w') && w'.inflow == w.inflow
      && Pending(w'.balance, w'.store) + w'.routed == Pending(w.balance, w.store) + w.routed
    decreases runs
  {
    if runs > 0 {
      LostRun(cfg, w);
      if Drained(cfg, w) {
        LostRunsRest(cfg, w, runs);
      } else {
        hide Step, Exact, Share;
        var w1 := Step(cfg, w, Crash(Exact(cfg, w, true)));
        LostRunsDrain(cfg, w1, runs - 1);
        assert LostRuns(cfg, w, runs)[1..] == LostRuns(cfg, w1, runs - 1);
      }
    }
  }

  lemma {:induction false} LostRunsRest(cfg: Config, w: World, runs: nat)
    requires Operational(cfg, w) && Drained(cfg, w)
    ensures PossibleRun(cfg, w, LostRuns(cfg, w, runs))
    ensures
      var w' := Execute(cfg, w, LostRuns(cfg, w, runs));
      && Drained(cfg, w') && w'.inflow == w.inflow && w'.routed == w.routed
      && Pending(w'.balance, w'.store) == Pending(w.balance, w.store)
    decreases runs
  {
    if runs > 0 {
      LostRun(cfg, w);
      hide Step, Exact, Share;
      var w1 := Step(cfg, w, Crash(Exact(cfg, w, true)));
      LostRunsRest(cfg, w1, runs - 1);
      assert LostRuns(cfg, w, runs)[1..] == LostRuns(cfg, w1, runs - 1);
    }
  }

  /** Whatever the share, lost runs route all of a large inflow, but for a rest. */
  lemma LostRunsRouteAll(cfg: Config, k: nat) returns (w: World, events: seq<Event>)
    requires !Idle(cfg) && k < 10000
    ensures PossibleRun(cfg, w, events) && Opens(w)
    ensures !Within(k, Execute(cfg, w, events))
  {
    var b := 100000000 * Max(1, cfg.minTransfer);
    w := Start(b);
    events := LostRuns(cfg, w, b);
    LostRunsDrain(cfg, w, b);
    hide LostRuns, Execute;
    LittleIsLeft(cfg, Execute(cfg, w, events));
    MulMono(b, k, 9999);
  }

  // ----- the exact bounds -----

  /**
   * The rates that bound every history of complete runs are exactly those of at least the configured
   * share and at least one half, unless the script never routes.
   */
  lemma ShareBoundExactly(cfg: Config, k: nat)
    ensures WithinUnlessCrashed(cfg, k) <==> Idle(cfg) || k >= Max(cfg.bps, 5000)
  {
    hide PossibleRun, Execute, Opens, NoCrash, Within;
    if Idle(cfg) || k >= Max(cfg.bps, 5000) {
      forall w, events | PossibleRun(cfg, w, events) && Opens(w) && NoCrash(events)
        ensures Within(k, Execute(cfg, w, events))
      {
        if Idle(cfg) {
          IdleStaysWithin(cfg, k, w, events);
        } else {
          CompleteRunsStayWithin(cfg, k, w, events);
        }
      }
    } else if k < cfg.bps {
      var w, events := OneRunRoutesTheShare(cfg, k);
      assert !Within(k, Execute(cfg, w, events));
    } else {
      var w, events := RepeatedRunsRouteHalf(cfg, k);
      assert !Within(k, Execute(cfg, w, events));
    }
  }

  /**
   * Once runs may crash after their transfer, no rate below the whole inflow bounds every history in
   * which the lookup of routes on chain may fail.
   */
  lemma CrashBoundExactly(cfg: Config, k: nat)
    ensures AlwaysWithin(cfg, k) <==> Idle(cfg) || k >= 10000
  {
    hide PossibleRun, Execute, Opens, Within;
    if Idle(cfg) || k >= 10000 {
      forall w, events | PossibleRun(cfg, w, events) && Opens(w) ensures Within(k, Execute(cfg, w, events)) {
        if Idle(cfg) {
          IdleStaysWithin(cfg, k, w, events);
        } else {
          RoutedStaysWithin(cfg, k, w, events);
        }
      }
    } else {
      var w, events := LostRunsRouteAll(cfg, k);
      assert !Within(k, Execute(cfg, w, events));
    }
  }

  /**
   * So the bound of complete runs survives crashes exactly for scripts that route nothing or
   * everything, and the configured share alone is a bound exactly from one half on.
   */
  lemma WhichScriptsKeepTheirShare(cfg: Config)
    ensures AlwaysWithin(cfg, Max(cfg.bps, 5000)) <==> Idle(cfg) || cfg.bps == 10000
    ensures WithinUnlessCrashed(cfg, cfg.bps) <==> Idle(cfg) || cfg.bps >= 5000
  {
    CrashBoundExactly(cfg, Max(cfg.bps, 5000));
    ShareBoundExactly(cfg, cfg.bps);
  }
}
