/**
 * What the lookup of routes on chain repairs.  A run that died after its transfer left a route that the
 * next run finds and adopts; this module says for which scripts that restores the share of the inflow.
 */
module InflowRecovery {
  import opened Common
  import opened InflowRouter
  import opened InflowShare

  // ----- histories in which every lost route is found -----

  /** The route that died without its state file, as the chain reports it, until a run has looked it up. */
  function LostAfter(cfg: Config, w: World, lost: Option<Snapshot>, e: Event): Option<Snapshot> {
    match e
    case Deposit(_) => lost
    case Withdraw(_) => lost
    case Tick(s) => if s.readOk then None else lost
    case Crash(s) =>
      if Moved(cfg, w, s) > 0 && w.store.baseline.Some?
      then Some(Snapshot(s.transfer.tx, Positive(w.balance - Moved(cfg, w, s))))
      else lost
  }

  /**
   * Runs find the lost route, the wallet does not fall below what it left before they do, and a route
   * has a signature of its own.
   */
  predicate Permitted(cfg: Config, w: World, lost: Option<Snapshot>, e: Event)
    requires Possible(cfg, w, e)
  {
    var lost' := LostAfter(cfg, w, lost, e);
    && (lost.Some? && (e.Tick? || e.Crash?) && e.s.readOk ==> e.s.snapshot == lost)
    && (lost'.Some? ==> lost'.value.postBalance <= Step(cfg, w, e).balance + cfg.epsilon)
    && (lost'.Some? && lost' != lost ==>
          lost'.value.tx != "" && lost'.value.tx != w.store.lastTx && (lost.Some? ==> lost'.value.tx != lost.value.tx))
  }

  predicate LooksUp(cfg: Config, w: World, lost: Option<Snapshot>, events: seq<Event>)
    decreases |events|
  {
    events == [] ||
    (&& Possible(cfg, w, events[0]) && Permitted(cfg, w, lost, events[0])
     && LooksUp(cfg, Step(cfg, w, events[0]), LostAfter(cfg, w, lost, events[0]), events[1..]))
  }

  lemma {:induction false} LookedUpRuns(cfg: Config, w: World, lost: Option<Snapshot>, events: seq<Event>)
    requires LooksUp(cfg, w, lost, events)
    ensures PossibleRun(cfg, w, events)
    decreases |events|
  {
    hide Possible, Permitted, Step;
    if events != [] {
      LookedUpRuns(cfg, Step(cfg, w, events[0]), LostAfter(cfg, w, lost, events[0]), events[1..]);
    }
  }

  /** Every route of at least the minimum leaves more than epsilon above the baseline. */
  predicate Repairable(cfg: Config) {
    Max(1, cfg.minTransfer) * (10000 - cfg.bps) > cfg.epsilon * cfg.bps
  }

  // ----- what the lookup restores -----

  /** With a lost route the pending inflow counts from the balance that the route left. */
  predicate Repaired(cfg: Config, w: World, lost: Option<Snapshot>, k: nat) {
    if lost.None? then Covered(w, k)
    else
      && w.store.baseline.Some?
      && lost.value.tx != "" && lost.value.tx != w.store.lastTx
      && Positive(w.store.baseline.value) + cfg.epsilon < lost.value.postBalance <= w.balance + cfg.epsilon
      && 10000 * w.routed + k * Positive(w.balance - lost.value.postBalance) <= k * w.inflow
  }

  lemma RouteLeavesEpsilon(cfg: Config, p: nat, m: nat)
    requires Repairable(cfg) && 0 < m <= Share(cfg, p) && Share(cfg, p) >= cfg.minTransfer
    ensures p - m > cfg.epsilon
  {
    var unit := Max(1, cfg.minTransfer);
    MulMono(10000, unit, Share(cfg, p));
    assert 10000 * unit <= cfg.bps * p;
    assert 10000 * (p - m) >= (10000 - cfg.bps) * p;
    if p - m <= cfg.epsilon {
      MulMono(10000 - cfg.bps, 10000 * unit, cfg.bps * p);
      assert (10000 - cfg.bps) * (cfg.bps * p) == cfg.bps * ((10000 - cfg.bps) * p);
      MulMono(cfg.bps, (10000 - cfg.bps) * p, 10000 * (p - m));
      MulMono(cfg.bps, p - m, cfg.epsilon);
      assert false;
    }
  }

  /** A deposit or a withdrawal, or a run that moved nothing and left its state file as it was. */
  lemma QuietKeepsRepaired(cfg: Config, w: World, lost: Snapshot, k: nat, w': World)
    requires Repaired(cfg, w, Some(lost), k)
    requires w'.store == w.store && w'.routed == w.routed && w'.inflow >= w.inflow
    requires w'.balance - w.balance <= w'.inflow - w.inflow
    requires lost.postBalance <= w'.balance + cfg.epsilon
    ensures Repaired(cfg, w', Some(lost), k)
  {
    var d, d' := Positive(w.balance - lost.postBalance), Positive(w'.balance - lost.postBalance);
    MulMono(k, d' + w.inflow, d + w'.inflow);
  }

  /** The route that a crashed run leaves can be adopted, and pays for itself out of what was pending. */
  lemma CrashKeepsRepaired(cfg: Config, w: World, lost: Option<Snapshot>, k: nat, s: Surroundings)
    requires Repairable(cfg) && Suffices(cfg, k) && Repaired(cfg, w, lost, k)
    requires Possible(cfg, w, Crash(s)) && Permitted(cfg, w, lost, Crash(s))
    requires w.store.baseline.Some? && Moved(cfg, w, s) > 0
    ensures Repaired(cfg, Step(cfg, w, Crash(s)), LostAfter(cfg, w, lost, Crash(s)), k)
  {
    var plan, m := PlanOf(cfg, w, s), Moved(cfg, w, s);
    var b0 := Positive(w.store.baseline.value);
    var p, p0 := w.balance - plan.baseline,
                 if lost.Some? then Positive(w.balance - lost.value.postBalance) else Pending(w.balance, w.store);
    AskOnInflow(cfg, w, lost, k, s);
    var route, w' := LostAfter(cfg, w, lost, Crash(s)).value, Step(cfg, w, Crash(s));
    assert route.postBalance == w.balance - m && route.postBalance > b0 + cfg.epsilon by {
      if plan.baseline == b0 {
        RouteLeavesEpsilon(cfg, p, m);
      }
    }
    PaidFromPending(cfg, k, w.routed, w.inflow, p0, p, m, s.arrived, Positive(w'.balance - route.postBalance));
  }

  lemma AskOnInflow(cfg: Config, w: World, lost: Option<Snapshot>, k: nat, s: Surroundings)
    requires Repaired(cfg, w, lost, k) && w.store.baseline.Some?
    requires Possible(cfg, w, Crash(s)) && Permitted(cfg, w, lost, Crash(s))
    requires Moved(cfg, w, s) > 0
    ensures
      var plan, b0 := PlanOf(cfg, w, s), Positive(w.store.baseline.value);
      && plan.Ask? && plan.baseline < w.balance
      && Share(cfg, w.balance - plan.baseline) == plan.requested >= cfg.minTransfer
      && Moved(cfg, w, s) <= plan.requested
      && (plan.baseline == b0 || plan.baseline > b0 + cfg.epsilon)
      && (lost.None? ==> plan.baseline >= b0)
      && (lost.Some? ==> plan.baseline == lost.value.postBalance)
  {
    hide Share;
  }

  lemma PaidFromPending(cfg: Config, k: nat, routed: nat, inflow: nat, p0: nat, p: nat, m: nat, arrived: nat, d: nat)
    requires Suffices(cfg, k) && 10000 * routed + k * p0 <= k * inflow
    requires p <= p0 && m <= Share(cfg, p) && d <= arrived
    ensures 10000 * (routed + m) + k * d <= k * (inflow + arrived)
  {
    MulMono(p, cfg.bps, k);
    MulMono(k, p, p0);
    MulMono(k, d, arrived);
    assert k * (inflow + arrived) == k * inflow + k * arrived;
  }

  /** A complete run that finds the lost route adopts it, and works on what came in since. */
  lemma LookupRestoresCover(cfg: Config, w: World, lost: Snapshot, k: nat, s: Surroundings)
    requires Suffices(cfg, k) && Repaired(cfg, w, Some(lost), k)
    requires FairTransfer(cfg, w, s) && s.readOk && s.snapshot == Some(lost)
    requires cfg.enabled && cfg.walletSet
    ensures Covered(Step(cfg, w, Tick(s)), k)
  {
    var p, m := AdoptedAccounts(cfg, w, lost, k, s);
    CoverAddsUp(cfg, k, w.routed, w.inflow, p, p, m, s.arrived, Step(cfg, w, Tick(s)));
  }

  lemma AdoptedAccounts(cfg: Config, w: World, lost: Snapshot, k: nat, s: Surroundings) returns (p: nat, m: nat)
    requires Repaired(cfg, w, Some(lost), k)
    requires FairTransfer(cfg, w, s) && s.readOk && s.snapshot == Some(lost)
    requires cfg.enabled && cfg.walletSet
    ensures p == Positive(w.balance - lost.postBalance) && m <= Share(cfg, p)
    ensures
      var w' := Step(cfg, w, Tick(s));
      && w'.store.baseline.Some? && w'.routed == w.routed + m && w'.inflow == w.inflow + s.arrived
      && Pending(w'.balance, w'.store) <= Positive(p - 2 * m) + s.arrived
  {
    p, m := Positive(w.balance - lost.postBalance), Moved(cfg, w, s);
    hide Share;
    assert AdoptsLater(cfg, w.store, w.balance, s.snapshot);
  }

  lemma TickKeepsRepaired(cfg: Config, w: World, lost: Option<Snapshot>, k: nat, s: Surroundings)
    requires Suffices(cfg, k) && Repaired(cfg, w, lost, k) && cfg.enabled && cfg.walletSet
    requires Possible(cfg, w, Tick(s)) && Permitted(cfg, w, lost, Tick(s))
    ensures Repaired(cfg, Step(cfg, w, Tick(s)), LostAfter(cfg, w, lost, Tick(s)), k)
  {
    if lost.None? {
      StepKeepsCover(cfg, k, w, Tick(s));
    } else if s.readOk {
      LookupRestoresCover(cfg, w, lost.value, k, s);
    } else {
      QuietKeepsRepaired(cfg, w, lost.value, k, Step(cfg, w, Tick(s)));
    }
  }

  /** A run that dies before it moved anything changes the balance only. */
  lemma IdleCrashKeepsRepaired(cfg: Config, w: World, lost: Option<Snapshot>, k: nat, s: Surroundings)
    requires Repaired(cfg, w, lost, k)
    requires Possible(cfg, w, Crash(s)) && Permitted(cfg, w, lost, Crash(s))
    requires w.store.baseline.None? || Moved(cfg, w, s) == 0
    ensures Repaired(cfg, Step(cfg, w, Crash(s)), LostAfter(cfg, w, lost, Crash(s)), k)
  {
    var w' := Step(cfg, w, Crash(s));
    if lost.Some? {
      QuietKeepsRepaired(cfg, w, lost.value, k, w');
    } else {
      MulMono(k, Pending(w'.balance, w'.store) + w.inflow, Pending(w.balance, w.store) + w'.inflow);
    }
  }

  lemma StepKeepsRepaired(cfg: Config, w: World, lost: Option<Snapshot>, k: nat, e: Event)
    requires Repairable(cfg) && Suffices(cfg, k) && Repaired(cfg, w, lost, k) && cfg.enabled && cfg.walletSet
    requires Possible(cfg, w, e) && Permitted(cfg, w, lost, e)
    ensures Repaired(cfg, Step(cfg, w, e), LostAfter(cfg, w, lost, e), k)
  {
    match e
    case Tick(s) => TickKeepsRepaired(cfg, w, lost, k, s);
    case Crash(s) =>
      hide Permitted, Repaired, Step, FairTransfer, Moved, Repairable;
      if w.store.baseline.Some? && Moved(cfg, w, s) > 0 {
        CrashKeepsRepaired(cfg, w, lost, k, s);
      } else {
        IdleCrashKeepsRepaired(cfg, w, lost, k, s);
      }
    case _ =>
      if lost.None? {
        StepKeepsCover(cfg, k, w, e);
      } else {
        QuietKeepsRepaired(cfg, w, lost.value, k, Step(cfg, w, e));
      }
  }

  lemma {:induction false} HistoryKeepsRepaired(cfg: Config, w: World, lost: Option<Snapshot>, k: nat,
                                                events: seq<Event>)
    requires Repairable(cfg) && Suffices(cfg, k) && Repaired(cfg, w, lost, k) && cfg.enabled && cfg.walletSet
    requires LooksUp(cfg, w, lost, events)
    ensures PossibleRun(cfg, w, events)
    ensures Within(k, Execute(cfg, w, events))
    decreases |events|
  {
    LookedUpRuns(cfg, w, lost, events);
    if events == [] {
      RepairedIsWithin(cfg, w, lost, k);
    } else {
      hide Possible, Permitted, Step, Repaired, Repairable, Within;
      StepKeepsRepaired(cfg, w, lost, k, events[0]);
      HistoryKeepsRepaired(cfg, Step(cfg, w, events[0]), LostAfter(cfg, w, lost, events[0]), k, events[1..]);
    }
  }

  lemma RepairedIsWithin(cfg: Config, w: World, lost: Option<Snapshot>, k: nat)
    requires Repaired(cfg, w, lost, k)
    ensures Within(k, w)
  {
    if lost.Some? {
      MulMono(k, 0, Positive(w.balance - lost.value.postBalance));
    } else {
      MulMono(k, 0, Pending(w.balance, w.store));
    }
  }

  // ----- routes too small to be adopted -----

  /** The smallest pending inflow whose share can be moved. */
  function Threshold(cfg: Config): nat
    requires cfg.bps > 0
  {
    (10000 * Max(1, cfg.minTransfer) + cfg.bps - 1) / cfg.bps
  }

  /** Rounding up: the smallest multiple of b that reaches a. */
  lemma RoundsUp(a: nat, b: nat)
    requires b > 0
    ensures var p := (a + b - 1) / b; a <= b * p < a + b
  {
  }

  lemma ShareBetween(cfg: Config, p: nat, unit: nat)
    requires 10000 * unit <= cfg.bps * p < 10000 * unit + 10000
    ensures Share(cfg, p) == unit
  {
  }

  /** For p between these bounds, p - unit is within epsilon exactly when the script is not repairable. */
  lemma ThresholdRoom(bps: nat, unit: nat, p: nat, epsilon: nat)
    requires 10000 * unit <= bps * p < 10000 * unit + bps
    ensures p - unit <= epsilon <==> 10000 * unit <= bps * (epsilon + unit)
  {
    if p - unit <= epsilon {
      MulMono(bps, p, epsilon + unit);
    } else {
      MulMono(bps, epsilon + unit, p - 1);
      assert bps * (p - 1) == bps * p - bps;
    }
  }

  lemma RepairableMeans(cfg: Config)
    ensures !Repairable(cfg) <==> 10000 * Max(1, cfg.minTransfer) <= cfg.bps * (cfg.epsilon + Max(1, cfg.minTransfer))
  {
    var unit := Max(1, cfg.minTransfer);
    assert cfg.bps * (cfg.epsilon + unit) == cfg.epsilon * cfg.bps + cfg.bps * unit;
    assert unit * (10000 - cfg.bps) == 10000 * unit - cfg.bps * unit;
  }

  lemma ThresholdFacts(cfg: Config)
    requires cfg.bps > 0
    ensures Threshold(cfg) > 0 && Share(cfg, Threshold(cfg)) == Max(1, cfg.minTransfer)
    ensures Threshold(cfg) - Max(1, cfg.minTransfer) <= cfg.epsilon <==> !Repairable(cfg)
  {
    var unit := Max(1, cfg.minTransfer);
    RoundsUp(10000 * unit, cfg.bps);
    var p := Threshold(cfg);
    hide Threshold, Share, Repairable;
    ShareBetween(cfg, p, unit);
    ThresholdRoom(cfg.bps, unit, p, cfg.epsilon);
    RepairableMeans(cfg);
  }

  /** A lost run on the smallest inflow, which looks up the lost route before it. */
  function SmallLoss(cfg: Config, lost: Option<Snapshot>): (s: Surroundings)
    ensures s.transfer.Sent?
  {
    var tx := if lost.Some? then lost.value.tx + "t" else "t";
    Surroundings(true, lost, true, Sent(Max(1, cfg.minTransfer), tx), 0, 0, true)
  }

  /** Again and again the smallest route is lost, and what it moved is deposited anew. */
  function SmallLosses(cfg: Config, lost: Option<Snapshot>, n: nat): seq<Event>
    requires cfg.bps > 0
    decreases n
  {
    if n == 0 then []
    else
      var s := SmallLoss(cfg, lost);
      var left := Positive(Threshold(cfg) - Max(1, cfg.minTransfer));
      [Crash(s), Deposit(Max(1, cfg.minTransfer))] + SmallLosses(cfg, Some(Snapshot(s.transfer.tx, left)), n - 1)
  }

  function SmallWorld(cfg: Config, inflow: nat, routed: nat): World
    requires cfg.bps > 0
  {
    World(Threshold(cfg), Store(Some(0), None, ""), inflow, routed)
  }

  /** The lost route is too close to the baseline to be adopted. */
  predicate TooSmall(cfg: Config, lost: Option<Snapshot>) {
    lost.Some? ==> lost.value.tx != "" && lost.value.postBalance <= cfg.epsilon
  }

  lemma SmallLossStep(cfg: Config, lost: Option<Snapshot>, inflow: nat, routed: nat)
    requires !Idle(cfg) && !Repairable(cfg) && TooSmall(cfg, lost)
    ensures
      var unit, w, e := Max(1, cfg.minTransfer), SmallWorld(cfg, inflow, routed), Crash(SmallLoss(cfg, lost));
      && Threshold(cfg) >= unit && Possible(cfg, w, e) && Permitted(cfg, w, lost, e)
      && Step(cfg, w, e) == World(Threshold(cfg) - unit, w.store, inflow, routed + unit)
      && LostAfter(cfg, w, lost, e) == Some(Snapshot(SmallLoss(cfg, lost).transfer.tx, Threshold(cfg) - unit))
      && TooSmall(cfg, LostAfter(cfg, w, lost, e))
  {
    ThresholdFacts(cfg);
    hide Threshold, Repairable, Share;
    var w, s := SmallWorld(cfg, inflow, routed), SmallLoss(cfg, lost);
    assert !Adopts(cfg, w.store, w.balance, lost);
    assert PlanOf(cfg, w, s) == Ask(0, w.balance, "", Max(1, cfg.minTransfer));
    assert lost.Some? ==> |s.transfer.tx| == |lost.value.tx| + 1;
  }

  /** One round: the loss, and the deposit that makes up for it. */
  lemma SmallRound(cfg: Config, lost: Option<Snapshot>, inflow: nat, routed: nat, lost1: Option<Snapshot>)
    requires !Idle(cfg) && !Repairable(cfg) && TooSmall(cfg, lost)
    requires lost1 == Some(Snapshot(SmallLoss(cfg, lost).transfer.tx,
                                    Positive(Threshold(cfg) - Max(1, cfg.minTransfer))))
    ensures
      var unit, w, e := Max(1, cfg.minTransfer), SmallWorld(cfg, inflow, routed), Crash(SmallLoss(cfg, lost));
      && Possible(cfg, w, e) && Permitted(cfg, w, lost, e) && LostAfter(cfg, w, lost, e) == lost1
      && Permitted(cfg, Step(cfg, w, e), lost1, Deposit(unit))
      && LostAfter(cfg, Step(cfg, w, e), lost1, Deposit(unit)) == lost1 && TooSmall(cfg, lost1)
      && Step(cfg, Step(cfg, w, e), Deposit(unit)) == SmallWorld(cfg, inflow + unit, routed + unit)
  {
    SmallLossStep(cfg, lost, inflow, routed);
    hide Threshold, Share, Repairable, SmallLoss;
  }

  lemma TwoMore(cfg: Config, w: World, lost: Option<Snapshot>, e: Event, lost1: Option<Snapshot>, d: Event,
                rest: seq<Event>)
    requires Possible(cfg, w, e) && Permitted(cfg, w, lost, e) && LostAfter(cfg, w, lost, e) == lost1
    requires var w1 := Step(cfg, w, e);
      && Possible(cfg, w1, d) && Permitted(cfg, w1, lost1, d) && LostAfter(cfg, w1, lost1, d) == lost1
      && LooksUp(cfg, Step(cfg, w1, d), lost1, rest) && PossibleRun(cfg, Step(cfg, w1, d), rest)
    ensures LooksUp(cfg, w, lost, [e, d] + rest) && PossibleRun(cfg, w, [e, d] + rest)
    ensures Execute(cfg, w, [e, d] + rest) == Execute(cfg, Step(cfg, Step(cfg, w, e), d), rest)
  {
    hide Possible, Permitted, Step, LostAfter;
    var w1 := Step(cfg, w, e);
    assert ([e, d] + rest)[1..] == [d] + rest && ([d] + rest)[1..] == rest;
    assert LooksUp(cfg, w1, lost1, [d] + rest) && PossibleRun(cfg, w1, [d] + rest);
    assert Execute(cfg, w1, [d] + rest) == Execute(cfg, Step(cfg, w1, d), rest);
  }

  lemma {:induction false} SmallLossesRun(cfg: Config, lost: Option<Snapshot>, inflow: nat, routed: nat, n: nat)
    requires !Idle(cfg) && !Repairable(cfg) && TooSmall(cfg, lost)
    ensures
      var w, events, unit := SmallWorld(cfg, inflow, routed), SmallLosses(cfg, lost, n), Max(1, cfg.minTransfer);
      && LooksUp(cfg, w, lost, events) && PossibleRun(cfg, w, events)
      && Execute(cfg, w, events).routed == routed + n * unit
      && Execute(cfg, w, events).inflow == inflow + n * unit
    decreases n
  {
    hide Possible, Permitted, Step, LostAfter, SmallLoss, Threshold, TooSmall, Repairable;
    if n > 0 {
      var w, unit, e := SmallWorld(cfg, inflow, routed), Max(1, cfg.minTransfer), Crash(SmallLoss(cfg, lost));
      var lost1 := Some(Snapshot(SmallLoss(cfg, lost).transfer.tx, Positive(Threshold(cfg) - unit)));
      var rest := SmallLosses(cfg, lost1, n - 1);
      assert SmallLosses(cfg, lost, n) == [e, Deposit(unit)] + rest;
      SmallRound(cfg, lost, inflow, routed, lost1);
      SmallLossesRun(cfg, lost1, inflow + unit, routed + unit, n - 1);
      hide SmallLosses, LooksUp, PossibleRun, Execute, SmallWorld;
      DepositPossible(cfg, Step(cfg, w, e), unit);
      TwoMore(cfg, w, lost, e, lost1, Deposit(unit), rest);
      assert n * unit == (n - 1) * unit + unit;
    }
  }

  lemma DepositPossible(cfg: Config, w: World, amount: nat)
    ensures Possible(cfg, w, Deposit(amount))
  {
  }

  // ----- the exact condition -----

  /** No history in which every lost route is looked up in time routes more than k basis points. */
  ghost predicate WithinWhenLookedUp(cfg: Config, k: nat) {
    forall w, events :: Opens(w) && LooksUp(cfg, w, None, events) && PossibleRun(cfg, w, events) ==>
      Within(k, Execute(cfg, w, events))
  }

  lemma {:induction false} CompleteRunsLookUp(cfg: Config, w: World, events: seq<Event>)
    requires PossibleRun(cfg, w, events) && NoCrash(events)
    ensures LooksUp(cfg, w, None, events)
    decreases |events|
  {
    hide Possible, Step;
    if events != [] {
      CompleteRunsLookUp(cfg, Step(cfg, w, events[0]), events[1..]);
    }
  }

  lemma SmallLossesExceed(cfg: Config, k: nat) returns (w: World, events: seq<Event>)
    requires !Idle(cfg) && !Repairable(cfg) && k < 10000
    ensures Opens(w) && LooksUp(cfg, w, None, events) && PossibleRun(cfg, w, events)
    ensures !Within(k, Execute(cfg, w, events))
  {
    var p, unit := Threshold(cfg), Max(1, cfg.minTransfer);
    var n := k * p + 1;
    w := SmallWorld(cfg, p, 0);
    events := SmallLosses(cfg, None, n);
    SmallLossesRun(cfg, None, p, 0, n);
    hide *;
    ManyExceed(k, p, unit, n);
  }

  lemma ManyExceed(k: nat, p: nat, unit: nat, n: nat)
    requires k < 10000 && unit >= 1 && n == k * p + 1
    ensures 10000 * (n * unit) > k * (p + n * unit)
  {
    MulMono(n, 1, unit);
    MulMono(n * unit, k + 1, 10000);
    assert k * (p + n * unit) == k * p + k * (n * unit);
  }

  /**
   * When runs that die after their transfer are always found by the next run, a rate bounds every
   * history if and only if it bounds the histories of complete runs and every route is large enough
   * to be adopted, or the rate is the whole inflow.
   */
  lemma RecoveryExactly(cfg: Config, k: nat)
    ensures WithinWhenLookedUp(cfg, k)
       <==> Idle(cfg) || k >= 10000 || (k >= Max(cfg.bps, 5000) && Repairable(cfg))
  {
    hide LooksUp, PossibleRun, Execute, Opens, Within, NoCrash, Repairable;
    if Idle(cfg) || k >= 10000 {
      CrashBoundExactly(cfg, k);
    } else if k < Max(cfg.bps, 5000) {
      ShareBoundExactly(cfg, k);
      var w, events :| PossibleRun(cfg, w, events) && Opens(w) && NoCrash(events)
                       && !Within(k, Execute(cfg, w, events));
      CompleteRunsLookUp(cfg, w, events);
    } else if Repairable(cfg) {
      forall w, events | Opens(w) && LooksUp(cfg, w, None, events) && PossibleRun(cfg, w, events)
        ensures Within(k, Execute(cfg, w, events))
      {
        OpensRepaired(cfg, w, k);
        HistoryKeepsRepaired(cfg, w, None, k, events);
      }
    } else {
      var w, events := SmallLossesExceed(cfg, k);
    }
  }

  lemma OpensRepaired(cfg: Config, w: World, k: nat)
    requires Opens(w)
    ensures Repaired(cfg, w, None, k)
  {
  }
}
