/** Single runs of the inflow router, with every condition on readings, state file and chain written out. */
module InflowRuns {
  import opened Common
  import opened InflowRouter

  /** The largest whole number of lamports within the share of the pending amount. */
  predicate IsShare(cfg: Config, pending: int, requested: nat) {
    10000 * requested <= cfg.bps * pending < 10000 * requested + 10000
  }

  function AtLeastZero(n: int): nat {
    if n >= 0 then n else 0
  }

  /** What a transfer leaves: the wallet as read afterwards, and the baseline moved on by what was routed. */
  predicate StoredAfterRoute(base: nat, current: nat, routed: nat, tx: string, after: Option<nat>, store': Store) {
    && store'.lastTx == tx && store'.baseline.Some? && store'.observed.Some?
    && store'.observed.value == (if after.Some? then after.value else AtLeastZero(current - routed))
    && store'.baseline.value <= base + routed && store'.baseline.value <= store'.observed.value
    && (store'.baseline.value == base + routed || store'.baseline.value == store'.observed.value)
  }

  /** What a run with something pending stores and reports, given the amount it requests. */
  predicate RunsWith(cfg: Config, base: nat, tx: string, current: nat, authorised: bool, transfer: Transfer,
                     after: Option<nat>, requested: nat, store': Store, outcome: Outcome)
  {
    var kept := Store(Some(base), Some(current), tx);
    && IsShare(cfg, current - base, requested)
    && if requested < cfg.minTransfer then outcome == BelowMinimum(requested) && store' == kept
       else if !authorised then outcome == NotAuthorised(requested) && store' == kept
       else if transfer.Failed? then outcome == RouteFailed(requested) && store' == kept
       else && outcome == Routed(requested, AtLeastZero(transfer.reported))
            && StoredAfterRoute(base, current, AtLeastZero(transfer.reported), transfer.tx, after, store')
  }

  /** What a run that measures `current` against the baseline `base` stores and reports. */
  ghost predicate RunsOn(cfg: Config, base: nat, tx: string, current: nat, authorised: bool, transfer: Transfer,
                         after: Option<nat>, store': Store, outcome: Outcome)
  {
    if current + cfg.epsilon < base then outcome == RebasedDown && store' == Store(Some(current), Some(current), tx)
    else if current <= base then outcome == UpToDate && store' == Store(Some(base), Some(current), tx)
    else exists requested: nat ::
      RunsWith(cfg, base, tx, current, authorised, transfer, after, requested, store', outcome)
  }

  lemma ConcludesOn(cfg: Config, plan: Plan, base: nat, tx: string, current: nat, authorised: bool,
                    transfer: Transfer, after: Option<nat>)
    requires plan == PlanFrom(cfg, base, tx, current)
    ensures
      var (store', outcome) := Conclude(plan, authorised, transfer, after);
      RunsOn(cfg, base, tx, current, authorised, transfer, after, store', outcome)
  {
    if current > base {
      var (store', outcome) := Conclude(plan, authorised, transfer, after);
      RequestConcludes(cfg, base, tx, current, authorised, transfer, after);
      hide Conclude, PlanFrom, Share, RunsWith;
      assert RunsWith(cfg, base, tx, current, authorised, transfer, after, Share(cfg, current - base), store', outcome);
    }
  }

  lemma RequestConcludes(cfg: Config, base: nat, tx: string, current: nat, authorised: bool, transfer: Transfer,
                         after: Option<nat>)
    requires current > base
    ensures
      var (store', outcome) := Conclude(PlanFrom(cfg, base, tx, current), authorised, transfer, after);
      RunsWith(cfg, base, tx, current, authorised, transfer, after, Share(cfg, current - base), store', outcome)
  {
    assert IsShare(cfg, current - base, Share(cfg, current - base));
    hide Share, IsShare;
  }

  /** The decision on a given baseline. */
  function PlanFrom(cfg: Config, base: nat, tx: string, current: nat): Plan {
    if current + cfg.epsilon < base then Done(Store(Some(current), Some(current), tx), RebasedDown)
    else if current <= base then Done(Store(Some(base), Some(current), tx), UpToDate)
    else if Share(cfg, current - base) < cfg.minTransfer
    then Done(Store(Some(base), Some(current), tx), BelowMinimum(Share(cfg, current - base)))
    else Ask(base, current, tx, Share(cfg, current - base))
  }

  /**
   * A first run, without a stored baseline: it starts from the balance that the newest route on chain
   * left when this is not above the wallet by more than epsilon, and else it only notes the balance.
   */
  lemma FirstRun(cfg: Config, store: Store, current: nat, snapshot: Option<Snapshot>, authorised: bool,
                 transfer: Transfer, after: Option<nat>)
    requires cfg.enabled && cfg.walletSet && store.baseline.None?
    ensures
      var (store', outcome) := Conclude(MakePlan(cfg, store, Some(current), snapshot), authorised, transfer, after);
      if snapshot.Some? && snapshot.value.tx != "" && snapshot.value.postBalance <= current + cfg.epsilon
      then && RunsOn(cfg, snapshot.value.postBalance, snapshot.value.tx, current, authorised, transfer, after,
                     store', outcome)
           && outcome != Initialized && outcome != RebasedDown
      else outcome == Initialized && store' == Store(Some(current), Some(current), store.lastTx)
  {
    if snapshot.Some? && snapshot.value.tx != "" && snapshot.value.postBalance <= current + cfg.epsilon {
      var base, tx := snapshot.value.postBalance, snapshot.value.tx;
      hide Share;
      assert MakePlan(cfg, store, Some(current), snapshot) == PlanFrom(cfg, base, tx, current);
      ConcludesOn(cfg, PlanFrom(cfg, base, tx, current), base, tx, current, authorised, transfer, after);
    }
  }

  /**
   * A later run: a route on chain with another signature than the stored one, which left more than the
   * baseline plus epsilon and not more than the wallet plus epsilon, replaces the baseline.
   */
  lemma LaterRun(cfg: Config, store: Store, current: nat, snapshot: Option<Snapshot>, authorised: bool,
                 transfer: Transfer, after: Option<nat>)
    requires cfg.enabled && cfg.walletSet && store.baseline.Some?
    ensures
      var (store', outcome) := Conclude(MakePlan(cfg, store, Some(current), snapshot), authorised, transfer, after);
      var b := AtLeastZero(store.baseline.value);
      if snapshot.Some? && snapshot.value.tx != "" && snapshot.value.tx != store.lastTx
         && b + cfg.epsilon < snapshot.value.postBalance <= current + cfg.epsilon
      then RunsOn(cfg, snapshot.value.postBalance, snapshot.value.tx, current, authorised, transfer, after,
                  store', outcome)
      else RunsOn(cfg, b, store.lastTx, current, authorised, transfer, after, store', outcome)
  {
    var b := AtLeastZero(store.baseline.value);
    var adopted := snapshot.Some? && snapshot.value.tx != "" && snapshot.value.tx != store.lastTx
                   && b + cfg.epsilon < snapshot.value.postBalance <= current + cfg.epsilon;
    var base := if adopted then snapshot.value.postBalance else b;
    var tx := if adopted then snapshot.value.tx else store.lastTx;
    hide Share;
    assert MakePlan(cfg, store, Some(current), snapshot) == PlanFrom(cfg, base, tx, current);
    ConcludesOn(cfg, PlanFrom(cfg, base, tx, current), base, tx, current, authorised, transfer, after);
  }

  /** Runs that end before they look at the state file, in the order in which the script asks. */
  lemma NoRun(cfg: Config, store: Store, reading: Option<nat>, snapshot: Option<Snapshot>, authorised: bool,
              transfer: Transfer, after: Option<nat>)
    requires !cfg.enabled || !cfg.walletSet || reading.None?
    ensures Conclude(MakePlan(cfg, store, reading, snapshot), authorised, transfer, after)
         == (store, if !cfg.enabled then Disabled else if !cfg.walletSet then NoWallet else ReadFailed)
  {
  }
}
