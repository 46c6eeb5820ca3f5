/**
 * The creator-fee inflow router: a script that is started again and again, reads a wallet balance,
 * compares it with a stored baseline and routes a basis-point share of the difference to a staking
 * pool.  Amounts are whole lamports.  Deposits, withdrawals, failed and partial transfers and
 * crashes are steps of the surrounding world.
 */
module InflowRouter {
  import opened Common

  /** ROUTE_BPS is clamped to 0..10000 when the script starts. */
  type Bps = n: nat | n <= 10000

  datatype Config = Config(enabled: bool, walletSet: bool, bps: Bps, minTransfer: nat, epsilon: nat)

  /** The persisted state file; an absent signature is the empty string. */
  datatype Store = Store(baseline: Option<int>, observed: Option<nat>, lastTx: string)

  /** The newest pool deposit of the wallet found on chain. */
  datatype Snapshot = Snapshot(tx: string, postBalance: nat)

  datatype Transfer = Failed | Sent(reported: int, tx: string)

  datatype Outcome =
    | Disabled
    | NoWallet
    | ReadFailed
    | Initialized
    | RebasedDown
    | UpToDate
    | BelowMinimum(requested: nat)
    | NotAuthorised(requested: nat)
    | RouteFailed(requested: nat)
    | Routed(requested: nat, reported: nat)

  /** What a run decides before it contacts the staking pool. */
  datatype Plan =
    | Done(store: Store, outcome: Outcome)
    | Ask(baseline: nat, current: nat, lastTx: string, requested: nat)

  // ----- the decisions of one run -----

  function Positive(n: int): nat {
    if n < 0 then 0 else n
  }

  function BaselineAfterRoute(baseline: int, observedAfter: int, routed: int): (r: nat)
    ensures r <= Positive(observedAfter)
    ensures r <= Positive(baseline) + Positive(routed)
    ensures r == Positive(observedAfter) || r == Positive(baseline) + Positive(routed)
  {
    Min(Positive(observedAfter), Positive(baseline) + Positive(routed))
  }

  /** A first run without a baseline takes the on-chain route's post balance when it is plausible. */
  predicate AdoptsFirst(cfg: Config, store: Store, current: nat, snapshot: Option<Snapshot>) {
    && store.baseline.None?
    && snapshot.Some? && snapshot.value.tx != ""
    && snapshot.value.postBalance <= current + cfg.epsilon
  }

  /** With a baseline, a route not seen before is adopted when it lies above the baseline. */
  predicate AdoptsLater(cfg: Config, store: Store, current: nat, snapshot: Option<Snapshot>) {
    && store.baseline.Some?
    && snapshot.Some? && snapshot.value.tx != "" && snapshot.value.tx != store.lastTx
    && snapshot.value.postBalance > Positive(store.baseline.value) + cfg.epsilon
    && snapshot.value.postBalance <= current + cfg.epsilon
  }

  predicate Adopts(cfg: Config, store: Store, current: nat, snapshot: Option<Snapshot>) {
    AdoptsFirst(cfg, store, current, snapshot) || AdoptsLater(cfg, store, current, snapshot)
  }

  /** The baseline the run works with; None when this run has to initialise it. */
  function WorkingBaseline(cfg: Config, store: Store, current: nat, snapshot: Option<Snapshot>): Option<nat> {
    if Adopts(cfg, store, current, snapshot) then Some(snapshot.value.postBalance)
    else if store.baseline.None? then None
    else Some(Positive(store.baseline.value))
  }

  function WorkingTx(cfg: Config, store: Store, current: nat, snapshot: Option<Snapshot>): string {
    if Adopts(cfg, store, current, snapshot) then snapshot.value.tx else store.lastTx
  }

  function Share(cfg: Config, delta: nat): (r: nat)
    ensures 10000 * r <= cfg.bps * delta < 10000 * (r + 1)
    ensures r <= delta
  {
    MulMono(delta, cfg.bps, 10000);
    delta * cfg.bps / 10000
  }

  function MakePlan(cfg: Config, store: Store, reading: Option<nat>, snapshot: Option<Snapshot>): Plan {
    if !cfg.enabled then Done(store, Disabled)
    else if !cfg.walletSet then Done(store, NoWallet)
    else if reading.None? then Done(store, ReadFailed)
    else
      var current := reading.value;
      var working := WorkingBaseline(cfg, store, current, snapshot);
      var tx := WorkingTx(cfg, store, current, snapshot);
      if working.None? then Done(Store(Some(current), Some(current), tx), Initialized)
      else if current + cfg.epsilon < working.value then Done(Store(Some(current), Some(current), tx), RebasedDown)
      else
        var kept := Store(Some(working.value), Some(current), tx);
        var delta := Positive(current - working.value);
        if delta == 0 then Done(kept, UpToDate)
        else if Share(cfg, delta) < cfg.minTransfer then Done(kept, BelowMinimum(Share(cfg, delta)))
        else Ask(working.value, current, tx, Share(cfg, delta))
  }

  /** What the run stores once the pool has answered. */
  function Conclude(plan: Plan, authorised: bool, transfer: Transfer, after: Option<nat>): (Store, Outcome) {
    match plan
    case Done(store, outcome) => (store, outcome)
    case Ask(baseline, current, tx, requested) =>
      var kept := Store(Some(baseline), Some(current), tx);
      if !authorised then (kept, NotAuthorised(requested))
      else if transfer.Failed? then (kept, RouteFailed(requested))
      else
        var routed := Positive(transfer.reported);
        var observed := if after.Some? then after.value else Positive(current - routed);
        (Store(Some(BaselineAfterRoute(baseline, observed, routed)), Some(observed), transfer.tx),
         Routed(requested, routed))
  }

  /** The script itself, with the state file as fields that a run rewrites. */
  class Router {
    const cfg: Config
    var baseline: Option<int>
    var observed: Option<nat>
    var lastTx: string

    function Contents(): Store
      reads this
    {
      Store(baseline, observed, lastTx)
    }

    constructor (cfg: Config)
      ensures this.cfg == cfg && Contents() == Store(None, None, "")
    {
      this.cfg := cfg;
      baseline, observed, lastTx := None, None, "";
    }

    method WriteState(baseline: nat, observed: nat, tx: string)
      modifies this
      ensures Contents() == Store(Some(baseline), Some(observed), tx)
    {
      this.baseline, this.observed, this.lastTx := Some(baseline), Some(observed), tx;
    }

    method Run(reading: Option<nat>, snapshot: Option<Snapshot>, authorised: bool, transfer: Transfer,
               after: Option<nat>) returns (outcome: Outcome)
      modifies this
      ensures (Contents(), outcome)
           == Conclude(MakePlan(cfg, old(Contents()), reading, snapshot), authorised, transfer, after)
    {
      hide Share, BaselineAfterRoute;
      if !cfg.enabled { return Disabled; }
      if !cfg.walletSet { return NoWallet; }
      if reading.None? { return ReadFailed; }
      var current := reading.value;
      var working, tx := baseline, lastTx;
      if working.None? && snapshot.Some? && snapshot.value.tx != ""
         && snapshot.value.postBalance <= current + cfg.epsilon {
        working, tx := Some(snapshot.value.postBalance), snapshot.value.tx;
      }
      if working.None? {
        WriteState(current, current, tx);
        return Initialized;
      }
      var base := Positive(working.value);
      if snapshot.Some? && snapshot.value.tx != "" && snapshot.value.tx != tx
         && snapshot.value.postBalance > base + cfg.epsilon
         && snapshot.value.postBalance <= current + cfg.epsilon {
        base, tx := snapshot.value.postBalance, snapshot.value.tx;
      }
      if current + cfg.epsilon < base {
        WriteState(current, current, tx);
        return RebasedDown;
      }
      var delta := Positive(current - base);
      var requested := Share(cfg, delta);
      if delta == 0 {
        WriteState(base, current, tx);
        return UpToDate;
      }
      if requested < cfg.minTransfer {
        WriteState(base, current, tx);
        return BelowMinimum(requested);
      }
      if !authorised {
        WriteState(base, current, tx);
        return NotAuthorised(requested);
      }
      if transfer.Failed? {
        WriteState(base, current, tx);
        return RouteFailed(requested);
      }
      var routed := Positive(transfer.reported);
      var observedAfter := if after.Some? then after.value else Positive(current - routed);
      WriteState(BaselineAfterRoute(base, observedAfter, routed), observedAfter, transfer.tx);
      return Routed(requested, routed);
    }
  }

  // ----- what every run keeps -----

  predicate WritesBalances(outcome: Outcome) {
    !outcome.Disabled? && !outcome.NoWallet? && !outcome.ReadFailed?
  }

  /** Runs that end without moving funds and without resetting the baseline. */
  predicate Waits(outcome: Outcome) {
    outcome.UpToDate? || outcome.BelowMinimum? || outcome.NotAuthorised? || outcome.RouteFailed?
  }

  /** Inflow above the stored baseline that no route has accounted for. */
  function Pending(balance: nat, store: Store): nat {
    if store.baseline.None? then 0 else Positive(balance - Positive(store.baseline.value))
  }

  lemma StoredBaselineBounded(cfg: Config, store: Store, reading: Option<nat>, snapshot: Option<Snapshot>,
                              authorised: bool, transfer: Transfer, after: Option<nat>)
    ensures
      var (store', outcome) := Conclude(MakePlan(cfg, store, reading, snapshot), authorised, transfer, after);
      if WritesBalances(outcome)
      then store'.baseline.Some? && store'.observed.Some?
           && 0 <= store'.baseline.value <= store'.observed.value + cfg.epsilon
      else store' == store
  {
  }

  /**
   * A run that waits keeps the pending inflow it found, unless it adopted a route found on chain;
   * an adoption raises the baseline, so it can only take inflow off the pending account.
   */
  lemma WaitingLosesNothing(cfg: Config, store: Store, current: nat, snapshot: Option<Snapshot>,
                            authorised: bool, transfer: Transfer, after: Option<nat>)
    requires store.baseline.Some?
    ensures
      var (store', outcome) := Conclude(MakePlan(cfg, store, Some(current), snapshot), authorised, transfer, after);
      Waits(outcome) ==>
        && store'.baseline.value >= Positive(store.baseline.value)
        && Pending(current, store') <= Pending(current, store)
        && (Pending(current, store') == Pending(current, store)
            <==> !AdoptsLater(cfg, store, current, snapshot))
  {
  }

  /**
   * Without an adoption or a route the stored baseline falls exactly when the wallet holds less than
   * the baseline by more than epsilon, and then it falls to the observed balance.
   */
  lemma BaselineFallsOnShortfall(cfg: Config, store: Store, reading: Option<nat>, snapshot: Option<Snapshot>,
                                 authorised: bool, transfer: Transfer, after: Option<nat>)
    requires store.baseline.Some? && store.baseline.value >= 0
    requires reading.Some? ==> !Adopts(cfg, store, reading.value, snapshot)
    ensures
      var (store', outcome) := Conclude(MakePlan(cfg, store, reading, snapshot), authorised, transfer, after);
      !outcome.Routed? ==>
        && (store'.baseline != store.baseline
            <==> cfg.enabled && cfg.walletSet && reading.Some? && reading.value + cfg.epsilon < store.baseline.value)
        && (store'.baseline != store.baseline ==> store'.baseline == Some(reading.value) && outcome.RebasedDown?)
  {
  }

  /** A route is taken into account once: adopted or made by the script itself, it is not adopted again. */
  lemma NoRouteCountsTwice(cfg: Config, store: Store, current: nat, snapshot: Option<Snapshot>, authorised: bool,
                           transfer: Transfer, after: Option<nat>, later: nat, found: Snapshot)
    ensures
      var (store', outcome) := Conclude(MakePlan(cfg, store, Some(current), snapshot), authorised, transfer, after);
      && (outcome.Routed? && found.tx == transfer.tx ==> !Adopts(cfg, store', later, Some(found)))
      && ((cfg.enabled && cfg.walletSet && !outcome.Routed? && Adopts(cfg, store, current, snapshot)
           && found.tx == snapshot.value.tx) ==> !Adopts(cfg, store', later, Some(found)))
  {
  }

  // ----- the world around the script -----

  /** What happens around one run: readings may fail, funds may arrive or leave while it works. */
  datatype Surroundings = Surroundings(readOk: bool, snapshot: Option<Snapshot>, authorised: bool,
                                       transfer: Transfer, arrived: nat, spent: nat, afterOk: bool)

  datatype Event =
    | Deposit(amount: nat)
    | Withdraw(amount: nat)
    | Tick(s: Surroundings)   // a complete run
    | Crash(s: Surroundings)  // the transfer went through, the state file was not written

  /**
   * `inflow` is what was pending when the baseline was first stored plus everything deposited since;
   * `routed` is what routes have moved since then.
   */
  datatype World = World(balance: nat, store: Store, inflow: nat, routed: nat)

  function PlanOf(cfg: Config, w: World, s: Surroundings): Plan {
    MakePlan(cfg, w.store, if s.readOk then Some(w.balance) else None, s.snapshot)
  }

  /** The lamports a run moves. */
  function Moved(cfg: Config, w: World, s: Surroundings): nat {
    if PlanOf(cfg, w, s).Ask? && s.authorised && s.transfer.Sent? then Positive(s.transfer.reported) else 0
  }

  /** A transfer moves what it reports and no more than was requested; balances never go negative. */
  predicate Possible(cfg: Config, w: World, e: Event) {
    match e
    case Deposit(_) => true
    case Withdraw(amount) => amount <= w.balance
    case Tick(s) => FairTransfer(cfg, w, s)
    case Crash(s) => FairTransfer(cfg, w, s)
  }

  predicate FairTransfer(cfg: Config, w: World, s: Surroundings) {
    && (PlanOf(cfg, w, s).Ask? ==> Moved(cfg, w, s) <= PlanOf(cfg, w, s).requested)
    && Moved(cfg, w, s) + s.spent <= w.balance + s.arrived
  }

  function BalanceAfter(cfg: Config, w: World, s: Surroundings): nat
    requires FairTransfer(cfg, w, s)
  {
    w.balance + s.arrived - Moved(cfg, w, s) - s.spent
  }

  function StoreAfter(cfg: Config, w: World, s: Surroundings): Store
    requires FairTransfer(cfg, w, s)
  {
    Conclude(PlanOf(cfg, w, s), s.authorised, s.transfer,
             if s.afterOk then Some(BalanceAfter(cfg, w, s)) else None).0
  }

  /** The inflow account when a run starts its work: it is opened by the run that sets the baseline. */
  function Opening(cfg: Config, w: World, s: Surroundings): nat {
    if w.store.baseline.Some? then w.inflow
    else if AdoptsFirst(cfg, w.store, w.balance, s.snapshot) then Positive(w.balance - s.snapshot.value.postBalance)
    else 0
  }

  function Step(cfg: Config, w: World, e: Event): World
    requires Possible(cfg, w, e)
  {
    match e
    case Deposit(amount) =>
      World(w.balance + amount, w.store, if w.store.baseline.Some? then w.inflow + amount else w.inflow, w.routed)
    case Withdraw(amount) => w.(balance := w.balance - amount)
    case Tick(s) =>
      var store' := StoreAfter(cfg, w, s);
      if store'.baseline.None? then w.(balance := BalanceAfter(cfg, w, s))
      else World(BalanceAfter(cfg, w, s), store', Opening(cfg, w, s) + s.arrived, w.routed + Moved(cfg, w, s))
    case Crash(s) =>
      if w.store.baseline.None? then w.(balance := BalanceAfter(cfg, w, s))
      else World(BalanceAfter(cfg, w, s), w.store, w.inflow + s.arrived, w.routed + Moved(cfg, w, s))
  }

  predicate PossibleRun(cfg: Config, w: World, events: seq<Event>)
    decreases |events|
  {
    events == [] || (Possible(cfg, w, events[0]) && PossibleRun(cfg, Step(cfg, w, events[0]), events[1..]))
  }

  function Execute(cfg: Config, w: World, events: seq<Event>): World
    requires PossibleRun(cfg, w, events)
    decreases |events|
  {
    if events == [] then w else Execute(cfg, Step(cfg, w, events[0]), events[1..])
  }

  /** A world in which the count starts: nothing routed, everything pending counted as inflow. */
  predicate Opens(w: World) {
    w.routed == 0 && w.inflow == Pending(w.balance, w.store)
  }

  // ----- the routed share over whole histories -----

  /** The potential: pending inflow is worth `k` per lamport, a routed lamport 10000. */
  predicate Covered(w: World, k: nat) {
    && 10000 * w.routed + k * Pending(w.balance, w.store) <= k * w.inflow
    && (w.store.baseline.None? ==> w.routed == 0)
  }

  /** A rate no lower than the configured share and no lower than one half. */
  predicate Suffices(cfg: Config, k: nat) {
    cfg.bps <= k && 5000 <= k
  }

  /** A route of m lamports out of p pending leaves at most max(0, p - 2m) pending and pays for itself. */
  lemma RoutePays(cfg: Config, k: nat, p: nat, m: nat)
    requires Suffices(cfg, k) && m <= Share(cfg, p)
    ensures 10000 * m + k * Positive(p - 2 * m) <= k * p
  {
    if p < 2 * m {
      MulMono(p, cfg.bps, k);
    } else {
      MulMono(m, 10000, 2 * k);
      assert k * (p - 2 * m) == k * p - 2 * k * m;
    }
  }

  /**
   * What a complete run does to the accounts: `p` is the pending inflow it works on, `m` what it
   * moves, and at most max(0, p - 2m) of `p` is left pending beside what arrived meanwhile.
   */
  lemma TickAccounts(cfg: Config, w: World, s: Surroundings) returns (p: nat, m: nat)
    requires FairTransfer(cfg, w, s) && StoreAfter(cfg, w, s).baseline.Some?
    ensures p <= if w.store.baseline.Some? then Pending(w.balance, w.store) else Opening(cfg, w, s)
    ensures m <= Share(cfg, p)
    ensures
      var w' := Step(cfg, w, Tick(s));
      && w'.store.baseline.Some?
      && w'.routed == w.routed + m && w'.inflow == Opening(cfg, w, s) + s.arrived
      && Pending(w'.balance, w'.store) <= Positive(p - 2 * m) + s.arrived
  {
    var plan := PlanOf(cfg, w, s);
    m := Moved(cfg, w, s);
    if plan.Ask? {
      p := w.balance - plan.baseline;
    } else {
      p := Positive(w.balance - Positive(StoreAfter(cfg, w, s).baseline.value));
    }
  }

  /** Adding up: what the route costs, what it leaves and what arrives meanwhile. */
  lemma CoverAddsUp(cfg: Config, k: nat, routed: nat, inflow: nat, p0: nat, p: nat, m: nat, arrived: nat, w': World)
    requires Suffices(cfg, k)
    requires 10000 * routed + k * p0 <= k * inflow
    requires p <= p0 && m <= Share(cfg, p)
    requires w'.store.baseline.Some? && w'.routed == routed + m && w'.inflow == inflow + arrived
    requires Pending(w'.balance, w'.store) <= Positive(p - 2 * m) + arrived
    ensures Covered(w', k)
  {
    var left, p' := Positive(p - 2 * m), Pending(w'.balance, w'.store);
    RoutePays(cfg, k, p, m);
    MulMono(k, p, p0);
    MulMono(k, p', left + arrived);
    assert k * (left + arrived) == k * left + k * arrived;
    assert k * (inflow + arrived) == k * inflow + k * arrived;
  }

  lemma TickKeepsCover(cfg: Config, k: nat, w: World, s: Surroundings)
    requires Suffices(cfg, k)
    requires FairTransfer(cfg, w, s) && StoreAfter(cfg, w, s).baseline.Some?
    requires Covered(w, k)
    ensures Covered(Step(cfg, w, Tick(s)), k)
  {
    var p, m := TickAccounts(cfg, w, s);
    var p0 := if w.store.baseline.Some? then Pending(w.balance, w.store) else Opening(cfg, w, s);
    CoverAddsUp(cfg, k, w.routed, Opening(cfg, w, s), p0, p, m, s.arrived, Step(cfg, w, Tick(s)));
  }

  lemma StepKeepsCover(cfg: Config, k: nat, w: World, e: Event)
    requires Possible(cfg, w, e) && !e.Crash?
    requires Suffices(cfg, k) && Covered(w, k)
    ensures Covered(Step(cfg, w, e), k)
  {
    var w' := Step(cfg, w, e);
    match e
    case Deposit(amount) =>
      MulMono(k, Pending(w'.balance, w'.store) + w.inflow, Pending(w.balance, w.store) + w'.inflow);
    case Withdraw(amount) =>
      MulMono(k, Pending(w'.balance, w'.store), Pending(w.balance, w.store));
    case Tick(s) =>
      if StoreAfter(cfg, w, s).baseline.Some? {
        TickKeepsCover(cfg, k, w, s);
      }
  }

  lemma {:induction false} RunKeepsCover(cfg: Config, k: nat, w: World, events: seq<Event>)
    requires PossibleRun(cfg, w, events)
    requires forall e <- events :: !e.Crash?
    requires Suffices(cfg, k) && Covered(w, k)
    ensures Covered(Execute(cfg, w, events), k)
    decreases |events|
  {
    if events != [] {
      StepKeepsCover(cfg, k, w, events[0]);
      RunKeepsCover(cfg, k, Step(cfg, w, events[0]), events[1..]);
    }
  }

  /**
   * Over every history of deposits, withdrawals, failed and partial routes, adoptions and rebases,
   * routes move at most the configured share of the inflow, or half of it when the share is smaller.
   */
  lemma RoutedShareBounded(cfg: Config, w: World, events: seq<Event>)
    requires PossibleRun(cfg, w, events)
    requires forall e <- events :: !e.Crash?
    requires Opens(w)
    ensures var w' := Execute(cfg, w, events); 10000 * w'.routed <= Max(cfg.bps, 5000) * w'.inflow
  {
    var k := Max(cfg.bps, 5000);
    RunKeepsCover(cfg, k, w, events);
    MulMono(k, 0, Pending(Execute(cfg, w, events).balance, Execute(cfg, w, events).store));
  }

  // ----- crashes between the transfer and the state file -----

  lemma AnyStepKeepsFullCover(cfg: Config, w: World, e: Event)
    requires Possible(cfg, w, e)
    requires Covered(w, 10000)
    ensures Covered(Step(cfg, w, e), 10000)
  {
    if e.Tick? && Step(cfg, w, e).store.baseline.Some? {
      TickKeepsCover(cfg, 10000, w, e.s);
    } else if e.Crash? && PlanOf(cfg, w, e.s).Ask? {
      var plan := PlanOf(cfg, w, e.s);
      MulMono(plan.current - plan.baseline, cfg.bps, 10000);
    }
  }

  /** Even when runs crash after their transfer, no lamport of inflow is routed twice. */
  lemma {:induction false} CrashesNeverOverspend(cfg: Config, w: World, events: seq<Event>)
    requires PossibleRun(cfg, w, events)
    requires Opens(w) || Covered(w, 10000)
    ensures var w' := Execute(cfg, w, events); Covered(w', 10000) && w'.routed <= w'.inflow
    decreases |events|
  {
    if events != [] {
      AnyStepKeepsFullCover(cfg, w, events[0]);
      CrashesNeverOverspend(cfg, Step(cfg, w, events[0]), events[1..]);
    }
  }

  /** A run over a zero baseline that moves half of the wallet and crashes before it writes its state. */
  lemma LostHalf(cfg: Config, w: World, s: Surroundings)
    requires cfg == Config(true, true, 5000, 1, 1)
    requires w.store == Store(Some(0), None, "") && w.balance >= 2
    requires s == Surroundings(true, None, true, Sent(w.balance / 2, "t"), 0, 0, true)
    ensures Possible(cfg, w, Crash(s))
    ensures Step(cfg, w, Crash(s))
         == World(w.balance - w.balance / 2, w.store, w.inflow, w.routed + w.balance / 2)
  {
    assert Share(cfg, w.balance) == w.balance / 2;
    assert PlanOf(cfg, w, s) == Ask(0, w.balance, "", w.balance / 2);
  }

  /** The share bound itself does not survive crashes: two lost state files route 75 of 100 at 50%. */
  lemma CrashBreaksShare(cfg: Config, w: World, s: Surroundings, events: seq<Event>)
    requires cfg == Config(true, true, 5000, 1, 1)
    requires w == World(100, Store(Some(0), None, ""), 100, 0)
    requires s == Surroundings(true, None, true, Sent(50, "t"), 0, 0, true)
    requires events == [Crash(s), Crash(s.(transfer := Sent(25, "t")))]
    ensures Opens(w) && PossibleRun(cfg, w, events)
    ensures Execute(cfg, w, events).routed == 75 && Execute(cfg, w, events).inflow == 100
  {
    LostHalf(cfg, w, s);
    var w1 := World(50, w.store, 100, 50);
    LostHalf(cfg, w1, s.(transfer := Sent(25, "t")));
    var w2 := World(25, w.store, 100, 75);
    var rest := events[1..];
    assert rest == [events[1]] && rest[1..] == [];
    assert PossibleRun(cfg, w2, []) && Execute(cfg, w2, []) == w2;
    assert PossibleRun(cfg, w1, rest) && Execute(cfg, w1, rest) == w2;
  }

  // ----- coming to rest -----

  /** A run in a quiet world whose transfer moves exactly what was requested. */
  function Exact(cfg: Config, w: World, afterOk: bool): (s: Surroundings)
    ensures FairTransfer(cfg, w, s)
  {
    var plan := MakePlan(cfg, w.store, Some(w.balance), None);
    Surroundings(true, None, true, Sent(if plan.Ask? then plan.requested else 0, w.store.lastTx), 0, 0, afterOk)
  }

  function Settle(cfg: Config, w: World, runs: nat): World
    decreases runs
  {
    if runs == 0 then w else Settle(cfg, Step(cfg, w, Tick(Exact(cfg, w, true))), runs - 1)
  }

  /** The next exact run would leave the wallet alone. */
  predicate AtRest(cfg: Config, w: World) {
    !MakePlan(cfg, w.store, Some(w.balance), None).Ask?
  }

  predicate Operational(cfg: Config, w: World) {
    cfg.enabled && cfg.walletSet && w.store.baseline.Some?
  }

  /** The pending share is below the smallest amount that a transfer would move. */
  predicate Drained(cfg: Config, w: World) {
    Share(cfg, Pending(w.balance, w.store)) < Max(1, cfg.minTransfer)
  }

  lemma ExactRun(cfg: Config, w: World, afterOk: bool)
    requires Operational(cfg, w)
    ensures
      var w' := Step(cfg, w, Tick(Exact(cfg, w, afterOk)));
      var p, p', m := Pending(w.balance, w.store), Pending(w'.balance, w'.store), w'.routed - w.routed;
      && Operational(cfg, w') && w'.inflow == w.inflow
      && (Drained(cfg, w) ==> m == 0 && p' == p)
      && (!Drained(cfg, w) ==> m == Share(cfg, p) >= 1 && p' == Positive(p - 2 * m))
  {
  }

  /** A share of at most one half of something positive is at most half of it. */
  lemma ShareAtMostHalf(cfg: Config, p: nat)
    ensures cfg.bps <= 5000 ==> 2 * Share(cfg, p) <= p
  {
    if cfg.bps <= 5000 {
      MulMono(p, cfg.bps, 5000);
    }
  }

  /**
   * With exact transfers and no new deposits the script comes to rest after at most as many runs as
   * there are pending lamports; without a minimum transfer it may go on asking for nothing.
   */
  lemma {:induction false} Settles(cfg: Config, w: World, runs: nat)
    requires Operational(cfg, w)
    requires runs >= Pending(w.balance, w.store)
    ensures
      var w' := Settle(cfg, w, runs);
      && Operational(cfg, w') && Drained(cfg, w') && w'.inflow == w.inflow
      && (cfg.minTransfer >= 1 ==> AtRest(cfg, w'))
      && (cfg.bps <= 5000 ==>
            Pending(w'.balance, w'.store) + 2 * w'.routed == Pending(w.balance, w.store) + 2 * w.routed)
    decreases runs
  {
    if runs > 0 {
      ExactRun(cfg, w, true);
      ShareAtMostHalf(cfg, Pending(w.balance, w.store));
      hide AtRest, Share, Exact, Step, MakePlan, Drained;
      var w1 := Step(cfg, w, Tick(Exact(cfg, w, true)));
      if Drained(cfg, w) {
        RestingStays(cfg, w, runs);
      } else {
        Settles(cfg, w1, runs - 1);
      }
    }
  }

  lemma {:induction false} RestingStays(cfg: Config, w: World, runs: nat)
    requires Operational(cfg, w) && Drained(cfg, w)
    ensures
      var w' := Settle(cfg, w, runs);
      && Operational(cfg, w') && Drained(cfg, w') && w'.inflow == w.inflow && w'.routed == w.routed
      && Pending(w'.balance, w'.store) == Pending(w.balance, w.store)
      && (cfg.minTransfer >= 1 ==> AtRest(cfg, w'))
    decreases runs
  {
    if runs > 0 {
      ExactRun(cfg, w, true);
      RestingStays(cfg, Step(cfg, w, Tick(Exact(cfg, w, true))), runs - 1);
    }
  }
}
