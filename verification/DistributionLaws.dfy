/** What every run of the distribution engine, and every sequence of runs, keeps. */
module DistributionLaws {
  import opened Common
  import opened DistributionEngine

  // ----- reading the receipt log -----

  predicate Is(r: Receipt, ch: Channel, ok: bool) {
    r.channel == ch && r.status == if ok then Success else Failure
  }

  /** Successful (or failed) sends on one channel among the receipts from position `from` on. */
  function Count(log: seq<Receipt>, from: nat, ch: Channel, ok: bool): nat {
    if |log| <= from then 0
    else Count(log[..|log| - 1], from, ch, ok) + if Is(log[|log| - 1], ch, ok) then 1 else 0
  }

  /** Successful (or failed) sends on all channels. */
  function Total(log: seq<Receipt>, from: nat, ok: bool): nat {
    if |log| <= from then 0
    else Total(log[..|log| - 1], from, ok) + if Is(log[|log| - 1], log[|log| - 1].channel, ok) then 1 else 0
  }

  function Skips(log: seq<Receipt>, from: nat): nat {
    if |log| <= from then 0
    else Skips(log[..|log| - 1], from) + if log[|log| - 1].Attempt() then 0 else 1
  }

  /** Failures on a channel since its last success, counted on top of `start` earlier ones. */
  function Trailing(start: nat, log: seq<Receipt>, from: nat, ch: Channel): nat {
    if |log| <= from then start
    else
      var before := Trailing(start, log[..|log| - 1], from, ch);
      var r := log[|log| - 1];
      if Is(r, ch, true) then 0 else if Is(r, ch, false) then before + 1 else before
  }

  lemma Appended(log: seq<Receipt>, r: Receipt, from: nat, start: nat, ch: Channel)
    requires from <= |log|
    ensures forall ok :: Count(log + [r], from, ch, ok) == Count(log, from, ch, ok) + if Is(r, ch, ok) then 1 else 0
    ensures forall ok :: Total(log + [r], from, ok) == Total(log, from, ok) + if Is(r, r.channel, ok) then 1 else 0
    ensures Skips(log + [r], from) == Skips(log, from) + if r.Attempt() then 0 else 1
    ensures Trailing(start, log + [r], from, ch) ==
            if Is(r, ch, true) then 0
            else if Is(r, ch, false) then Trailing(start, log, from, ch) + 1
            else Trailing(start, log, from, ch)
  {
    assert (log + [r])[..|log|] == log;
  }

  lemma {:induction false} LogSplits(log: seq<Receipt>, from: nat)
    requires from <= |log|
    ensures Total(log, from, true) + Total(log, from, false) + Skips(log, from) == |log| - from
    decreases |log|
  {
    if |log| > from {
      LogSplits(log[..|log| - 1], from);
    }
  }

  // ----- invariants of the stored state -----

  function Until(state: State, ch: Channel): Option<Time> {
    if ch in state.cooldownUntil then Some(state.cooldownUntil[ch]) else None
  }

  /** The stored daily count is the number of successful sends since the day reset, under the cap. */
  ghost predicate CountsMatch(cfg: Config, w: World) {
    && w.dayStart <= |w.log|
    && forall ch :: Get(w.state.counts, ch, 0) == Count(w.log, w.dayStart, ch, true) <= cfg.maxPerDay
  }

  ghost predicate StreaksBelow(cfg: Config, w: World) {
    forall ch :: Get(w.state.streaks, ch, 0) < cfg.failureThreshold
  }

  /** The cache still holds the send at position i, or a later one of the same message. */
  predicate Kept(w: World, i: nat)
    requires i < |w.log|
  {
    var r := w.log[i];
    r.channel in w.state.recent && r.digest in w.state.recent[r.channel]
    && w.state.recent[r.channel][r.digest] >= r.at
  }

  /** A send of the current day is in the cache unless it is older than twice the content cooldown. */
  ghost predicate Remembered(cfg: Config, w: World) {
    forall i :: w.dayStart <= i < |w.log| && w.log[i].status.Success? ==>
      w.log[i].at <= w.latest && (Kept(w, i) || w.log[i].at + 2 * cfg.contentCooldown < w.latest)
  }

  predicate SameContent(a: Receipt, b: Receipt) {
    a.status.Success? && b.status.Success? && a.channel == b.channel && a.digest == b.digest
  }

  /** Two successful sends of one message on one channel within the day lie a cooldown apart. */
  ghost predicate Spaced(cfg: Config, w: World) {
    forall i, j :: w.dayStart <= i < j < |w.log| && SameContent(w.log[i], w.log[j]) ==>
      w.log[j].at - w.log[i].at >= cfg.contentCooldown
  }

  ghost predicate WorldOk(cfg: Config, w: World) {
    CountsMatch(cfg, w) && StreaksBelow(cfg, w) && Remembered(cfg, w) && Spaced(cfg, w)
  }

  // ----- invariants of a run in progress, against its first state `b` -----

  /** The clock never runs backwards during the run. */
  ghost predicate Clocked(env: Env, from: nat) {
    && (forall i: nat :: from <= i ==> env.now <= env.clock(i) <= env.prune(i))
    && (forall i: nat, j: nat :: from <= i < j ==> env.prune(i) <= env.clock(j))
  }

  ghost predicate Timely(env: Env, w: World) {
    env.now <= w.latest && forall i: nat :: |w.log| <= i ==> w.latest <= env.clock(i)
  }

  ghost predicate Extends(b: World, w: World) {
    b.log <= w.log && w.dayStart == b.dayStart && w.state.day == b.state.day
  }

  /**
   * Streaks and cooldowns are what replaying the run's receipts gives: below the threshold the
   * streak is the number of trailing failures, and once the threshold is reached the channel cools
   * down from the start of the run.
   */
  ghost predicate Replayed(cfg: Config, env: Env, b: World, w: World) {
    forall ch ::
      var failures := Trailing(Get(b.state.streaks, ch, 0), w.log, |b.log|, ch);
      if failures < cfg.failureThreshold
      then Get(w.state.streaks, ch, 0) == failures && Until(w.state, ch) == Until(b.state, ch)
      else Get(w.state.streaks, ch, 0) == 0 && Until(w.state, ch) == Some(env.now + cfg.channelCooldown)
  }

  /** An attempt was made on an enabled channel under its cap that was not cooling down or tripped. */
  ghost predicate Allowed(cfg: Config, env: Env, b: World, before: seq<Receipt>, ch: Channel) {
    && ch in env.enabled
    && !IsCooldown(b.state, ch, env.now)
    && Trailing(Get(b.state.streaks, ch, 0), before, |b.log|, ch) < cfg.failureThreshold
    && Count(before, b.dayStart, ch, true) < cfg.maxPerDay
  }

  ghost predicate AttemptsAllowed(cfg: Config, env: Env, b: World, w: World) {
    forall i :: |b.log| <= i < |w.log| && w.log[i].Attempt() ==>
      Allowed(cfg, env, b, w.log[..i], w.log[i].channel)
  }

  /** The summary counters are what the run's receipts say. */
  ghost predicate Tallied(b: World, p: Progress) {
    var log, from, t := p.w.log, |b.log|, p.tally;
    && t.successful == Total(log, from, true)
    && t.failed == Total(log, from, false)
    && t.attempted == t.successful + t.failed
    && t.receipts == |log| - from
    && forall ch ::
         var s, f := Count(log, from, ch, true), Count(log, from, ch, false);
         Get(t.stats, ch, Stat(0, 0, 0)) == Stat(s + f, s, f)
  }

  ghost predicate RunOk(cfg: Config, env: Env, b: World, p: Progress) {
    && cfg.Valid() && Clocked(env, |b.log|)
    && Timely(env, p.w) && Extends(b, p.w) && WorldOk(cfg, p.w)
    && Replayed(cfg, env, b, p.w) && AttemptsAllowed(cfg, env, b, p.w) && Tallied(b, p)
  }

  // ----- one attempt keeps them -----

  lemma AttemptKeepsCounts(cfg: Config, env: Env, p: Progress, cand: Candidate, ch: Channel)
    requires CountsMatch(cfg, p.w)
    requires Obstacle(cfg, env, p.w.state, ch, cand.message).None?
    ensures CountsMatch(cfg, Attempt(cfg, env, p, cand, ch).w)
  {
    var w' := Attempt(cfg, env, p, cand, ch).w;
    forall c ensures Get(w'.state.counts, c, 0) == Count(w'.log, w'.dayStart, c, true) <= cfg.maxPerDay {
      Appended(p.w.log, w'.log[|p.w.log|], p.w.dayStart, 0, c);
    }
  }

  lemma AttemptKeepsReplay(cfg: Config, env: Env, b: World, p: Progress, cand: Candidate, ch: Channel)
    requires cfg.Valid() && Extends(b, p.w) && Replayed(cfg, env, b, p.w)
    requires !IsCooldown(p.w.state, ch, env.now)
    ensures Replayed(cfg, env, b, Attempt(cfg, env, p, cand, ch).w)
    ensures Trailing(Get(b.state.streaks, ch, 0), p.w.log, |b.log|, ch) < cfg.failureThreshold
    ensures !IsCooldown(b.state, ch, env.now)
  {
    var w' := Attempt(cfg, env, p, cand, ch).w;
    forall c
      ensures
        var failures := Trailing(Get(b.state.streaks, c, 0), w'.log, |b.log|, c);
        if failures < cfg.failureThreshold
        then Get(w'.state.streaks, c, 0) == failures && Until(w'.state, c) == Until(b.state, c)
        else Get(w'.state.streaks, c, 0) == 0 && Until(w'.state, c) == Some(env.now + cfg.channelCooldown)
    {
      Appended(p.w.log, w'.log[|p.w.log|], |b.log|, Get(b.state.streaks, c, 0), c);
    }
  }

  lemma AttemptKeepsAllowed(cfg: Config, env: Env, b: World, p: Progress, cand: Candidate, ch: Channel)
    requires Extends(b, p.w) && AttemptsAllowed(cfg, env, b, p.w)
    requires Allowed(cfg, env, b, p.w.log, ch)
    ensures AttemptsAllowed(cfg, env, b, Attempt(cfg, env, p, cand, ch).w)
  {
    var w' := Attempt(cfg, env, p, cand, ch).w;
    forall i | |b.log| <= i < |w'.log| && w'.log[i].Attempt()
      ensures Allowed(cfg, env, b, w'.log[..i], w'.log[i].channel)
    {
      assert w'.log[..i] == p.w.log[..i];
      if i == |p.w.log| {
        assert p.w.log[..i] == p.w.log;
      }
    }
  }

  lemma AttemptKeepsStreaks(cfg: Config, env: Env, p: Progress, cand: Candidate, ch: Channel)
    requires cfg.Valid() && StreaksBelow(cfg, p.w)
    ensures StreaksBelow(cfg, Attempt(cfg, env, p, cand, ch).w)
  {
    forall c ensures Get(Attempt(cfg, env, p, cand, ch).w.state.streaks, c, 0) < cfg.failureThreshold {
      assert Get(p.w.state.streaks, c, 0) < cfg.failureThreshold;
    }
  }

  lemma AttemptKeepsMemory(cfg: Config, env: Env, from: nat, p: Progress, cand: Candidate, ch: Channel)
    requires from <= |p.w.log| && Clocked(env, from) && Timely(env, p.w)
    requires Remembered(cfg, p.w)
    ensures Remembered(cfg, Attempt(cfg, env, p, cand, ch).w)
  {
    var w, w', n := p.w, Attempt(cfg, env, p, cand, ch).w, |p.w.log|;
    assert env.now <= env.clock(n) <= env.prune(n);
    forall i | w'.dayStart <= i < |w'.log| && w'.log[i].status.Success?
      ensures w'.log[i].at <= w'.latest && (Kept(w', i) || w'.log[i].at + 2 * cfg.contentCooldown < w'.latest)
    {
      if i < n {
        assert w'.log[i] == w.log[i];
        assert Kept(w, i) || w.log[i].at + 2 * cfg.contentCooldown < w.latest;
      }
    }
  }

  lemma AttemptKeepsSpacing(cfg: Config, env: Env, p: Progress, cand: Candidate, ch: Channel)
    requires env.now <= env.clock(|p.w.log|) && Timely(env, p.w)
    requires Remembered(cfg, p.w) && Spaced(cfg, p.w)
    requires Obstacle(cfg, env, p.w.state, ch, cand.message).None?
    ensures Spaced(cfg, Attempt(cfg, env, p, cand, ch).w)
  {
    var w, w', n := p.w, Attempt(cfg, env, p, cand, ch).w, |p.w.log|;
    forall i, j | w'.dayStart <= i < j < |w'.log| && SameContent(w'.log[i], w'.log[j])
      ensures w'.log[j].at - w'.log[i].at >= cfg.contentCooldown
    {
      assert w'.log[i] == w.log[i];
      if j == n {
        assert Kept(w, i) || w.log[i].at + 2 * cfg.contentCooldown < w.latest;
      } else {
        assert w'.log[j] == w.log[j];
      }
    }
  }

  lemma AttemptKeepsTally(cfg: Config, env: Env, b: World, p: Progress, cand: Candidate, ch: Channel)
    requires Extends(b, p.w) && Tallied(b, p)
    ensures Tallied(b, Attempt(cfg, env, p, cand, ch))
  {
    var p' := Attempt(cfg, env, p, cand, ch);
    var r := p'.w.log[|p.w.log|];
    Appended(p.w.log, r, |b.log|, 0, ch);
    forall c
      ensures
        var s, f := Count(p'.w.log, |b.log|, c, true), Count(p'.w.log, |b.log|, c, false);
        Get(p'.tally.stats, c, Stat(0, 0, 0)) == Stat(s + f, s, f)
    {
      Appended(p.w.log, r, |b.log|, 0, c);
    }
  }

  lemma AttemptKeeps(cfg: Config, env: Env, b: World, p: Progress, cand: Candidate, ch: Channel)
    requires RunOk(cfg, env, b, p)
    requires Obstacle(cfg, env, p.w.state, ch, cand.message).None?
    ensures RunOk(cfg, env, b, Attempt(cfg, env, p, cand, ch))
  {
    AttemptKeepsCounts(cfg, env, p, cand, ch);
    AttemptKeepsReplay(cfg, env, b, p, cand, ch);
    AttemptKeepsAllowed(cfg, env, b, p, cand, ch);
    AttemptKeepsStreaks(cfg, env, p, cand, ch);
    AttemptKeepsMemory(cfg, env, |b.log|, p, cand, ch);
    AttemptKeepsSpacing(cfg, env, p, cand, ch);
    AttemptKeepsTally(cfg, env, b, p, cand, ch);
  }

  // ----- whole candidates, whole runs -----

  lemma AttemptGrows(cfg: Config, env: Env, b: World, p: Progress, cand: Candidate, ch: Channel)
    requires RunOk(cfg, env, b, p)
    ensures
      var p' := Attempt(cfg, env, p, cand, ch);
      && p.w.log <= p'.w.log && p'.tally.skipped == p.tally.skipped
      && p'.tally.successful == p.tally.successful + (if env.accepts(|p.w.log|) then 1 else 0)
      && Skips(p'.w.log, |b.log|) == Skips(p.w.log, |b.log|)
  {
    Appended(p.w.log, Attempt(cfg, env, p, cand, ch).w.log[|p.w.log|], |b.log|, 0, ch);
  }

  lemma {:induction false} WalkKeeps(cfg: Config, env: Env, b: World, p: Progress, cand: Candidate,
                                     route: seq<Channel>, last: Reason)
    requires RunOk(cfg, env, b, p)
    ensures
      var (p', failure) := Walk(cfg, env, p, cand, route, last);
      && RunOk(cfg, env, b, p')
      && p.w.log <= p'.w.log && p'.tally.skipped == p.tally.skipped
      && p'.tally.successful == p.tally.successful + (if failure.None? then 1 else 0)
      && Skips(p'.w.log, |b.log|) == Skips(p.w.log, |b.log|)
    decreases |route|
  {
    hide RunOk, Attempt, Obstacle;
    if route != [] {
      if Obstacle(cfg, env, p.w.state, route[0], cand.message).Some? {
        WalkKeeps(cfg, env, b, p, cand, route[1..], Obstacle(cfg, env, p.w.state, route[0], cand.message).value);
      } else {
        AttemptKeeps(cfg, env, b, p, cand, route[0]);
        AttemptGrows(cfg, env, b, p, cand, route[0]);
        var p1 := Attempt(cfg, env, p, cand, route[0]);
        if !env.accepts(|p.w.log|) {
          WalkKeeps(cfg, env, b, p1, cand, route[1..], SendFailed);
        }
      }
    }
  }

  lemma SkipKeeps(cfg: Config, env: Env, b: World, p: Progress, cand: Candidate, reason: Reason)
    requires RunOk(cfg, env, b, p)
    ensures RunOk(cfg, env, b, SkipWithReceipt(env, p, cand, reason))
    ensures Skips(SkipWithReceipt(env, p, cand, reason).w.log, |b.log|) == Skips(p.w.log, |b.log|) + 1
  {
    var p', n := SkipWithReceipt(env, p, cand, reason), |p.w.log|;
    var w, w' := p.w, p'.w;
    forall c: Channel, start: nat, from: nat | from <= n
      ensures Trailing(start, w'.log, from, c) == Trailing(start, w.log, from, c)
      ensures forall ok :: Count(w'.log, from, c, ok) == Count(w.log, from, c, ok)
      ensures forall ok :: Total(w'.log, from, ok) == Total(w.log, from, ok)
      ensures Skips(w'.log, from) == Skips(w.log, from) + 1
    {
      Appended(w.log, w'.log[n], from, start, c);
    }
    assert forall i :: 0 <= i < n ==> w'.log[i] == w.log[i] && w'.log[..i] == w.log[..i];
    assert env.now <= env.clock(n) <= env.prune(n);
    assert forall i :: w.dayStart <= i < n ==> (Kept(w', i) <==> Kept(w, i));
  }

  /** A candidate is either sent once or skipped once. */
  lemma OfferKeeps(cfg: Config, env: Env, b: World, p: Progress, cand: Candidate)
    requires RunOk(cfg, env, b, p)
    ensures
      var p' := Offer(cfg, env, p, cand);
      && RunOk(cfg, env, b, p') && p.w.log <= p'.w.log
      && p'.tally.successful + p'.tally.skipped == p.tally.successful + p.tally.skipped + 1
      && p.tally.successful <= p'.tally.successful
      && p'.tally.skipped - p.tally.skipped
         == (if Offerable(cfg, env, cand) then 0 else 1) + Skips(p'.w.log, |b.log|) - Skips(p.w.log, |b.log|)
  {
    if Offerable(cfg, env, cand) {
      hide RunOk, Walk;
      WalkKeeps(cfg, env, b, p, cand, RouteOf(cfg, cand.channel), NoChannel);
      var (p', failure) := Walk(cfg, env, p, cand, RouteOf(cfg, cand.channel), NoChannel);
      if failure.Some? {
        SkipKeeps(cfg, env, b, p', cand, failure.value);
      }
    }
  }

  /** Candidates turned away before any channel is looked at. */
  function Unoffered(cfg: Config, env: Env, cands: seq<Candidate>): nat {
    if cands == [] then 0
    else (if Offerable(cfg, env, cands[0]) then 0 else 1) + Unoffered(cfg, env, cands[1..])
  }

  lemma {:induction false} DispatchKeeps(cfg: Config, env: Env, b: World, p: Progress, cands: seq<Candidate>)
    requires RunOk(cfg, env, b, p)
    ensures
      var p' := Dispatch(cfg, env, p, cands);
      && RunOk(cfg, env, b, p')
      && p'.tally.successful + p'.tally.skipped == p.tally.successful + p.tally.skipped + |cands|
      && p'.tally.skipped - p.tally.skipped
         == Unoffered(cfg, env, cands) + Skips(p'.w.log, |b.log|) - Skips(p.w.log, |b.log|)
    decreases |cands|
  {
    if cands != [] {
      OfferKeeps(cfg, env, b, p, cands[0]);
      DispatchKeeps(cfg, env, b, Offer(cfg, env, p, cands[0]), cands[1..]);
    }
  }

  /** What a run may assume of its surroundings: valid limits and a clock that never runs backwards. */
  ghost predicate Sound(cfg: Config, env: Env, w: World) {
    cfg.Valid() && w.latest <= env.now && Clocked(env, |w.log|)
  }

  lemma BeginsOk(cfg: Config, env: Env, w: World, today: int)
    requires WorldOk(cfg, w) && Sound(cfg, env, w)
    ensures RunOk(cfg, env, Begin(env, w, today).w, Begin(env, w, today))
  {
    var b := Begin(env, w, today).w;
    forall i | b.dayStart <= i < |b.log| && b.log[i].status.Success?
      ensures b.log[i].at <= b.latest && (Kept(b, i) || b.log[i].at + 2 * cfg.contentCooldown < b.latest)
    {
      assert Kept(w, i) || w.log[i].at + 2 * cfg.contentCooldown < w.latest;
    }
    forall ch
      ensures Trailing(Get(b.state.streaks, ch, 0), b.log, |b.log|, ch) == Get(b.state.streaks, ch, 0)
                < cfg.failureThreshold
    {
      assert Get(w.state.streaks, ch, 0) < cfg.failureThreshold;
    }
    forall ch ensures Get(b.state.counts, ch, 0) == Count(b.log, b.dayStart, ch, true) <= cfg.maxPerDay {
      assert Get(w.state.counts, ch, 0) == Count(w.log, w.dayStart, ch, true) <= cfg.maxPerDay;
    }
    assert forall i: nat :: |b.log| <= i ==> env.now <= env.clock(i);
  }

  /**
   * Every run from a sound state keeps the counts, streaks, cache and spacing of the stored state,
   * leaves streaks and cooldowns as replaying its receipts gives them, attempts only channels that
   * were free, and reports counters that add up to its receipts and candidates.
   */
  lemma RunLaws(cfg: Config, env: Env, w: World, today: int, cands: seq<Candidate>)
    requires WorldOk(cfg, w) && Sound(cfg, env, w)
    ensures
      var b, p := Begin(env, w, today).w, RunSpec(cfg, env, w, today, cands);
      && w.log <= p.w.log && env.now <= p.w.latest
      && WorldOk(cfg, p.w) && Replayed(cfg, env, b, p.w) && AttemptsAllowed(cfg, env, b, p.w) && Tallied(b, p)
      && p.tally.successful + p.tally.skipped == |cands|
      && p.tally.skipped == Unoffered(cfg, env, cands) + Skips(p.w.log, |w.log|)
      && p.tally.receipts == p.tally.attempted + Skips(p.w.log, |w.log|)
      && SumAttempted(p.tally.stats) == p.tally.attempted
  {
    StatsSum(cfg, env, Begin(env, w, today), cands);
    BeginsOk(cfg, env, w, today);
    DispatchKeeps(cfg, env, Begin(env, w, today).w, Begin(env, w, today), cands);
    LogSplits(RunSpec(cfg, env, w, today, cands).w.log, |w.log|);
  }

  // ----- sequences of runs -----

  datatype Session = Session(env: Env, today: int, cands: seq<Candidate>)

  function After(cfg: Config, w: World, s: Session): World {
    RunSpec(cfg, s.env, w, s.today, s.cands).w
  }

  function AfterAll(cfg: Config, w: World, sessions: seq<Session>): World
    decreases |sessions|
  {
    if sessions == [] then w else AfterAll(cfg, After(cfg, w, sessions[0]), sessions[1..])
  }

  ghost predicate AllSound(cfg: Config, w: World, sessions: seq<Session>)
    decreases |sessions|
  {
    sessions == [] || (Sound(cfg, sessions[0].env, w) && AllSound(cfg, After(cfg, w, sessions[0]), sessions[1..]))
  }

  /**
   * After any number of enabled runs on any days: daily counts are exactly the successful sends
   * since the day reset and under the cap, streaks stay below the threshold, and equal messages on
   * one channel are a content cooldown apart.
   */
  lemma {:induction false} EveryRunKeepsTheWorld(cfg: Config, w: World, sessions: seq<Session>)
    requires WorldOk(cfg, w) && AllSound(cfg, w, sessions)
    ensures WorldOk(cfg, AfterAll(cfg, w, sessions)) && w.log <= AfterAll(cfg, w, sessions).log
    decreases |sessions|
  {
    if sessions != [] {
      RunLaws(cfg, sessions[0].env, w, sessions[0].today, sessions[0].cands);
      EveryRunKeepsTheWorld(cfg, After(cfg, w, sessions[0]), sessions[1..]);
    }
  }

  /** An engine that starts from an empty state file and log. */
  function Fresh(today: int, latest: Time): World {
    World(State(today, map[], map[], map[], map[]), [], 0, latest)
  }

  /** So every history that starts from nothing has these properties. */
  lemma FromNothing(cfg: Config, today: int, latest: Time, sessions: seq<Session>)
    requires cfg.Valid() && AllSound(cfg, Fresh(today, latest), sessions)
    ensures WorldOk(cfg, AfterAll(cfg, Fresh(today, latest), sessions))
  {
    assert WorldOk(cfg, Fresh(today, latest));
    hide WorldOk;
    EveryRunKeepsTheWorld(cfg, Fresh(today, latest), sessions);
  }

  /** A message that was sent on the channel today and is offered again too early is not sent again. */
  lemma SpacedInRealTime(cfg: Config, w: World, sessions: seq<Session>, i: nat, j: nat)
    requires WorldOk(cfg, w) && AllSound(cfg, w, sessions)
    requires
      var w' := AfterAll(cfg, w, sessions);
      w'.dayStart <= i < j < |w'.log| && SameContent(w'.log[i], w'.log[j])
    ensures
      var w' := AfterAll(cfg, w, sessions);
      w'.log[j].at >= w'.log[i].at + cfg.contentCooldown
  {
    EveryRunKeepsTheWorld(cfg, w, sessions);
  }

  ghost predicate NoAttempt(log: seq<Receipt>, from: nat, ch: Channel) {
    forall i :: from <= i < |log| && log[i].channel == ch ==> !log[i].Attempt()
  }

  lemma {:induction false} UntouchedStreak(log: seq<Receipt>, from: nat, ch: Channel, start: nat)
    requires NoAttempt(log, from, ch)
    ensures Trailing(start, log, from, ch) == start
    decreases |log|
  {
    if |log| > from {
      UntouchedStreak(log[..|log| - 1], from, ch, start);
    }
  }

  /** A channel that cools down until `u` is not attempted by any run that starts before `u`. */
  lemma {:induction false} CooldownHolds(cfg: Config, w: World, sessions: seq<Session>, ch: Channel, u: Time)
    requires WorldOk(cfg, w) && AllSound(cfg, w, sessions)
    requires Until(w.state, ch) == Some(u)
    requires forall s <- sessions :: s.env.now < u
    ensures
      var w' := AfterAll(cfg, w, sessions);
      w.log <= w'.log && NoAttempt(w'.log, |w.log|, ch) && Until(w'.state, ch) == Some(u)
    decreases |sessions|
  {
    if sessions != [] {
      var s := sessions[0];
      var b, w1 := Begin(s.env, w, s.today).w, After(cfg, w, s);
      RunLaws(cfg, s.env, w, s.today, s.cands);
      assert s in sessions;
      forall i | |w.log| <= i < |w1.log| && w1.log[i].channel == ch ensures !w1.log[i].Attempt() {
        if w1.log[i].Attempt() { assert false; }
      }
      UntouchedStreak(w1.log, |w.log|, ch, Get(b.state.streaks, ch, 0));
      assert Get(w.state.streaks, ch, 0) < cfg.failureThreshold;
      CooldownHolds(cfg, w1, sessions[1..], ch, u);
    }
  }

  /** A channel that reaches the failure threshold in a run is left alone until the cooldown is over. */
  lemma TrippedChannelRests(cfg: Config, w: World, s: Session, sessions: seq<Session>, ch: Channel)
    requires WorldOk(cfg, w) && AllSound(cfg, w, [s] + sessions)
    requires Trailing(Get(w.state.streaks, ch, 0), After(cfg, w, s).log, |w.log|, ch) >= cfg.failureThreshold
    requires forall t <- sessions :: t.env.now < s.env.now + cfg.channelCooldown
    ensures
      var w1 := After(cfg, w, s);
      var w' := AfterAll(cfg, w1, sessions);
      w1.log <= w'.log && NoAttempt(w'.log, |w1.log|, ch)
  {
    hide RunSpec, WorldOk, Sound;
    assert ([s] + sessions)[1..] == sessions;
    RunLaws(cfg, s.env, w, s.today, s.cands);
    CooldownHolds(cfg, After(cfg, w, s), sessions, ch, s.env.now + cfg.channelCooldown);
  }

  /** A new day forgets counts and sent content but neither streaks nor cooldowns. */
  lemma DayChange(cfg: Config, state: State, today: int, ch: Channel, digest: Digest, now: Time)
    requires state.day != today
    ensures
      var clean := NormalizeState(state, today);
      && !ContentRecent(cfg, clean, ch, digest, now) && Get(clean.counts, ch, 0) == 0
      && Get(clean.streaks, ch, 0) == Get(state.streaks, ch, 0)
      && (IsCooldown(clean, ch, now) <==> IsCooldown(state, ch, now))
  {
  }

  // ----- which channel takes a message -----

  lemma {:induction false} WithoutFacts(channels: seq<Channel>, ch: Channel)
    ensures forall c :: c in Without(channels, ch) <==> c in channels && c != ch
    ensures ch !in channels ==> Without(channels, ch) == channels
  {
    if channels != [] {
      WithoutFacts(channels[1..], ch);
      assert channels == [channels[0]] + channels[1..];
    }
  }

  /** The preferred channel is tried first and once; the fallbacks follow. */
  lemma RouteFacts(cfg: Config, preferred: Channel)
    ensures
      var route := RouteOf(cfg, preferred);
      && route[0] == preferred && preferred !in route[1..]
      && forall ch :: ch in route <==> ch == preferred || ch in cfg.fallback
  {
    WithoutFacts(cfg.fallback, preferred);
    assert RouteOf(cfg, preferred)[1..] == Without(cfg.fallback, preferred);
  }

  predicate Takes(cfg: Config, env: Env, p: Progress, cand: Candidate, ch: Channel) {
    Obstacle(cfg, env, p.w.state, ch, cand.message).None? && env.accepts(|p.w.log|)
  }

  /** The run after the first k channels of the route were tried without success. */
  function Tried(cfg: Config, env: Env, p: Progress, cand: Candidate, route: seq<Channel>, k: nat): Progress
    requires k <= |route|
    decreases k
  {
    if k == 0 then p
    else
      var p' := Tried(cfg, env, p, cand, route, k - 1);
      if Obstacle(cfg, env, p'.w.state, route[k - 1], cand.message).None?
      then Attempt(cfg, env, p', cand, route[k - 1]) else p'
  }

  lemma {:induction false} TriedShift(cfg: Config, env: Env, p: Progress, cand: Candidate, route: seq<Channel>, k: nat)
    requires 1 <= k <= |route|
    ensures Tried(cfg, env, p, cand, route, k)
         == Tried(cfg, env, Tried(cfg, env, p, cand, route, 1), cand, route[1..], k - 1)
    decreases k
  {
    if k > 1 {
      TriedShift(cfg, env, p, cand, route, k - 1);
    } else {
      assert Tried(cfg, env, p, cand, route, 0) == p;
    }
  }

  /**
   * A message goes out on the first channel of its route that is free and accepts it; it is handed
   * back exactly when no channel of the route does.
   */
  lemma {:induction false} FirstTakerGetsIt(cfg: Config, env: Env, p: Progress, cand: Candidate,
                                            route: seq<Channel>, last: Reason) returns (k: nat)
    ensures k <= |route|
    ensures forall j :: 0 <= j < k ==> !Takes(cfg, env, Tried(cfg, env, p, cand, route, j), cand, route[j])
    ensures
      var (p', failure) := Walk(cfg, env, p, cand, route, last);
      if k == |route| then failure.Some? && p' == Tried(cfg, env, p, cand, route, k)
      else && Takes(cfg, env, Tried(cfg, env, p, cand, route, k), cand, route[k])
           && failure.None? && p' == Tried(cfg, env, p, cand, route, k + 1)
    decreases |route|
  {
    if route == [] {
      return 0;
    }
    assert Tried(cfg, env, p, cand, route, 0) == p;
    if Takes(cfg, env, p, cand, route[0]) {
      return 0;
    }
    var p1 := Tried(cfg, env, p, cand, route, 1);
    var obstacle := Obstacle(cfg, env, p.w.state, route[0], cand.message);
    var rest := FirstTakerGetsIt(cfg, env, p1, cand, route[1..],
                                 if obstacle.Some? then obstacle.value else SendFailed);
    k := rest + 1;
    forall j | 0 <= j < k ensures !Takes(cfg, env, Tried(cfg, env, p, cand, route, j), cand, route[j]) {
      if j > 0 {
        TriedShift(cfg, env, p, cand, route, j);
        assert route[1..][j - 1] == route[j];
      }
    }
    TriedShift(cfg, env, p, cand, route, k);
    if k < |route| {
      TriedShift(cfg, env, p, cand, route, k + 1);
    }
  }

  // ----- the per-channel statistics add up -----

  ghost function SumOver(keys: set<Channel>, stats: map<Channel, Stat>): nat
    requires keys <= stats.Keys
  {
    if keys == {} then 0
    else
      var ch :| ch in keys;
      stats[ch].attempted + SumOver(keys - {ch}, stats)
  }

  ghost function SumAttempted(stats: map<Channel, Stat>): nat {
    SumOver(stats.Keys, stats)
  }

  lemma {:induction false} SumSplits(keys: set<Channel>, stats: map<Channel, Stat>, ch: Channel)
    requires keys <= stats.Keys && ch in keys
    ensures SumOver(keys, stats) == stats[ch].attempted + SumOver(keys - {ch}, stats)
  {
    var c :| c in keys && SumOver(keys, stats) == stats[c].attempted + SumOver(keys - {c}, stats);
    if c != ch {
      SumSplits(keys - {c}, stats, ch);
      SumSplits(keys - {ch}, stats, c);
      assert keys - {c} - {ch} == keys - {ch} - {c};
    }
  }

  lemma {:induction false} SumAgrees(keys: set<Channel>, s: map<Channel, Stat>, t: map<Channel, Stat>)
    requires keys <= s.Keys && keys <= t.Keys
    requires forall ch <- keys :: s[ch] == t[ch]
    ensures SumOver(keys, s) == SumOver(keys, t)
  {
    if keys != {} {
      var ch :| ch in keys;
      SumSplits(keys, s, ch);
      SumSplits(keys, t, ch);
      SumAgrees(keys - {ch}, s, t);
    }
  }

  lemma SumBump(stats: map<Channel, Stat>, ch: Channel, ok: bool)
    ensures SumAttempted(Bump(stats, ch, ok)) == SumAttempted(stats) + 1
  {
    var after, others := Bump(stats, ch, ok), stats.Keys - {ch};
    assert after.Keys - {ch} == others;
    SumSplits(after.Keys, after, ch);
    SumAgrees(others, stats, after);
    if ch in stats {
      SumSplits(stats.Keys, stats, ch);
    } else {
      assert others == stats.Keys;
    }
  }

  lemma {:induction false} WalkSums(cfg: Config, env: Env, p: Progress, cand: Candidate,
                                    route: seq<Channel>, last: Reason)
    requires SumAttempted(p.tally.stats) == p.tally.attempted
    ensures var p' := Walk(cfg, env, p, cand, route, last).0; SumAttempted(p'.tally.stats) == p'.tally.attempted
    decreases |route|
  {
    if route != [] {
      var obstacle := Obstacle(cfg, env, p.w.state, route[0], cand.message);
      if obstacle.Some? {
        WalkSums(cfg, env, p, cand, route[1..], obstacle.value);
      } else {
        SumBump(p.tally.stats, route[0], env.accepts(|p.w.log|));
        WalkSums(cfg, env, Attempt(cfg, env, p, cand, route[0]), cand, route[1..], SendFailed);
      }
    }
  }

  /** The attempts of the per-channel statistics sum to the attempts of the run. */
  lemma {:induction false} StatsSum(cfg: Config, env: Env, p: Progress, cands: seq<Candidate>)
    requires SumAttempted(p.tally.stats) == p.tally.attempted
    ensures var p' := Dispatch(cfg, env, p, cands); SumAttempted(p'.tally.stats) == p'.tally.attempted
    decreases |cands|
  {
    if cands != [] {
      WalkSums(cfg, env, p, cands[0], RouteOf(cfg, cands[0].channel), NoChannel);
      StatsSum(cfg, env, Offer(cfg, env, p, cands[0]), cands[1..]);
    }
  }
}
