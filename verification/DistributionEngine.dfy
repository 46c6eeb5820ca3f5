/**
 * The distribution engine: every run walks the candidate messages over a preferred channel and its
 * fallbacks, under daily caps, failure cooldowns and a content-hash cache, and appends a receipt for
 * every attempt and every message it could not place.  Send results, clock readings and the message
 * hash are supplied by the surroundings of a run.
 */
module DistributionEngine {
  import opened Common

  type Channel = string
  type Digest = string
  type Time = int

  /** The clamps of the script make every limit at least one. */
  datatype Config = Config(maxPerDay: nat, failureThreshold: nat, channelCooldown: nat, contentCooldown: nat,
                           requireSafeCopy: bool, fallback: seq<Channel>)
  {
    predicate Valid() {
      maxPerDay >= 1 && failureThreshold >= 1 && channelCooldown >= 1 && contentCooldown >= 1
    }
  }

  datatype Candidate = Candidate(id: string, channel: Channel, message: string)

  datatype Reason = NoChannel | Unavailable | CoolingDown | CapReached | RecentContent | SendFailed

  datatype Status = Success | Failure | Skipped(reason: Reason)

  datatype Receipt = Receipt(at: Time, taskId: string, channel: Channel, status: Status, digest: Digest)
  {
    predicate Attempt() {
      !status.Skipped?
    }
  }

  /** The persisted state file. */
  datatype State = State(day: int, counts: map<Channel, nat>, streaks: map<Channel, nat>,
                         cooldownUntil: map<Channel, Time>, recent: map<Channel, map<Digest, Time>>)

  /**
   * What surrounds a run.  The functions over log positions give the result of the attempt that
   * writes the receipt at that position, the clock read for that receipt, and the clock read when
   * the hash cache is pruned after it.
   */
  datatype Env = Env(enabled: set<Channel>, now: Time, safe: string -> bool, hash: string -> Digest,
                     accepts: nat -> bool, clock: nat -> Time, prune: nat -> Time)

  datatype Stat = Stat(attempted: nat, successful: nat, failed: nat)

  datatype Tally = Tally(attempted: nat, successful: nat, failed: nat, skipped: nat, receipts: nat,
                         stats: map<Channel, Stat>)

  /**
   * The state file beside the receipt log.  `dayStart` is the log length at the last day reset and
   * `latest` the last clock reading.
   */
  datatype World = World(state: State, log: seq<Receipt>, dayStart: nat, latest: Time)

  function Get<V>(m: map<string, V>, k: string, default: V): V {
    if k in m then m[k] else default
  }

  // ----- the state checks -----

  function NormalizeState(state: State, today: int): State {
    if state.day != today then State(today, map[], state.streaks, state.cooldownUntil, map[])
    else state
  }

  predicate IsCooldown(state: State, ch: Channel, now: Time) {
    ch in state.cooldownUntil && state.cooldownUntil[ch] > now
  }

  predicate ContentRecent(cfg: Config, state: State, ch: Channel, digest: Digest, now: Time) {
    && ch in state.recent && digest in state.recent[ch]
    && now - state.recent[ch][digest] < cfg.contentCooldown
  }

  /** Overwrites the hash and drops every hash older than twice the content cooldown. */
  function RememberContent(cfg: Config, recent: map<Channel, map<Digest, Time>>, ch: Channel, digest: Digest,
                           at: Time, pruneNow: Time): map<Channel, map<Digest, Time>> {
    var hashes := Get(recent, ch, map[])[digest := at];
    var cutoff := pruneNow - 2 * cfg.contentCooldown;
    recent[ch := map d | d in hashes && hashes[d] >= cutoff :: hashes[d]]
  }

  /** Why a channel cannot take the message now; None when it may be tried. */
  function Obstacle(cfg: Config, env: Env, state: State, ch: Channel, message: string): Option<Reason> {
    if ch !in env.enabled then Some(Unavailable)
    else if IsCooldown(state, ch, env.now) then Some(CoolingDown)
    else if Get(state.counts, ch, 0) >= cfg.maxPerDay then Some(CapReached)
    else if ContentRecent(cfg, state, ch, env.hash(message), env.now) then Some(RecentContent)
    else None
  }

  function Succeeded(cfg: Config, env: Env, state: State, ch: Channel, digest: Digest, i: nat): State {
    state.(counts := state.counts[ch := Get(state.counts, ch, 0) + 1],
           streaks := state.streaks[ch := 0],
           recent := RememberContent(cfg, state.recent, ch, digest, env.clock(i), env.prune(i)))
  }

  function FailedOnce(cfg: Config, env: Env, state: State, ch: Channel): State {
    var streak := Get(state.streaks, ch, 0) + 1;
    if streak >= cfg.failureThreshold
    then state.(streaks := state.streaks[ch := 0],
                cooldownUntil := state.cooldownUntil[ch := env.now + cfg.channelCooldown])
    else state.(streaks := state.streaks[ch := streak])
  }

  function Bump(stats: map<Channel, Stat>, ch: Channel, ok: bool): map<Channel, Stat> {
    var s := Get(stats, ch, Stat(0, 0, 0));
    stats[ch := Stat(s.attempted + 1, s.successful + if ok then 1 else 0, s.failed + if ok then 0 else 1)]
  }

  // ----- what a run computes -----

  /** A run in progress. */
  datatype Progress = Progress(w: World, tally: Tally)

  /** One attempt on an admissible channel. */
  function Attempt(cfg: Config, env: Env, p: Progress, cand: Candidate, ch: Channel): Progress {
    var i, digest := |p.w.log|, env.hash(cand.message);
    var ok := env.accepts(i);
    var receipt := Receipt(env.clock(i), cand.id, ch, if ok then Success else Failure, digest);
    var state' := if ok then Succeeded(cfg, env, p.w.state, ch, digest, i) else FailedOnce(cfg, env, p.w.state, ch);
    Progress(
      World(state', p.w.log + [receipt], p.w.dayStart, if ok then env.prune(i) else env.clock(i)),
      p.tally.(attempted := p.tally.attempted + 1,
               successful := p.tally.successful + if ok then 1 else 0,
               failed := p.tally.failed + if ok then 0 else 1,
               receipts := p.tally.receipts + 1,
               stats := Bump(p.tally.stats, ch, ok)))
  }

  /** Tries the route in order and stops at the first channel that takes the message. */
  function Walk(cfg: Config, env: Env, p: Progress, cand: Candidate, route: seq<Channel>, last: Reason)
      : (Progress, Option<Reason>)
    decreases |route|
  {
    if route == [] then (p, Some(last))
    else
      var obstacle := Obstacle(cfg, env, p.w.state, route[0], cand.message);
      if obstacle.Some? then Walk(cfg, env, p, cand, route[1..], obstacle.value)
      else
        var p' := Attempt(cfg, env, p, cand, route[0]);
        if env.accepts(|p.w.log|) then (p', None)
        else Walk(cfg, env, p', cand, route[1..], SendFailed)
  }

  function Without(channels: seq<Channel>, ch: Channel): seq<Channel> {
    if channels == [] then []
    else (if channels[0] != ch then [channels[0]] else []) + Without(channels[1..], ch)
  }

  function RouteOf(cfg: Config, preferred: Channel): seq<Channel> {
    [preferred] + Without(cfg.fallback, preferred)
  }

  /** Empty and unsafe copy is skipped without a receipt. */
  predicate Offerable(cfg: Config, env: Env, cand: Candidate) {
    cand.message != "" && (cfg.requireSafeCopy ==> env.safe(cand.message))
  }

  function SkipSilently(p: Progress): Progress {
    p.(tally := p.tally.(skipped := p.tally.skipped + 1))
  }

  function SkipWithReceipt(env: Env, p: Progress, cand: Candidate, reason: Reason): Progress {
    var i := |p.w.log|;
    var receipt := Receipt(env.clock(i), cand.id, cand.channel, Skipped(reason), env.hash(cand.message));
    Progress(p.w.(log := p.w.log + [receipt], latest := env.clock(i)),
             p.tally.(skipped := p.tally.skipped + 1, receipts := p.tally.receipts + 1))
  }

  function Offer(cfg: Config, env: Env, p: Progress, cand: Candidate): Progress {
    if !Offerable(cfg, env, cand) then SkipSilently(p)
    else
      var (p', failure) := Walk(cfg, env, p, cand, RouteOf(cfg, cand.channel), NoChannel);
      if failure.None? then p' else SkipWithReceipt(env, p', cand, failure.value)
  }

  function Dispatch(cfg: Config, env: Env, p: Progress, cands: seq<Candidate>): Progress
    decreases |cands|
  {
    if cands == [] then p else Dispatch(cfg, env, Offer(cfg, env, p, cands[0]), cands[1..])
  }

  const EMPTY_TALLY := Tally(0, 0, 0, 0, 0, map[])

  function Begin(env: Env, w: World, today: int): Progress {
    var state := NormalizeState(w.state, today);
    Progress(World(state, w.log, if w.state.day != today then |w.log| else w.dayStart, env.now), EMPTY_TALLY)
  }

  function RunSpec(cfg: Config, env: Env, w: World, today: int, cands: seq<Candidate>): Progress {
    Dispatch(cfg, env, Begin(env, w, today), cands)
  }

  // ----- the script -----

  class Engine {
    const cfg: Config
    var day: int
    var counts: map<Channel, nat>
    var streaks: map<Channel, nat>
    var cooldownUntil: map<Channel, Time>
    var recent: map<Channel, map<Digest, Time>>
    var log: seq<Receipt>
    ghost var dayStart: nat
    ghost var latest: Time

    ghost function Contents(): World
      reads this
    {
      World(State(day, counts, streaks, cooldownUntil, recent), log, dayStart, latest)
    }

    constructor (cfg: Config, today: int)
      ensures this.cfg == cfg
      ensures Contents() == World(State(today, map[], map[], map[], map[]), [], 0, 0)
    {
      this.cfg := cfg;
      day, counts, streaks, cooldownUntil, recent := today, map[], map[], map[], map[];
      log, dayStart, latest := [], 0, 0;
    }

    method Normalize(env: Env, today: int)
      modifies this
      ensures Contents() == Begin(env, old(Contents()), today).w
    {
      if day != today {
        day, counts, recent := today, map[], map[];
        dayStart := |log|;
      }
      latest := env.now;
    }

    method RecordSuccess(env: Env, ch: Channel, digest: Digest, i: nat)
      modifies `counts, `streaks, `recent
      ensures Contents().state == Succeeded(cfg, env, old(Contents()).state, ch, digest, i)
    {
      counts := counts[ch := Get(counts, ch, 0) + 1];
      streaks := streaks[ch := 0];
      recent := RememberContent(cfg, recent, ch, digest, env.clock(i), env.prune(i));
    }

    method RecordFailure(env: Env, ch: Channel)
      modifies `streaks, `cooldownUntil
      ensures Contents().state == FailedOnce(cfg, env, old(Contents()).state, ch)
    {
      var streak := Get(streaks, ch, 0) + 1;
      streaks := streaks[ch := streak];
      if streak >= cfg.failureThreshold {
        cooldownUntil := cooldownUntil[ch := env.now + cfg.channelCooldown];
        streaks := streaks[ch := 0];
        assert streaks == old(streaks)[ch := 0];
      }
    }

    method Try(env: Env, cand: Candidate, ch: Channel, tally: Tally) returns (ok: bool, tally': Tally)
      modifies this
      ensures ok == env.accepts(|old(log)|)
      ensures Progress(Contents(), tally') == Attempt(cfg, env, Progress(old(Contents()), tally), cand, ch)
    {
      var i, digest := |log|, env.hash(cand.message);
      ok := env.accepts(i);
      log := log + [Receipt(env.clock(i), cand.id, ch, if ok then Success else Failure, digest)];
      tally' := tally.(attempted := tally.attempted + 1, receipts := tally.receipts + 1,
                       stats := Bump(tally.stats, ch, ok));
      if ok {
        tally' := tally'.(successful := tally.successful + 1);
        RecordSuccess(env, ch, digest, i);
        latest := env.prune(i);
      } else {
        tally' := tally'.(failed := tally.failed + 1);
        RecordFailure(env, ch);
        latest := env.clock(i);
      }
    }

    method Place(env: Env, cand: Candidate, tally: Tally) returns (tally': Tally)
      modifies this
      ensures Progress(Contents(), tally') == Offer(cfg, env, Progress(old(Contents()), tally), cand)
    {
      tally' := tally;
      if !Offerable(cfg, env, cand) {
        return tally.(skipped := tally.skipped + 1);
      }
      var route := RouteOf(cfg, cand.channel);
      var k, dispatched, lastError := 0, false, NoChannel;
      ghost var goal := Walk(cfg, env, Progress(old(Contents()), tally), cand, route, NoChannel);
      while k < |route| && !dispatched
        invariant 0 <= k <= |route|
        invariant !dispatched ==> goal == Walk(cfg, env, Progress(Contents(), tally'), cand, route[k..], lastError)
        invariant dispatched ==> goal == (Progress(Contents(), tally'), None)
        decreases |route| - k, !dispatched
      {
        var state := State(day, counts, streaks, cooldownUntil, recent);
        var obstacle := Obstacle(cfg, env, state, route[k], cand.message);
        if obstacle.Some? {
          lastError := obstacle.value;
        } else {
          dispatched, tally' := Try(env, cand, route[k], tally');
          if !dispatched { lastError := SendFailed; }
        }
        k := k + 1;
      }
      if !dispatched {
        log := log + [Receipt(env.clock(|log|), cand.id, cand.channel, Skipped(lastError), env.hash(cand.message))];
        latest := env.clock(|log| - 1);
        tally' := tally'.(skipped := tally'.skipped + 1, receipts := tally'.receipts + 1);
      }
    }

    method Run(env: Env, today: int, cands: seq<Candidate>) returns (tally: Tally)
      modifies this
      ensures Progress(Contents(), tally) == RunSpec(cfg, env, old(Contents()), today, cands)
    {
      Normalize(env, today);
      tally := EMPTY_TALLY;
      ghost var goal := RunSpec(cfg, env, old(Contents()), today, cands);
      var k := 0;
      while k < |cands|
        invariant 0 <= k <= |cands|
        invariant goal == Dispatch(cfg, env, Progress(Contents(), tally), cands[k..])
      {
        tally := Place(env, cands[k], tally);
        k := k + 1;
      }
    }
  }
}
