/**
 * What a run of the distribution engine does with each message, with every condition on the state file
 * and the surroundings written out, and where the entries of the hash cache come from.
 */
module DistributionOutcome {
  import opened Common
  import opened DistributionEngine
  import opened DistributionLaws

  // ----- one message -----

  function Others(fallback: seq<Channel>, preferred: Channel): seq<Channel> {
    if fallback == [] then []
    else
      var init, last := fallback[..|fallback| - 1], fallback[|fallback| - 1];
      if last == preferred then Others(init, preferred) else Others(init, preferred) + [last]
  }

  /** The preferred channel, then the fallbacks in their order without it. */
  predicate IsRoute(cfg: Config, preferred: Channel, route: seq<Channel>) {
    route == [preferred] + Others(cfg.fallback, preferred)
  }

  predicate Cools(env: Env, w: World, ch: Channel) {
    ch in w.state.cooldownUntil && w.state.cooldownUntil[ch] > env.now
  }

  predicate UnderCap(cfg: Config, w: World, ch: Channel) {
    if ch in w.state.counts then w.state.counts[ch] < cfg.maxPerDay else 0 < cfg.maxPerDay
  }

  predicate SentLately(cfg: Config, env: Env, w: World, ch: Channel, message: string) {
    && ch in w.state.recent && env.hash(message) in w.state.recent[ch]
    && env.now - w.state.recent[ch][env.hash(message)] < cfg.contentCooldown
  }

  /** Enabled, not cooling down at the start of the run, under the cap, and without a recent equal hash. */
  predicate Free(cfg: Config, env: Env, w: World, ch: Channel, message: string) {
    ch in env.enabled && !Cools(env, w, ch) && UnderCap(cfg, w, ch) && !SentLately(cfg, env, w, ch, message)
  }

  /** The first condition that stops a channel. */
  function WhyNot(cfg: Config, env: Env, w: World, ch: Channel): Reason {
    if ch !in env.enabled then Unavailable
    else if Cools(env, w, ch) then CoolingDown
    else if !UnderCap(cfg, w, ch) then CapReached
    else RecentContent
  }

  /** Why a channel passed a message by: the failed send, or the first condition that stopped it. */
  function LastReason(cfg: Config, env: Env, w: World, ch: Channel, message: string): Reason {
    if Free(cfg, env, w, ch, message) then SendFailed else WhyNot(cfg, env, w, ch)
  }

  /** A failed send: one receipt, one more failure on the channel, and a cooldown at the threshold. */
  ghost predicate FailedOn(cfg: Config, env: Env, cand: Candidate, ch: Channel, w: World, w': World) {
    var s, s' := w.state, w'.state;
    var streak := (if ch in s.streaks then s.streaks[ch] else 0) + 1;
    && w'.log == w.log + [Receipt(env.clock(|w.log|), cand.id, ch, Failure, env.hash(cand.message))]
    && w'.dayStart == w.dayStart && s'.day == s.day && s'.counts == s.counts && s'.recent == s.recent
    && s'.streaks == s.streaks[ch := if streak < cfg.failureThreshold then streak else 0]
    && s'.cooldownUntil == if streak < cfg.failureThreshold then s.cooldownUntil
                           else s.cooldownUntil[ch := env.now + cfg.channelCooldown]
  }

  /** The hash cache after a send: the new hash, and the old ones of the channel that are young enough. */
  ghost predicate CacheAfter(cfg: Config, env: Env, w: World, ch: Channel, digest: Digest,
                             recent: map<Channel, map<Digest, Time>>)
  {
    var i := |w.log|;
    && ch in recent
    && (forall c :: c != ch ==>
          ((c in recent <==> c in w.state.recent) && (c in recent ==> recent[c] == w.state.recent[c])))
    && (forall d :: d in recent[ch] <==>
          if d == digest then env.clock(i) >= env.prune(i) - 2 * cfg.contentCooldown
          else ch in w.state.recent && d in w.state.recent[ch]
               && w.state.recent[ch][d] >= env.prune(i) - 2 * cfg.contentCooldown)
    && (forall d :: d in recent[ch] ==>
          recent[ch][d] == if d == digest then env.clock(i)
                           else if ch in w.state.recent && d in w.state.recent[ch] then w.state.recent[ch][d] else 0)
  }

  /** A successful send: one receipt, one more send on the channel, no failures, and the hash remembered. */
  ghost predicate SentOn(cfg: Config, env: Env, cand: Candidate, ch: Channel, w: World, w': World) {
    var s, s' := w.state, w'.state;
    && w'.log == w.log + [Receipt(env.clock(|w.log|), cand.id, ch, Success, env.hash(cand.message))]
    && w'.dayStart == w.dayStart && s'.day == s.day && s'.cooldownUntil == s.cooldownUntil
    && s'.counts == s.counts[ch := (if ch in s.counts then s.counts[ch] else 0) + 1]
    && s'.streaks == s.streaks[ch := 0]
    && CacheAfter(cfg, env, w, ch, env.hash(cand.message), s'.recent)
  }

  /** A channel that the message passes by: blocked, or tried without success. */
  ghost predicate PassedBy(cfg: Config, env: Env, cand: Candidate, ch: Channel, w: World, w': World) {
    if Free(cfg, env, w, ch, cand.message)
    then !env.accepts(|w.log|) && FailedOn(cfg, env, cand, ch, w, w')
    else w' == w
  }

  /** `turns[j]` is the world in which the j-th channel of the route has its turn. */
  ghost predicate Walked(cfg: Config, env: Env, cand: Candidate, route: seq<Channel>, turns: seq<World>) {
    && 0 < |turns| <= |route| + 1
    && forall j :: 0 <= j < |turns| - 1 ==> PassedBy(cfg, env, cand, route[j], turns[j], turns[j + 1])
  }

  /** The channel whose turn is last takes the message. */
  ghost predicate Taken(cfg: Config, env: Env, cand: Candidate, route: seq<Channel>, turns: seq<World>, w': World) {
    && 0 < |turns| <= |route|
    && var k := |turns| - 1;
       Free(cfg, env, turns[k], route[k], cand.message) && env.accepts(|turns[k].log|)
       && SentOn(cfg, env, cand, route[k], turns[k], w')
  }

  /** Every channel passed the message by, and one receipt says why the last one did. */
  ghost predicate Left(cfg: Config, env: Env, cand: Candidate, route: seq<Channel>, turns: seq<World>, w': World) {
    && 0 < |route| && |turns| == |route| + 1
    && var k := |route|;
       var last := turns[k - 1];
       var reason := LastReason(cfg, env, last, route[k - 1], cand.message);
       && w'.log == turns[k].log + [Receipt(env.clock(|turns[k].log|), cand.id, cand.channel, Skipped(reason),
                                            env.hash(cand.message))]
       && w'.state == turns[k].state && w'.dayStart == turns[k].dayStart
  }

  /**
   * What becomes of one message.  Blank and unsafe ones leave no trace; any other goes out on the first
   * channel of its route that is free and accepts it, or is left with one skip receipt.
   */
  ghost predicate Served(cfg: Config, env: Env, cand: Candidate, w: World, w': World) {
    if cand.message == "" || (cfg.requireSafeCopy && !env.safe(cand.message)) then w' == w
    else exists route, turns ::
      && IsRoute(cfg, cand.channel, route) && Walked(cfg, env, cand, route, turns) && turns[0] == w
      && (Taken(cfg, env, cand, route, turns, w') || Left(cfg, env, cand, route, turns, w'))
  }

  // ----- the model does that -----

  lemma {:induction false} WithoutSnoc(a: seq<Channel>, last: Channel, ch: Channel)
    ensures Without(a + [last], ch) == Without(a, ch) + if last == ch then [] else [last]
  {
    if a == [] {
      assert [last][1..] == [] && Without([], ch) == [];
    } else {
      WithoutSnoc(a[1..], last, ch);
      assert (a + [last])[1..] == a[1..] + [last];
    }
  }

  lemma {:induction false} OthersAgree(fallback: seq<Channel>, preferred: Channel)
    ensures Without(fallback, preferred) == Others(fallback, preferred)
  {
    if fallback != [] {
      var init, last := fallback[..|fallback| - 1], fallback[|fallback| - 1];
      OthersAgree(init, preferred);
      WithoutSnoc(init, last, preferred);
      assert fallback == init + [last];
    }
  }

  lemma ObstacleMeans(cfg: Config, env: Env, w: World, ch: Channel, message: string)
    ensures
      var obstacle := Obstacle(cfg, env, w.state, ch, message);
      && (obstacle.None? <==> Free(cfg, env, w, ch, message))
      && (obstacle.Some? ==> obstacle.value == WhyNot(cfg, env, w, ch))
  {
  }

  lemma CacheMeans(cfg: Config, env: Env, w: World, ch: Channel, digest: Digest)
    ensures CacheAfter(cfg, env, w, ch, digest,
                       RememberContent(cfg, w.state.recent, ch, digest, env.clock(|w.log|), env.prune(|w.log|)))
  {
  }

  lemma AttemptMeans(cfg: Config, env: Env, p: Progress, cand: Candidate, ch: Channel)
    ensures
      var w' := Attempt(cfg, env, p, cand, ch).w;
      if env.accepts(|p.w.log|) then SentOn(cfg, env, cand, ch, p.w, w') else FailedOn(cfg, env, cand, ch, p.w, w')
  {
    CacheMeans(cfg, env, p.w, ch, env.hash(cand.message));
    hide RememberContent, CacheAfter;
  }

  /** The walk over a route ends like this: taken, or handed back with the reason of the last channel. */
  ghost predicate Ends(cfg: Config, env: Env, cand: Candidate, route: seq<Channel>, last: Reason, turns: seq<World>,
                       w': World, failure: Option<Reason>)
  {
    && Walked(cfg, env, cand, route, turns)
    && if failure.None? then Taken(cfg, env, cand, route, turns, w')
       else && |turns| == |route| + 1 && w' == turns[|route|]
            && failure.value == if route == [] then last
                                else LastReason(cfg, env, turns[|route| - 1], route[|route| - 1], cand.message)
  }

  lemma EndsHere(cfg: Config, env: Env, cand: Candidate, route: seq<Channel>, last: Reason, w: World, w': World)
    requires route != [] && Free(cfg, env, w, route[0], cand.message) && env.accepts(|w.log|)
    requires SentOn(cfg, env, cand, route[0], w, w')
    ensures Ends(cfg, env, cand, route, last, [w], w', None)
  {
    hide Free, SentOn, PassedBy;
  }

  /** One channel passes the message by, and the walk ends on the rest of the route. */
  lemma EndsLater(cfg: Config, env: Env, cand: Candidate, route: seq<Channel>, last: Reason, w: World,
                  rest: seq<World>, w': World, failure: Option<Reason>)
    requires route != [] && rest != [] && PassedBy(cfg, env, cand, route[0], w, rest[0])
    requires Ends(cfg, env, cand, route[1..], LastReason(cfg, env, w, route[0], cand.message), rest, w', failure)
    ensures Ends(cfg, env, cand, route, last, [w] + rest, w', failure)
  {
    hide PassedBy, Free, SentOn, LastReason;
    var turns := [w] + rest;
    forall j | 0 <= j < |turns| - 1 ensures PassedBy(cfg, env, cand, route[j], turns[j], turns[j + 1]) {
      if j > 0 {
        assert PassedBy(cfg, env, cand, route[1..][j - 1], rest[j - 1], rest[j]);
      }
    }
  }

  /** The first step of a walk. */
  lemma FirstChannel(cfg: Config, env: Env, p: Progress, cand: Candidate, route: seq<Channel>, last: Reason)
    requires route != []
    ensures
      var ch := route[0];
      var p1 := if Free(cfg, env, p.w, ch, cand.message) then Attempt(cfg, env, p, cand, ch) else p;
      if Free(cfg, env, p.w, ch, cand.message) && env.accepts(|p.w.log|)
      then SentOn(cfg, env, cand, ch, p.w, p1.w) && Walk(cfg, env, p, cand, route, last) == (p1, None)
      else && PassedBy(cfg, env, cand, ch, p.w, p1.w)
           && Walk(cfg, env, p, cand, route, last)
              == Walk(cfg, env, p1, cand, route[1..], LastReason(cfg, env, p.w, ch, cand.message))
  {
    ObstacleMeans(cfg, env, p.w, route[0], cand.message);
    AttemptMeans(cfg, env, p, cand, route[0]);
    hide Free, Obstacle, Attempt, WhyNot, SentOn, FailedOn;
  }

  /** The channels of a route pass the message by until one takes it or none is left. */
  lemma {:induction false} WalkTurns(cfg: Config, env: Env, p: Progress, cand: Candidate, route: seq<Channel>,
                                     last: Reason) returns (turns: seq<World>)
    ensures turns != [] && turns[0] == p.w
    ensures
      var (p', failure) := Walk(cfg, env, p, cand, route, last);
      Ends(cfg, env, cand, route, last, turns, p'.w, failure)
    decreases |route|
  {
    if route == [] {
      return [p.w];
    }
    FirstChannel(cfg, env, p, cand, route, last);
    hide *;
    if Free(cfg, env, p.w, route[0], cand.message) && env.accepts(|p.w.log|) {
      turns := [p.w];
      EndsHere(cfg, env, cand, route, last, p.w, Attempt(cfg, env, p, cand, route[0]).w);
    } else {
      var p1 := if Free(cfg, env, p.w, route[0], cand.message) then Attempt(cfg, env, p, cand, route[0]) else p;
      var reason := LastReason(cfg, env, p.w, route[0], cand.message);
      var rest := WalkTurns(cfg, env, p1, cand, route[1..], reason);
      turns := [p.w] + rest;
      var (p', failure) := Walk(cfg, env, p, cand, route, last);
      EndsLater(cfg, env, cand, route, last, p.w, rest, p'.w, failure);
    }
  }

  lemma OfferServes(cfg: Config, env: Env, p: Progress, cand: Candidate)
    ensures Served(cfg, env, cand, p.w, Offer(cfg, env, p, cand).w)
  {
    if Offerable(cfg, env, cand) {
      var route := RouteOf(cfg, cand.channel);
      OthersAgree(cfg.fallback, cand.channel);
      var turns := WalkTurns(cfg, env, p, cand, route, NoChannel);
      hide Walk, Walked, Taken, LastReason;
      var w' := Offer(cfg, env, p, cand).w;
      assert IsRoute(cfg, cand.channel, route);
      assert Taken(cfg, env, cand, route, turns, w') || Left(cfg, env, cand, route, turns, w');
    }
  }

  // ----- whole runs -----

  /** The state file as a run takes it up: on another day counts and cache are empty. */
  predicate TakenUp(w: World, today: int, w0: World) {
    && w0.log == w.log && w0.state.day == today
    && w0.state.streaks == w.state.streaks && w0.state.cooldownUntil == w.state.cooldownUntil
    && w0.state.counts == (if w.state.day == today then w.state.counts else map[])
    && w0.state.recent == (if w.state.day == today then w.state.recent else map[])
    && w0.dayStart == if w.state.day == today then w.dayStart else |w.log|
  }

  /** The messages are served one after the other. */
  ghost predicate ServedAll(cfg: Config, env: Env, cands: seq<Candidate>, worlds: seq<World>) {
    && |worlds| == |cands| + 1
    && forall i :: 0 <= i < |cands| ==> Served(cfg, env, cands[i], worlds[i], worlds[i + 1])
  }

  lemma {:induction false} DispatchServes(cfg: Config, env: Env, p: Progress, cands: seq<Candidate>)
      returns (worlds: seq<World>)
    ensures ServedAll(cfg, env, cands, worlds)
    ensures worlds[0] == p.w && worlds[|cands|] == Dispatch(cfg, env, p, cands).w
    decreases |cands|
  {
    hide Served, Offer;
    if cands == [] {
      return [p.w];
    }
    OfferServes(cfg, env, p, cands[0]);
    var rest := DispatchServes(cfg, env, Offer(cfg, env, p, cands[0]), cands[1..]);
    worlds := [p.w] + rest;
    forall i | 0 <= i < |cands| ensures Served(cfg, env, cands[i], worlds[i], worlds[i + 1]) {
      if i > 0 {
        assert Served(cfg, env, cands[1..][i - 1], rest[i - 1], rest[i]);
      }
    }
  }

  /** A run takes the state file up and serves its messages in order. */
  lemma RunServes(cfg: Config, env: Env, w: World, today: int, cands: seq<Candidate>) returns (worlds: seq<World>)
    ensures ServedAll(cfg, env, cands, worlds)
    ensures TakenUp(w, today, worlds[0]) && worlds[|cands|] == RunSpec(cfg, env, w, today, cands).w
  {
    worlds := DispatchServes(cfg, env, Begin(env, w, today), cands);
  }

  /** A message that is neither blank nor unsafe adds a success, or a skip receipt for its own channel. */
  lemma ServedLeavesReceipt(cfg: Config, env: Env, cand: Candidate, w: World, w': World)
    requires Served(cfg, env, cand, w, w')
    requires cand.message != "" && (cfg.requireSafeCopy ==> env.safe(cand.message))
    ensures
      && w'.log != [] && var r := w'.log[|w'.log| - 1];
         && r.taskId == cand.id && r.digest == env.hash(cand.message)
         && (r.status.Success? || (r.status.Skipped? && r.channel == cand.channel))
  {
  }

  // ----- where the cache comes from -----

  /** Every entry of the cache is the time of a send of the day. */
  ghost predicate Sourced(w: World) {
    forall ch, d :: ch in w.state.recent && d in w.state.recent[ch] ==>
      exists i :: w.dayStart <= i < |w.log|
                  && w.log[i] == Receipt(w.state.recent[ch][d], w.log[i].taskId, ch, Success, d)
  }

  lemma AttemptKeepsSourced(cfg: Config, env: Env, p: Progress, cand: Candidate, ch: Channel)
    requires Sourced(p.w) && p.w.dayStart <= |p.w.log|
    ensures Sourced(Attempt(cfg, env, p, cand, ch).w)
  {
    AttemptMeans(cfg, env, p, cand, ch);
    var w, w' := p.w, Attempt(cfg, env, p, cand, ch).w;
    hide Attempt;
    forall c, d | c in w'.state.recent && d in w'.state.recent[c]
      ensures exists i :: w'.dayStart <= i < |w'.log|
                          && w'.log[i] == Receipt(w'.state.recent[c][d], w'.log[i].taskId, c, Success, d)
    {
      if env.accepts(|w.log|) && c == ch && d == env.hash(cand.message) {
        assert w'.log[|w.log|].at == env.clock(|w.log|);
      } else {
        assert c in w.state.recent && d in w.state.recent[c] && w'.state.recent[c][d] == w.state.recent[c][d];
        var i :| w.dayStart <= i < |w.log| && w.log[i] == Receipt(w.state.recent[c][d], w.log[i].taskId, c, Success, d);
        assert w'.log[i] == w.log[i];
      }
    }
  }

  lemma LongerLogSourced(w: World, w': World)
    requires Sourced(w) && w'.state.recent == w.state.recent && w'.dayStart == w.dayStart && w.log <= w'.log
    ensures Sourced(w')
  {
    forall c, d | c in w'.state.recent && d in w'.state.recent[c]
      ensures exists i :: w'.dayStart <= i < |w'.log|
                          && w'.log[i] == Receipt(w'.state.recent[c][d], w'.log[i].taskId, c, Success, d)
    {
      var i :| w.dayStart <= i < |w.log| && w.log[i] == Receipt(w.state.recent[c][d], w.log[i].taskId, c, Success, d);
      assert w'.log[i] == w.log[i];
    }
  }

  lemma {:induction false} WalkKeepsSourced(cfg: Config, env: Env, p: Progress, cand: Candidate,
                                            route: seq<Channel>, last: Reason)
    requires Sourced(p.w) && p.w.dayStart <= |p.w.log|
    ensures var w' := Walk(cfg, env, p, cand, route, last).0.w; Sourced(w') && w'.dayStart <= |w'.log|
    decreases |route|
  {
    hide Sourced, Obstacle;
    if route != [] {
      var obstacle := Obstacle(cfg, env, p.w.state, route[0], cand.message);
      if obstacle.Some? {
        WalkKeepsSourced(cfg, env, p, cand, route[1..], obstacle.value);
      } else {
        AttemptKeepsSourced(cfg, env, p, cand, route[0]);
        WalkKeepsSourced(cfg, env, Attempt(cfg, env, p, cand, route[0]), cand, route[1..], SendFailed);
      }
    }
  }

  lemma {:induction false} DispatchKeepsSourced(cfg: Config, env: Env, p: Progress, cands: seq<Candidate>)
    requires Sourced(p.w) && p.w.dayStart <= |p.w.log|
    ensures Sourced(Dispatch(cfg, env, p, cands).w)
    decreases |cands|
  {
    hide Sourced, Walk;
    if cands != [] {
      var cand, p1 := cands[0], Offer(cfg, env, p, cands[0]);
      if Offerable(cfg, env, cand) {
        var (q, failure) := Walk(cfg, env, p, cand, RouteOf(cfg, cand.channel), NoChannel);
        WalkKeepsSourced(cfg, env, p, cand, RouteOf(cfg, cand.channel), NoChannel);
        LongerLogSourced(q.w, p1.w);
      }
      DispatchKeepsSourced(cfg, env, p1, cands[1..]);
    }
  }

  /** Over any sequence of complete runs no hash blocks a message that was not sent that day. */
  lemma {:induction false} CacheComesFromSends(cfg: Config, w: World, sessions: seq<Session>)
    requires WorldOk(cfg, w) && AllSound(cfg, w, sessions) && Sourced(w)
    ensures Sourced(AfterAll(cfg, w, sessions))
    decreases |sessions|
  {
    if sessions != [] {
      var s := sessions[0];
      RunLaws(cfg, s.env, w, s.today, s.cands);
      DispatchKeepsSourced(cfg, s.env, Begin(s.env, w, s.today), s.cands);
      CacheComesFromSends(cfg, After(cfg, w, s), sessions[1..]);
    }
  }
}
