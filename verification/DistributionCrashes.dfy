/**
 * Runs of the distribution engine that die after some receipts and before they write the state file.
 * The receipt file then holds receipts that no later run takes into account.
 */
module DistributionCrashes {
  import opened Common
  import opened DistributionEngine
  import opened DistributionLaws

  /** A line of the receipt file; an orphan was written by a run that died. */
  datatype Entry = Entry(receipt: Receipt, orphan: bool)

  /**
   * `w` is what complete runs recorded, `file` the receipt file with the orphans in it.  `today` is the
   * date of the last run, `start` the length of the file when the first run of that date began, and
   * `died` the number of runs of that date that died.
   */
  datatype Life = Life(w: World, file: seq<Entry>, today: int, start: nat, died: nat)

  datatype Turn =
    | Completed(s: Session)
    | Died(s: Session, done: nat, tried: nat)  // after `done` candidates and `tried` channels of the next one

  /** What a run has done when it dies. */
  function Partial(cfg: Config, w: World, s: Session, done: nat, tried: nat): Progress {
    var n := Min(done, |s.cands|);
    var p := Dispatch(cfg, s.env, Begin(s.env, w, s.today), s.cands[..n]);
    if n < |s.cands| && Offerable(cfg, s.env, s.cands[n]) then
      var route := RouteOf(cfg, s.cands[n].channel);
      Walk(cfg, s.env, p, s.cands[n], route[..Min(tried, |route|)], NoChannel).0
    else p
  }

  function Reached(cfg: Config, w: World, t: Turn): World {
    match t
    case Completed(s) => After(cfg, w, s)
    case Died(s, done, tried) => Partial(cfg, w, s, done, tried).w
  }

  /** The lines that a turn adds to the file. */
  function Added(cfg: Config, w: World, t: Turn): seq<Entry> {
    var log := Reached(cfg, w, t).log;
    seq(|log[Min(|w.log|, |log|)..]|, i requires 0 <= i < |log[Min(|w.log|, |log|)..]| =>
          Entry(log[Min(|w.log|, |log|)..][i], t.Died?))
  }

  function Live(cfg: Config, l: Life, t: Turn): Life {
    var w' := Reached(cfg, l.w, t);
    var newDay := t.s.today != l.today;
    Life(if t.Died? then l.w.(latest := w'.latest) else w',
         l.file + Added(cfg, l.w, t),
         t.s.today,
         if newDay then |l.file| else l.start,
         (if newDay then 0 else l.died) + if t.Died? then 1 else 0)
  }

  function LiveAll(cfg: Config, l: Life, turns: seq<Turn>): Life
    decreases |turns|
  {
    if turns == [] then l else LiveAll(cfg, Live(cfg, l, turns[0]), turns[1..])
  }

  /** The clock and the date never go back. */
  ghost predicate Timed(cfg: Config, l: Life, turns: seq<Turn>)
    decreases |turns|
  {
    turns == [] ||
    (Sound(cfg, turns[0].s.env, l.w) && l.today <= turns[0].s.today && Timed(cfg, Live(cfg, l, turns[0]), turns[1..]))
  }

  // ----- reading the file -----

  /** The successful sends on a channel, by runs that died or by the others. */
  function Sends(file: seq<Entry>, ch: Channel, orphan: bool): nat {
    if file == [] then 0
    else
      var e := file[|file| - 1];
      Sends(file[..|file| - 1], ch, orphan) + if e.orphan == orphan && Is(e.receipt, ch, true) then 1 else 0
  }

  lemma {:induction false} SendsAppend(a: seq<Entry>, b: seq<Entry>, ch: Channel, orphan: bool)
    ensures Sends(a + b, ch, orphan) == Sends(a, ch, orphan) + Sends(b, ch, orphan)
    decreases |b|
  {
    if b == [] {
      assert a + b == a;
    } else {
      SendsAppend(a, b[..|b| - 1], ch, orphan);
      assert (a + b)[..|a + b| - 1] == a + b[..|b| - 1];
    }
  }

  function Marked(log: seq<Receipt>, orphan: bool): seq<Entry> {
    seq(|log|, i requires 0 <= i < |log| => Entry(log[i], orphan))
  }

  lemma {:induction false} SendsMarked(log: seq<Receipt>, from: nat, ch: Channel, orphan: bool, kind: bool)
    requires from <= |log|
    ensures Sends(Marked(log[from..], orphan), ch, kind) == if orphan == kind then Count(log, from, ch, true) else 0
    decreases |log|
  {
    if |log| > from {
      var init := log[..|log| - 1];
      SendsMarked(init, from, ch, orphan, kind);
      var all := Marked(log[from..], orphan);
      assert all[..|all| - 1] == Marked(init[from..], orphan);
      assert all[|all| - 1] == Entry(log[|log| - 1], orphan);
    }
  }

  /** The sends between two positions of a log. */
  lemma {:induction false} CountSplits(log: seq<Receipt>, log': seq<Receipt>, from: nat, ch: Channel)
    requires log <= log' && from <= |log|
    ensures Count(log', from, ch, true) == Count(log, from, ch, true) + Count(log', |log|, ch, true)
    decreases |log'|
  {
    if |log'| == |log| {
      assert log == log';
    } else {
      assert log <= log'[..|log'| - 1];
      CountSplits(log, log'[..|log'| - 1], from, ch);
    }
  }

  // ----- what a turn keeps -----

  /** The sends that a state file counts for a date. */
  function CountOn(w: World, today: int, ch: Channel): nat {
    if w.state.day == today then Get(w.state.counts, ch, 0) else 0
  }

  /** The sends that the state file counts for the date of the last run. */
  function Stored(l: Life, ch: Channel): nat {
    CountOn(l.w, l.today, ch)
  }

  ghost predicate Alive(cfg: Config, l: Life) {
    && cfg.Valid() && WorldOk(cfg, l.w) && l.start <= |l.file| && l.w.state.day <= l.today
    && forall ch ::
         && Sends(l.file[l.start..], ch, false) == Stored(l, ch)
         && Sends(l.file[l.start..], ch, true) <= l.died * cfg.maxPerDay
  }

  lemma AliveAtFirst(cfg: Config, today: int, latest: Time)
    requires cfg.Valid()
    ensures Alive(cfg, Life(Fresh(today, latest), [], today, 0, 0))
  {
  }

  /** A run that dies has kept all rules of a run until then. */
  lemma PartialOk(cfg: Config, w: World, s: Session, done: nat, tried: nat)
    requires WorldOk(cfg, w) && Sound(cfg, s.env, w)
    ensures RunOk(cfg, s.env, Begin(s.env, w, s.today).w, Partial(cfg, w, s, done, tried))
  {
    hide RunOk, Sound, WorldOk, Dispatch, Walk;
    var b := Begin(s.env, w, s.today);
    var n := Min(done, |s.cands|);
    BeginsOk(cfg, s.env, w, s.today);
    DispatchKeeps(cfg, s.env, b.w, b, s.cands[..n]);
    if n < |s.cands| && Offerable(cfg, s.env, s.cands[n]) {
      var route := RouteOf(cfg, s.cands[n].channel);
      WalkKeeps(cfg, s.env, b.w, Dispatch(cfg, s.env, b, s.cands[..n]), s.cands[n],
                route[..Min(tried, |route|)], NoChannel);
    }
  }

  /** What a turn reaches: an extension of the log under the cap of the day. */
  lemma TurnReaches(cfg: Config, w: World, t: Turn)
    requires WorldOk(cfg, w) && Sound(cfg, t.s.env, w)
    ensures
      var w', from := Reached(cfg, w, t), if w.state.day == t.s.today then w.dayStart else |w.log|;
      && w.log <= w'.log && from <= |w.log| && WorldOk(cfg, w') && w'.state.day == t.s.today
      && forall ch :: Get(w'.state.counts, ch, 0) == Count(w'.log, from, ch, true) <= cfg.maxPerDay
  {
    match t
    case Died(s, done, tried) => PartialOk(cfg, w, s, done, tried);
    case Completed(s) =>
      BeginsOk(cfg, s.env, w, s.today);
      DispatchKeeps(cfg, s.env, Begin(s.env, w, s.today).w, Begin(s.env, w, s.today), s.cands);
  }

  lemma AddedMarked(cfg: Config, w: World, t: Turn)
    requires w.log <= Reached(cfg, w, t).log
    ensures Added(cfg, w, t) == Marked(Reached(cfg, w, t).log[|w.log|..], t.Died?)
  {
    hide Reached;
  }

  /** The sends a turn adds, in terms of the stored counts. */
  lemma TurnSends(cfg: Config, w: World, t: Turn, ch: Channel, kind: bool)
    requires WorldOk(cfg, w) && Sound(cfg, t.s.env, w)
    ensures
      var w', before := Reached(cfg, w, t), CountOn(w, t.s.today, ch);
      && before <= Get(w'.state.counts, ch, 0) <= cfg.maxPerDay
      && Sends(Added(cfg, w, t), ch, kind)
         == if t.Died? == kind then Get(w'.state.counts, ch, 0) - before else 0
  {
    TurnReaches(cfg, w, t);
    AddedMarked(cfg, w, t);
    assert Get(w.state.counts, ch, 0) == Count(w.log, w.dayStart, ch, true);
    var w', from := Reached(cfg, w, t), if w.state.day == t.s.today then w.dayStart else |w.log|;
    assert Get(w'.state.counts, ch, 0) == Count(w'.log, from, ch, true) <= cfg.maxPerDay;
    hide *;
    SendsMarked(w'.log, |w.log|, ch, t.Died?, kind);
    CountSplits(w.log, w'.log, from, ch);
    CountNothing(w.log, ch);
  }

  lemma CountNothing(log: seq<Receipt>, ch: Channel)
    ensures Count(log, |log|, ch, true) == 0
  {
  }

  lemma LatestIrrelevant(cfg: Config, w: World, t: Turn)
    requires WorldOk(cfg, w) && Sound(cfg, t.s.env, w)
    ensures WorldOk(cfg, w.(latest := Reached(cfg, w, t).latest))
  {
    TurnReaches(cfg, w, t);
    LatestGrows(cfg, w, t);
    hide Reached, Sound;
    var w' := w.(latest := Reached(cfg, w, t).latest);
    forall i | w'.dayStart <= i < |w'.log| && w'.log[i].status.Success?
      ensures w'.log[i].at <= w'.latest && (Kept(w', i) || w'.log[i].at + 2 * cfg.contentCooldown < w'.latest)
    {
      assert Kept(w', i) == Kept(w, i);
      assert Kept(w, i) || w.log[i].at + 2 * cfg.contentCooldown < w.latest;
    }
  }

  lemma LatestGrows(cfg: Config, w: World, t: Turn)
    requires WorldOk(cfg, w) && Sound(cfg, t.s.env, w)
    ensures w.latest <= Reached(cfg, w, t).latest
  {
    match t
    case Died(s, done, tried) => PartialOk(cfg, w, s, done, tried);
    case Completed(s) =>
      BeginsOk(cfg, s.env, w, s.today);
      DispatchKeeps(cfg, s.env, Begin(s.env, w, s.today).w, Begin(s.env, w, s.today), s.cands);
  }

  lemma FileOfDay(l: Life, added: seq<Entry>, start: nat, newDay: bool, ch: Channel, kind: bool)
    requires l.start <= |l.file| && start == if newDay then |l.file| else l.start
    ensures Sends((l.file + added)[start..], ch, kind)
         == (if newDay then 0 else Sends(l.file[l.start..], ch, kind)) + Sends(added, ch, kind)
  {
    SendsAppend(l.file[start..], added, ch, kind);
    assert (l.file + added)[start..] == l.file[start..] + added;
  }

  lemma StoredAround(cfg: Config, l: Life, t: Turn, ch: Channel)
    requires l.w.state.day <= l.today <= t.s.today && Reached(cfg, l.w, t).state.day == t.s.today
    ensures Stored(Live(cfg, l, t), ch)
         == if t.Died? then CountOn(l.w, t.s.today, ch) else Get(Reached(cfg, l.w, t).state.counts, ch, 0)
    ensures CountOn(l.w, t.s.today, ch) == if t.s.today != l.today then 0 else Stored(l, ch)
  {
    hide Reached, Added;
  }

  lemma FileAround(cfg: Config, l: Life, t: Turn, ch: Channel, kind: bool)
    requires l.start <= |l.file|
    ensures
      var l' := Live(cfg, l, t);
      && l'.start <= |l'.file|
      && Sends(l'.file[l'.start..], ch, kind)
         == (if t.s.today != l.today then 0 else Sends(l.file[l.start..], ch, kind))
            + Sends(Added(cfg, l.w, t), ch, kind)
  {
    hide Reached, Added, Sends;
    FileOfDay(l, Added(cfg, l.w, t), Live(cfg, l, t).start, t.s.today != l.today, ch, kind);
  }

  lemma DiedAround(cfg: Config, l: Life, t: Turn)
    ensures
      Live(cfg, l, t).died * cfg.maxPerDay
      == (if t.s.today != l.today then 0 else l.died * cfg.maxPerDay) + if t.Died? then cfg.maxPerDay else 0
  {
    hide Reached, Added;
    assert (l.died + 1) * cfg.maxPerDay == l.died * cfg.maxPerDay + cfg.maxPerDay;
  }

  /** The accounts of one channel after a turn. */
  lemma TurnAccounts(cfg: Config, l: Life, t: Turn, ch: Channel)
    requires Alive(cfg, l) && Sound(cfg, t.s.env, l.w) && l.today <= t.s.today
    ensures
      var l' := Live(cfg, l, t);
      && l'.start <= |l'.file|
      && Sends(l'.file[l'.start..], ch, false) == Stored(l', ch)
      && Sends(l'.file[l'.start..], ch, true) <= l'.died * cfg.maxPerDay
  {
    TurnDay(cfg, l, t);
    assert Sends(l.file[l.start..], ch, false) == Stored(l, ch);
    assert Sends(l.file[l.start..], ch, true) <= l.died * cfg.maxPerDay;
    hide Reached, Added, WorldOk, Sound, Sends, Alive, Live, Stored, Get;
    TurnSends(cfg, l.w, t, ch, false);
    TurnSends(cfg, l.w, t, ch, true);
    StoredAround(cfg, l, t, ch);
    FileAround(cfg, l, t, ch, false);
    FileAround(cfg, l, t, ch, true);
    DiedAround(cfg, l, t);
  }

  lemma TurnDay(cfg: Config, l: Life, t: Turn)
    requires Alive(cfg, l) && Sound(cfg, t.s.env, l.w)
    ensures l.start <= |l.file| && cfg.Valid() && l.w.state.day <= l.today
    ensures WorldOk(cfg, l.w) && Reached(cfg, l.w, t).state.day == t.s.today
  {
    TurnReaches(cfg, l.w, t);
  }

  lemma TurnWorld(cfg: Config, l: Life, t: Turn)
    requires Alive(cfg, l) && Sound(cfg, t.s.env, l.w) && l.today <= t.s.today
    ensures var l' := Live(cfg, l, t); WorldOk(cfg, l'.w) && l'.w.state.day <= l'.today
  {
    TurnDay(cfg, l, t);
    TurnReaches(cfg, l.w, t);
    LatestIrrelevant(cfg, l.w, t);
    hide Reached, Added, WorldOk, Sound, Sends, Alive;
  }

  lemma TurnKeepsAlive(cfg: Config, l: Life, t: Turn)
    requires Alive(cfg, l) && Sound(cfg, t.s.env, l.w) && l.today <= t.s.today
    ensures Alive(cfg, Live(cfg, l, t))
  {
    TurnDay(cfg, l, t);
    TurnWorld(cfg, l, t);
    forall ch
      ensures
        var l' := Live(cfg, l, t);
        && l'.start <= |l'.file|
        && Sends(l'.file[l'.start..], ch, false) == Stored(l', ch)
        && Sends(l'.file[l'.start..], ch, true) <= l'.died * cfg.maxPerDay
    {
      hide *;
      TurnAccounts(cfg, l, t, ch);
    }
    hide Live, WorldOk, Sound, Sends, Stored;
  }

  /**
   * Over every history with runs that died: the sends of complete runs on a date are the stored count
   * and under the cap, and the sends of runs that died come on top, at most a cap's worth for each.
   */
  lemma {:induction false} DeadRunsComeOnTop(cfg: Config, l: Life, turns: seq<Turn>)
    requires Alive(cfg, l) && Timed(cfg, l, turns)
    ensures Alive(cfg, LiveAll(cfg, l, turns))
    decreases |turns|
  {
    hide Alive, Live, Sound;
    if turns != [] {
      TurnKeepsAlive(cfg, l, turns[0]);
      DeadRunsComeOnTop(cfg, Live(cfg, l, turns[0]), turns[1..]);
    }
  }

  /**
   * So all sends of the date together respect the cap exactly when those of runs that died fit what
   * the stored count leaves of it.
   */
  lemma CapExactly(cfg: Config, l: Life, turns: seq<Turn>, ch: Channel)
    requires Alive(cfg, l) && Timed(cfg, l, turns)
    ensures
      var l' := LiveAll(cfg, l, turns);
      && l'.start <= |l'.file| && Stored(l', ch) <= cfg.maxPerDay
      && var orphans, others := Sends(l'.file[l'.start..], ch, true), Sends(l'.file[l'.start..], ch, false);
         && (orphans + others <= cfg.maxPerDay <==> orphans <= cfg.maxPerDay - Stored(l', ch))
         && orphans <= l'.died * cfg.maxPerDay
  {
    DeadRunsComeOnTop(cfg, l, turns);
    var l' := LiveAll(cfg, l, turns);
    hide LiveAll, Sends, Timed;
    assert Get(l'.w.state.counts, ch, 0) == Count(l'.w.log, l'.w.dayStart, ch, true) <= cfg.maxPerDay;
  }

  // ----- a run that died leaves no trace -----

  function CompletedOf(turns: seq<Turn>): seq<Session> {
    if turns == [] then []
    else (if turns[0].Completed? then [turns[0].s] else []) + CompletedOf(turns[1..])
  }

  /** The last clock reading does not matter to a run. */
  lemma AfterAnyLatest(cfg: Config, w: World, s: Session, latest: Time)
    ensures After(cfg, w.(latest := latest), s) == After(cfg, w, s)
  {
  }

  lemma {:induction false} AfterAllAnyLatest(cfg: Config, w: World, sessions: seq<Session>, latest: Time)
    ensures
      var a, b := AfterAll(cfg, w.(latest := latest), sessions), AfterAll(cfg, w, sessions);
      a.state == b.state && a.log == b.log && a.dayStart == b.dayStart
  {
    hide After;
    if sessions != [] {
      AfterAnyLatest(cfg, w, sessions[0], latest);
    }
  }

  /**
   * State file and recorded receipts are those of a history without the runs that died: what these
   * sent, the later runs send again.
   */
  lemma {:induction false} DeadRunsAreForgotten(cfg: Config, l: Life, turns: seq<Turn>)
    ensures
      var w', w := LiveAll(cfg, l, turns).w, AfterAll(cfg, l.w, CompletedOf(turns));
      w'.state == w.state && w'.log == w.log && w'.dayStart == w.dayStart
    decreases |turns|
  {
    hide After, Partial, Added;
    if turns != [] {
      var t, rest := turns[0], CompletedOf(turns[1..]);
      DeadRunsAreForgotten(cfg, Live(cfg, l, t), turns[1..]);
      if t.Died? {
        assert CompletedOf(turns) == rest;
        AfterAllAnyLatest(cfg, l.w, rest, Reached(cfg, l.w, t).latest);
      } else {
        assert CompletedOf(turns) == [t.s] + rest && ([t.s] + rest)[1..] == rest;
      }
    }
  }
}
