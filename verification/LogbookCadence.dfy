/** The schedule that the automatic rule of the operator logbook produces over whole books. */
module LogbookCadence {
  import opened Common
  import opened Logbook

  // ----- the rule on serial numbers alone -----

  /** The last reflective serial the reader sees once serial n was written by the automatic rule. */
  function LastAfter(n: nat, last: Option<nat>): Option<nat> {
    if Due(n, last) && n <= LAST_VISIBLE then Some(n) else last
  }

  /** The last visible reflective serial before serial m, when the rule writes every serial from n on. */
  function LastAt(n: nat, last: Option<nat>, m: nat): Option<nat>
    requires n <= m
    decreases m
  {
    if m == n then last else LastAfter(m - 1, LastAt(n, last, m - 1))
  }

  /** Whether serial m comes out reflective. */
  predicate Reflects(n: nat, last: Option<nat>, m: nat)
    requires n <= m
  {
    Due(m, LastAt(n, last, m))
  }

  /** In the week after a reflective multiple of seven only the next multiple is due. */
  lemma DueAfterMultiple(q: nat, m: nat)
    requires 7 * q < m <= 7 * q + 7
    ensures Due(m, Some(7 * q)) <==> m == 7 * q + 7
    ensures m % 7 == 0 <==> m == 7 * q + 7
    ensures (m - 1) / 7 == q
  {
    assert m == 7 * q + 7 ==> m == 7 * (q + 1);
  }

  lemma DueFromEmpty(m: nat)
    requires 1 <= m <= 7
    ensures Due(m, None) <==> m == 7
  {
  }

  /** From an empty book a log is reflective exactly at multiples of seven, while names have four digits. */
  lemma {:induction false} EmptyBookCadence(m: nat)
    requires 1 <= m <= LAST_VISIBLE
    ensures Reflects(1, None, m) <==> m % 7 == 0
    ensures LastAt(1, None, m) == if m <= 7 then None else Some((m - 1) / 7 * 7)
  {
    hide Due;
    if m <= 7 {
      DueFromEmpty(m);
    } else {
      DueAfterMultiple((m - 1) / 7, m);
    }
    if m > 1 {
      EmptyBookCadence(m - 1);
      if m > 8 {
        DueAfterMultiple((m - 2) / 7, m - 1);
      }
    }
  }

  /**
   * From serial 10000 on new files are invisible to the reader: the rule keeps seeing 9996 as the
   * last reflective log, and every log from 10003 on comes out reflective.
   */
  lemma {:induction false} FiveDigitCadence(m: nat)
    requires m > LAST_VISIBLE
    ensures Reflects(1, None, m) <==> m >= 10003
    ensures LastAt(1, None, m) == Some(9996)
  {
    if m == LAST_VISIBLE + 1 {
      EmptyBookCadence(LAST_VISIBLE);
    } else {
      FiveDigitCadence(m - 1);
    }
  }

  /** The reflective serial that follows a reflective serial s. */
  function NextReflective(s: nat): (t: nat)
    ensures s + 5 <= t <= s + 8
    ensures t % 7 != 0 ==> t == s + 8
  {
    if s % 7 == 0 then s + 7 else if s % 7 == 1 then s + 6 else if s % 7 == 2 then s + 5 else s + 8
  }

  lemma DueNext(s: nat, m: nat)
    requires s < m <= NextReflective(s)
    ensures Due(m, Some(s)) <==> m == NextReflective(s)
  {
  }

  /** After a visible reflective serial s, the next one is NextReflective(s) and none lies between. */
  lemma {:induction false} NextIsNext(n: nat, last: Option<nat>, s: nat, m: nat)
    requires n <= s < m <= NextReflective(s) && m <= LAST_VISIBLE
    requires Reflects(n, last, s)
    ensures LastAt(n, last, m) == Some(s)
    ensures Reflects(n, last, m) <==> m == NextReflective(s)
    decreases m
  {
    DueNext(s, m);
    hide Due, NextReflective;
    if m > s + 1 {
      DueNext(s, m - 1);
      NextIsNext(n, last, s, m - 1);
    }
  }

  /** Consecutive reflective logs of the automatic rule are five to eight apart, from any history. */
  lemma ConsecutiveGap(n: nat, last: Option<nat>, s: nat, t: nat)
    requires n <= s < t <= LAST_VISIBLE
    requires Reflects(n, last, s) && Reflects(n, last, t)
    requires forall m :: s < m < t ==> !Reflects(n, last, m)
    ensures t == NextReflective(s) && 5 <= t - s <= 8
  {
    if t < NextReflective(s) {
      NextIsNext(n, last, s, t);
    } else {
      NextIsNext(n, last, s, NextReflective(s));
    }
  }

  /** The k-th reflective serial after s. */
  function Nth(s: nat, k: nat): nat
    decreases k
  {
    if k == 0 then s else Nth(NextReflective(s), k - 1)
  }

  /** How many reflective logs it takes from s to a multiple of seven: at most four. */
  function StepsToLock(s: nat): (k: nat)
    ensures k <= 4
  {
    var r := s % 7;
    if r == 0 then 0 else if r <= 2 then 1 else 7 - r
  }

  lemma {:induction false} LockReached(s: nat)
    ensures Nth(s, StepsToLock(s)) % 7 == 0
    ensures s <= Nth(s, StepsToLock(s)) <= s + 8 * StepsToLock(s)
    ensures forall k :: 0 <= k < StepsToLock(s) ==> Nth(s, k) % 7 != 0
    decreases StepsToLock(s)
  {
    if StepsToLock(s) > 0 {
      var t := NextReflective(s);
      assert StepsToLock(t) == StepsToLock(s) - 1;
      LockReached(t);
      forall k | 0 <= k < StepsToLock(s) ensures Nth(s, k) % 7 != 0 {
        if k > 0 {
          assert Nth(s, k) == Nth(t, k - 1);
        }
      }
    }
  }

  lemma {:induction false} NthReflects(n: nat, last: Option<nat>, s: nat, k: nat)
    requires n <= s && Reflects(n, last, s)
    requires Nth(s, k) <= LAST_VISIBLE
    ensures n <= s <= Nth(s, k) && Reflects(n, last, Nth(s, k))
    decreases k
  {
    if k > 0 {
      NthGrows(NextReflective(s), k - 1);
      NextIsNext(n, last, s, NextReflective(s));
      NthReflects(n, last, NextReflective(s), k - 1);
    }
  }

  lemma {:induction false} NthGrows(s: nat, k: nat)
    ensures Nth(s, k) >= s
    decreases k
  {
    if k > 0 {
      NthGrows(NextReflective(s), k - 1);
    }
  }

  /** Once a multiple of seven is reflective, exactly the multiples of seven are. */
  lemma {:induction false} Locked(n: nat, last: Option<nat>, t: nat, m: nat)
    requires n <= t <= m <= LAST_VISIBLE
    requires t % 7 == 0 && Reflects(n, last, t)
    ensures Reflects(n, last, m) <==> m % 7 == 0
    ensures m > t ==> LastAt(n, last, m) == Some((m - 1) / 7 * 7)
    decreases m
  {
    if m > t {
      Locked(n, last, t, m - 1);
      DueAfterMultiple((m - 1) / 7, m);
      if m - 1 > t {
        DueAfterMultiple((m - 2) / 7, m - 1);
      }
    }
  }

  /**
   * From any history, the schedule locks onto the multiples of seven within four further reflective
   * logs after any reflective log s, and stays there as long as names have four digits.
   */
  lemma SelfStabilises(n: nat, last: Option<nat>, s: nat) returns (t: nat)
    requires n <= s <= LAST_VISIBLE && Reflects(n, last, s)
    ensures exists k :: 0 <= k <= 4 && t == Nth(s, k)
    ensures s <= t <= s + 32 && t % 7 == 0
    ensures forall m :: t <= m <= LAST_VISIBLE ==> (Reflects(n, last, m) <==> m % 7 == 0)
  {
    LockReached(s);
    t := Nth(s, StepsToLock(s));
    if t <= LAST_VISIBLE {
      NthReflects(n, last, s, StepsToLock(s));
      forall m | t <= m <= LAST_VISIBLE ensures Reflects(n, last, m) <==> m % 7 == 0 {
        Locked(n, last, t, m);
      }
    }
  }

  // ----- the rule at work in a book -----

  /** A command line: the requested mode and what the operator supplies. */
  datatype Request = Request(mode: Mode, copy: Copy)

  function CreateAll(b: Book, requests: seq<Request>): Book {
    if requests == [] then b
    else
      var last := requests[|requests| - 1];
      Create(CreateAll(b, requests[..|requests| - 1]), last.mode, last.copy)
  }

  predicate CleanAuto(r: Request) {
    r.mode == Auto && Clean(r.copy)
  }

  /** The next serial lies above the serials in the directory. */
  predicate Ahead(b: Book) {
    forall f <- b.dir :: f.serial < NextSerial(b)
  }

  lemma LoadAppend(dir: seq<LogFile>, f: LogFile)
    ensures LoadLogFiles(dir + [f])
         == if f.serial <= LAST_VISIBLE then LoadLogFiles(dir) + [f] else LoadLogFiles(dir)
  {
    assert (dir + [f])[..|dir|] == dir;
  }

  lemma LastReflectiveAppend(history: seq<LogFile>, f: LogFile)
    ensures LastReflective(history + [f]) == if IsReflective(f) then Some(f.serial) else LastReflective(history)
  {
    assert (history + [f])[..|history|] == history;
  }

  function LastSeen(b: Book): Option<nat> {
    LastReflective(LoadLogFiles(b.dir))
  }

  /** Above the serials of the directory a new log goes to the end and replaces nothing. */
  lemma CreateAppends(b: Book, mode: Mode, copy: Copy)
    requires Ahead(b)
    ensures
      var f, b' := NewFile(NextSerial(b), ModeOf(b, mode), copy), Create(b, mode, copy);
      b' == Book(b.dir + [f], Some(NextSerial(b) + 1)) && NextSerial(b') == NextSerial(b) + 1 && Ahead(b')
  {
    NewFileSerial(NextSerial(b), ModeOf(b, mode), copy);
    hide NewFile, ModeOf, LoadLogFiles;
    assert b.dir != [] ==> b.dir[|b.dir| - 1] in b.dir;
  }

  lemma NewFileSerial(serial: nat, mode: Mode, copy: Copy)
    ensures NewFile(serial, mode, copy).serial == serial
  {
    hide BuildContent;
  }

  /** Creating a clean log moves the serial on by one and the last reflective log as the rule says. */
  lemma CreateStep(b: Book, copy: Copy)
    requires Clean(copy) && Ahead(b)
    ensures
      var b', n := Create(b, Auto, copy), NextSerial(b);
      && Ahead(b') && NextSerial(b') == n + 1 && LastSeen(b') == LastAfter(n, LastSeen(b))
      && |b'.dir| == |b.dir| + 1 && b.dir <= b'.dir
      && b'.dir[|b.dir|].serial == n && (IsReflective(b'.dir[|b.dir|]) <==> Due(n, LastSeen(b)))
  {
    var n, mode := NextSerial(b), ModeOf(b, Auto);
    var f := NewFile(n, mode, copy);
    CreateAppends(b, Auto, copy);
    RecognisedAs(n, mode, copy);
    LoadAppend(b.dir, f);
    LastReflectiveAppend(LoadLogFiles(b.dir), f);
    NewFileSerial(n, mode, copy);
    hide LastReflective, LoadLogFiles, IsReflective, BuildContent, Create, Ahead, NewFile, Clean;
  }

  /** What a series of automatic logs makes of a book. */
  ghost predicate Follows(b: Book, b': Book, count: nat) {
    var n, last, start := NextSerial(b), LastSeen(b), |b.dir|;
    && Ahead(b') && NextSerial(b') == n + count && LastSeen(b') == LastAt(n, last, n + count)
    && |b'.dir| == start + count && b.dir <= b'.dir
    && forall j :: start <= j < start + count ==> OnSchedule(b'.dir[j], n, last, n + (j - start))
  }

  /** The file carries serial m and is reflective as the schedule says. */
  predicate OnSchedule(f: LogFile, n: nat, last: Option<nat>, m: nat)
    requires n <= m
  {
    f.serial == m && (IsReflective(f) <==> Reflects(n, last, m))
  }

  lemma FollowsOn(b: Book, b1: Book, b2: Book, count: nat)
    requires Follows(b, b1, count) && Ahead(b2)
    requires NextSerial(b2) == NextSerial(b1) + 1 && LastSeen(b2) == LastAfter(NextSerial(b1), LastSeen(b1))
    requires |b2.dir| == |b1.dir| + 1 && b1.dir <= b2.dir
    requires b2.dir[|b1.dir|].serial == NextSerial(b1)
    requires IsReflective(b2.dir[|b1.dir|]) <==> Due(NextSerial(b1), LastSeen(b1))
    ensures Follows(b, b2, count + 1)
  {
    hide NextSerial, LastSeen, IsReflective, Due, Ahead;
    var n, last, start := NextSerial(b), LastSeen(b), |b.dir|;
    assert LastAt(n, last, n + count) == LastSeen(b1) && NextSerial(b1) == n + count;
    forall j | start <= j < start + count + 1 ensures OnSchedule(b2.dir[j], n, last, n + (j - start)) {
      if j < start + count {
        assert b2.dir[j] == b1.dir[j];
      }
    }
  }

  /**
   * In a book whose next serial lies above its files, the i-th automatic log has the next serial and
   * is reflective as the schedule says.
   */
  lemma {:induction false} BookFollowsSchedule(b: Book, requests: seq<Request>)
    requires Ahead(b) && forall r <- requests :: CleanAuto(r)
    ensures Follows(b, CreateAll(b, requests), |requests|)
    decreases |requests|
  {
    if requests != [] {
      var init, r := requests[..|requests| - 1], requests[|requests| - 1];
      assert r in requests && forall c <- init :: c in requests;
      BookFollowsSchedule(b, init);
      hide Create, Ahead, NextSerial, LastSeen, Due, IsReflective, Clean;
      var b1 := CreateAll(b, init);
      CreateStep(b1, r.copy);
      FollowsOn(b, b1, Create(b1, Auto, r.copy), |init|);
    }
  }

  /** From an empty book, automatic logs are numbered from one and reflective at multiples of seven. */
  lemma EmptyBookSchedule(requests: seq<Request>, i: nat)
    requires forall r <- requests :: CleanAuto(r)
    requires i < |requests| && i + 1 <= LAST_VISIBLE
    ensures
      var f := CreateAll(Book([], None), requests).dir;
      |f| == |requests| && f[i].serial == i + 1 && (IsReflective(f[i]) <==> (i + 1) % 7 == 0)
  {
    hide BuildContent, CleanAuto, CreateAll;
    var b := Book([], None);
    BookFollowsSchedule(b, requests);
    EmptyBookCadence(i + 1);
    assert NextSerial(b) == 1 && LastSeen(b) == None;
    hide LastAt, IsReflective, Due, NextSerial, LastSeen;
    assert OnSchedule(CreateAll(b, requests).dir[i], 1, None, 1 + i);
  }

  // ----- the validator -----

  ghost predicate Numbered(dir: seq<LogFile>) {
    forall i :: 0 <= i < |dir| ==> dir[i].serial == dir[0].serial + i
  }

  ghost predicate GoodHeaders(dir: seq<LogFile>) {
    forall i :: 0 <= i < |dir| ==> GoodHeader(dir[i])
  }

  /** Serials without gaps, correct headers, and a next serial that continues them. */
  ghost predicate WellKept(b: Book) {
    && (b.stored.Some? ==> b.stored.value > 0)
    && Numbered(b.dir) && GoodHeaders(b.dir)
    && (b.dir != [] ==> b.dir[|b.dir| - 1].serial <= LAST_VISIBLE || b.stored.Some?)
    && (b.dir != [] && b.stored.Some? ==> b.stored.value == b.dir[|b.dir| - 1].serial + 1)
  }

  lemma {:induction false} VisiblePrefix(dir: seq<LogFile>)
    requires Numbered(dir)
    ensures LoadLogFiles(dir) <= dir
    ensures dir != [] && dir[|dir| - 1].serial <= LAST_VISIBLE ==> LoadLogFiles(dir) == dir
    ensures |LoadLogFiles(dir)| < |dir| ==> dir[|LoadLogFiles(dir)|].serial > LAST_VISIBLE
  {
    if dir != [] {
      VisiblePrefix(dir[..|dir| - 1]);
    }
  }

  lemma NewFileHeader(serial: nat, mode: Mode, copy: Copy)
    ensures GoodHeader(NewFile(serial, mode, copy))
  {
    hide Header;
  }

  lemma AppendKept(dir: seq<LogFile>, f: LogFile)
    requires Numbered(dir) && GoodHeaders(dir)
    requires GoodHeader(f) && (dir != [] ==> f.serial == dir[|dir| - 1].serial + 1)
    ensures Numbered(dir + [f]) && GoodHeaders(dir + [f])
  {
    hide GoodHeader;
  }

  /** Any log, automatic or not, keeps the book well kept; the rule never rewrites an existing serial. */
  lemma CreateKeepsBook(b: Book, mode: Mode, copy: Copy)
    requires WellKept(b)
    ensures WellKept(Create(b, mode, copy)) && b.dir <= Create(b, mode, copy).dir
  {
    hide NewFile, BuildContent, GoodHeader, Numbered, GoodHeaders, ModeOf;
    VisiblePrefix(b.dir);
    var f := NewFile(NextSerial(b), ModeOf(b, mode), copy);
    NewFileHeader(NextSerial(b), ModeOf(b, mode), copy);
    NewFileSerial(NextSerial(b), ModeOf(b, mode), copy);
    hide LoadLogFiles;
    assert Write(b.dir, f) == b.dir + [f];
    AppendKept(b.dir, f);
  }

  lemma {:induction false} CreateAllKeepsBook(b: Book, requests: seq<Request>)
    requires WellKept(b)
    ensures WellKept(CreateAll(b, requests))
  {
    hide Create, WellKept;
    if requests != [] {
      var init, last := requests[..|requests| - 1], requests[|requests| - 1];
      CreateAllKeepsBook(b, init);
      CreateKeepsBook(CreateAll(b, init), last.mode, last.copy);
    }
  }

  lemma NumberedSnoc(history: seq<LogFile>)
    requires history != []
    ensures
      var n := |history| - 1;
      Numbered(history) <==> Numbered(history[..n]) && history[n].serial == history[0].serial + n
  {
    var n := |history| - 1;
    assert forall i :: 0 <= i < n ==> history[..n][i] == history[i];
    if Numbered(history[..n]) && history[n].serial == history[0].serial + n {
      forall i | 0 <= i <= n ensures history[i].serial == history[0].serial + i {
        assert i < n ==> history[i] == history[..n][i];
      }
    }
  }

  lemma {:induction false} NoGapMeaning(history: seq<LogFile>)
    ensures GapIssues(history) == [] <==> Numbered(history)
  {
    if history != [] {
      var n := |history| - 1;
      NoGapMeaning(history[..n]);
      NumberedSnoc(history);
      hide Numbered;
    }
  }

  predicate GoodHeader(f: LogFile) {
    FirstLine(f) == Header(f.serial)
  }

  lemma GoodHeadersSnoc(history: seq<LogFile>)
    requires history != []
    ensures var n := |history| - 1; GoodHeaders(history) <==> GoodHeaders(history[..n]) && GoodHeader(history[n])
  {
    hide GoodHeader;
    var n := |history| - 1;
    assert forall i :: 0 <= i < n ==> history[..n][i] == history[i];
  }

  lemma {:induction false} GoodHeadersMeaning(history: seq<LogFile>)
    ensures HeaderIssues(history) == [] <==> GoodHeaders(history)
  {
    hide Header;
    if history != [] {
      var n := |history| - 1;
      GoodHeadersMeaning(history[..n]);
      GoodHeadersSnoc(history);
      hide GoodHeaders, FirstLine;
    }
  }

  lemma PrefixKept(history: seq<LogFile>, dir: seq<LogFile>)
    requires history <= dir && Numbered(dir) && GoodHeaders(dir)
    ensures Numbered(history) && GoodHeaders(history)
  {
    hide GoodHeader;
    forall i | 0 <= i < |history| ensures history[i].serial == history[0].serial + i && GoodHeader(history[i]) {
      assert history[i] == dir[i];
    }
  }

  lemma GapFreeDirectory(dir: seq<LogFile>)
    requires Numbered(dir) && GoodHeaders(dir)
    ensures GapIssues(LoadLogFiles(dir)) == [] && HeaderIssues(LoadLogFiles(dir)) == []
  {
    hide GoodHeaders, Numbered, LoadLogFiles, GapIssues, HeaderIssues;
    VisiblePrefix(dir);
    PrefixKept(LoadLogFiles(dir), dir);
    NoGapMeaning(LoadLogFiles(dir));
    GoodHeadersMeaning(LoadLogFiles(dir));
  }

  /** Whatever logs are created from a well-kept book, the validator finds no issue. */
  lemma CreatedLogsValidate(b: Book, requests: seq<Request>)
    requires WellKept(b)
    ensures var history := LoadLogFiles(CreateAll(b, requests).dir);
            GapIssues(history) + HeaderIssues(history) == []
  {
    hide Create, CreateAll, GoodHeaders, Numbered, LoadLogFiles, GapIssues, HeaderIssues;
    CreateAllKeepsBook(b, requests);
    GapFreeDirectory(CreateAll(b, requests).dir);
  }
}
