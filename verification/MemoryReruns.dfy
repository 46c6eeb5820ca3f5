/**
 * Which candidates survive reruns of the memory extractor on unchanged notes.  Cleaning takes off one
 * leading run of bullets, so a fact with a bullet in front changes once more when it is read back.
 */
module MemoryReruns {
  import opened Common
  import opened TextTools
  import opened MemoryBlock
  import opened MemoryMerge

  // ----- what cleaning produces -----

  /** Whitespace is single spaces. */
  predicate Collapsed(s: string) {
    forall i :: 0 <= i < |s| && IsSpace(s[i]) ==> s[i] == ' ' && (i + 1 < |s| ==> !IsSpace(s[i + 1]))
  }

  predicate Candidate(c: string) {
    c != "" && Stripped(c) && Collapsed(c) && !Rejected(c)
  }

  lemma {:induction false} CollapseFacts(s: string)
    ensures Collapsed(Collapse(s)) && (s != "" ==> Collapse(s) != "")
    ensures s != "" ==> (IsSpace(Collapse(s)[0]) <==> IsSpace(s[0]))
    ensures s != "" ==> (IsSpace(Collapse(s)[|Collapse(s)| - 1]) <==> IsSpace(s[|s| - 1]))
  {
    hide IsSpace;
    SpaceIsSpace();
    if s != "" {
      CollapseFacts(s[1..]);
      var rest, all := Collapse(s[1..]), Collapse(s);
      if !IsSpace(s[0]) || |s| == 1 || !IsSpace(s[1]) {
        assert all[1..] == rest;
        forall i | 0 <= i < |all| && IsSpace(all[i])
          ensures all[i] == ' ' && (i + 1 < |all| ==> !IsSpace(all[i + 1]))
        {
          if i > 0 {
            assert all[i] == rest[i - 1];
          }
        }
      }
    }
  }

  lemma SpaceIsSpace()
    ensures IsSpace(' ') && !IsSpace('-')
    ensures forall c :: IsBreak(c) ==> IsSpace(c) && c != ' '
  {
  }

  lemma {:induction false} CollapseIdle(s: string)
    requires Collapsed(s)
    ensures Collapse(s) == s
  {
    hide IsSpace;
    if s != "" {
      CollapsedSuffix(s, 1);
      CollapseIdle(s[1..]);
      assert s == [s[0]] + s[1..];
    }
  }

  lemma CollapsedSuffix(s: string, k: nat)
    requires Collapsed(s) && k <= |s|
    ensures Collapsed(s[k..])
  {
    hide IsSpace;
    forall i | 0 <= i < |s[k..]| && IsSpace(s[k..][i])
      ensures s[k..][i] == ' ' && (i + 1 < |s[k..]| ==> !IsSpace(s[k..][i + 1]))
    {
      assert s[k..][i] == s[k + i];
    }
  }

  lemma {:induction false} DropBulletsSuffix(s: string)
    ensures |DropBullets(s)| <= |s| && DropBullets(s) == s[|s| - |DropBullets(s)|..]
    ensures s != "" && IsBullet(s[0]) ==> |DropBullets(s)| < |s|
  {
    if s != "" && IsBullet(s[0]) {
      DropBulletsSuffix(s[1..]);
    }
  }

  lemma SuffixOfSuffix(s: string, i: nat, j: nat)
    requires i <= |s| && j <= |s| - i
    ensures s[i..][j..] == s[i + j..]
  {
  }

  /** Stripping bullets leaves a suffix, and a shorter one exactly when there was a bullet. */
  lemma StripBulletsSuffix(s: string)
    requires Stripped(s)
    ensures
      var r := StripBullets(s);
      && |r| <= |s| && r == s[|s| - |r|..]
      && (r != "" ==> !IsSpace(r[0])) && (|r| < |s| <==> s != "" && IsBullet(s[0]))
  {
    DropBulletsSuffix(s);
    var d := DropBullets(s);
    LStripFacts(d);
    hide IsSpace, DropBullets, LStrip;
    SuffixOfSuffix(s, |s| - |d|, |d| - |LStrip(d)|);
  }

  lemma StripBulletsFacts(s: string)
    requires Stripped(s) && Collapsed(s)
    ensures
      var r := StripBullets(s);
      && |r| <= |s| && r == s[|s| - |r|..] && Stripped(r) && Collapsed(r)
      && (|r| < |s| <==> s != "" && IsBullet(s[0]))
  {
    StripBulletsSuffix(s);
    var r := StripBullets(s);
    hide IsSpace, StripBullets, Collapsed, IsBullet;
    CollapsedSuffix(s, |s| - |r|);
    if r != "" {
      assert r[|r| - 1] == s[|s| - 1];
    }
  }

  /** Cleaning what is already collapsed takes off the bullets in front, or rejects what is left. */
  lemma SanitizeCollapsed(s: string)
    requires Stripped(s) && Collapsed(s)
    ensures Sanitize(s) == if Rejected(StripBullets(s)) then "" else StripBullets(s)
  {
    StripFacts(s);
    CollapseIdle(s);
    hide Collapse, Strip, StripBullets, Rejected;
  }

  lemma CleanedIsCandidate(raw: string)
    ensures Sanitize(raw) != "" ==> Candidate(Sanitize(raw))
  {
    var s := Strip(raw);
    StripFacts(raw);
    CollapseFacts(s);
    var c := Collapse(s);
    assert Stripped(c);
    hide Strip, Collapse, Collapsed, IsSpace, Rejected, StripBullets;
    StripBulletsFacts(c);
  }

  /** A bullet in front of a candidate is taken off. */
  lemma BulletComesOff(c: string)
    requires c != "" && Stripped(c) && Collapsed(c)
    ensures Stripped("- " + c) && Collapsed("- " + c) && StripBullets("- " + c) == c
  {
    SpaceIsSpace();
    var s := "- " + c;
    assert s[|s| - 1] == c[|c| - 1] && s[2..] == c;
    forall i | 0 <= i < |s| && IsSpace(s[i]) ensures s[i] == ' ' && (i + 1 < |s| ==> !IsSpace(s[i + 1])) {
      if i >= 2 {
        assert s[i] == c[i - 2];
      }
    }
    hide IsSpace, Collapsed;
    assert s[1..] == " " + c && (" " + c)[0] == ' ';
    assert DropBullets(s) == DropBullets(s[1..]) == s[1..];
    LStripSpaces(" ", c);
  }

  lemma PlaceholderBelowBullet(c: string)
    ensures Placeholder("- " + c) <==> Placeholder(c)
  {
    assert Lower("- " + c) == "- " + Lower(c);
    FindAfterPlain("- ", Lower(c), "todo");
    FindAfterPlain("- ", Lower(c), "tbd");
    FindAfterPlain("- ", Lower(c), "replace me");
    FindAfterPlain("- ", Lower(c), "<fill");
    FindAfterPlain("- ", Lower(c), "[fill");
    hide Find, Lower;
  }

  /**
   * A candidate with a bullet in front is a candidate too: the note `memory: - - c` yields it, and
   * cleaning it once more takes the bullet off.
   */
  lemma BulletedCandidate(c: string)
    requires Candidate(c)
    ensures Candidate("- " + c) && Sanitize("- " + c) == c
    ensures Sanitize(" - - " + c) == "- " + c
  {
    var note := "- " + c;
    BulletedNote(c);
    CleanedOnce(c);
    CleanedOnce(note);
    hide *;
    CleanedOnceSpaced(note);
    BulletsJoin(c);
  }

  lemma BulletsJoin(c: string)
    ensures " " + ("- " + ("- " + c)) == " - - " + c
  {
  }

  lemma BulletedNote(c: string)
    requires Candidate(c)
    ensures Candidate("- " + c)
  {
    PlaceholderBelowBullet(c);
    BulletComesOff(c);
    hide Placeholder, Collapsed, StripBullets, IsSpace;
  }

  lemma CleanedOnce(c: string)
    requires Candidate(c)
    ensures Sanitize("- " + c) == c
  {
    hide Rejected, Collapsed, StripBullets, Sanitize;
    BulletComesOff(c);
    SanitizeCollapsed("- " + c);
  }

  lemma CleanedOnceSpaced(c: string)
    requires Candidate(c)
    ensures Sanitize(" " + ("- " + c)) == Sanitize("- " + c)
  {
    hide Rejected, Collapsed, StripBullets, Sanitize, Strip;
    BulletComesOff(c);
    StripSpace("- " + c);
    StrippedSame(" " + ("- " + c), "- " + c);
  }

  /** Cleaning looks at the stripped text only. */
  lemma StrippedSame(a: string, b: string)
    requires Strip(a) == b && Stripped(b)
    ensures Sanitize(a) == Sanitize(b)
  {
    StripFacts(b);
  }

  /** The facts that cleaning can produce are exactly the candidates. */
  lemma CandidatesExactly(c: string)
    ensures Candidate(c) <==> c != "" && exists raw :: Sanitize(raw) == c
  {
    if Candidate(c) {
      BulletedCandidate(c);
    }
    hide Candidate, Sanitize;
    if c != "" && exists raw :: Sanitize(raw) == c {
      var raw :| Sanitize(raw) == c;
      CleanedIsCandidate(raw);
    }
  }

  /** Cleaning leaves a candidate alone exactly when it starts with no bullet; otherwise it gets shorter. */
  lemma StableExactly(c: string)
    requires Candidate(c)
    ensures Sanitize(c) == c <==> !IsBullet(c[0])
    ensures |Sanitize(c)| <= |c|
    ensures Sanitize(c) != c ==> |Sanitize(c)| < |c|
  {
    hide Rejected, Collapsed, StripBullets;
    SanitizeCollapsed(c);
    StripBulletsFacts(c);
  }

  lemma ContainsSuffix(s: string, k: nat, pat: string)
    requires k <= |s| && !Contains(s, pat)
    ensures !Contains(s[k..], pat)
  {
    FindFacts(s, pat);
    hide Find;
    forall p: nat ensures !OccursAt(s[k..], pat, p) {
      assert !OccursAt(s, pat, k + p);
      assert p + |pat| <= |s| - k ==> s[k..][p..p + |pat|] == s[k + p..k + p + |pat|];
    }
    FindIs(s[k..], pat, None);
  }

  /** A candidate without the end marker, and what cleaning leaves of it, is written and read back. */
  lemma CandidateIsClean(c: string, date: string)
    requires Candidate(c) && !Contains(c, END) && DateShape(date)
    ensures Clean(Fact(date, c)) && Strip(date) == date
    ensures Sanitize(c) != "" ==> Candidate(Sanitize(c)) && !Contains(Sanitize(c), END)
  {
    CleanedIsCandidate(c);
    DateIsOneLine(date);
    if Sanitize(c) != "" {
      SanitizeCollapsed(c);
      StripBulletsFacts(c);
      hide Contains, END, StripBullets;
      ContainsSuffix(c, |c| - |Sanitize(c)|, END);
    }
    CollapsedOneLine(c);
    hide Rejected, IsSpace, Dated, Collapsed, Sanitize;
    assert date != "";
  }

  lemma CollapsedOneLine(c: string)
    requires Collapsed(c)
    ensures NoBreak(c)
  {
    SpaceIsSpace();
  }

  lemma DateIsOneLine(date: string)
    requires DateShape(date)
    ensures Stripped(date) && NoBreak(date) && Strip(date) == date
  {
    assert forall i :: 0 <= i < |date| ==> IsDigit(date[i]) || date[i] == '-';
    StripFacts(date);
  }

  // ----- signatures -----

  /** What the signature hashes. */
  function Normal(s: string): string {
    Collapse(Lower(Strip(s)))
  }

  ghost predicate CollisionFree(sig: Signature) {
    forall a, b :: sig(a) == sig(b) ==> Normal(a) == Normal(b)
  }

  lemma NormalLength(c: string)
    requires Candidate(c)
    ensures |Normal(c)| == |c|
  {
    StripFacts(c);
    var low := Lower(c);
    forall i | 0 <= i < |low| && IsSpace(low[i]) ensures low[i] == ' ' && (i + 1 < |low| ==> !IsSpace(low[i + 1])) {
      LowerKeepsSpace(c[i]);
      if i + 1 < |low| {
        LowerKeepsSpace(c[i + 1]);
      }
    }
    CollapseIdle(low);
  }

  lemma LowerKeepsSpace(c: char)
    ensures IsSpace(LowerChar(c)) <==> IsSpace(c)
    ensures c == ' ' ==> LowerChar(c) == ' '
  {
  }

  lemma DifferentLengths(sig: Signature, a: string, b: string)
    requires CollisionFree(sig) && Candidate(a) && Candidate(b) && |a| != |b|
    ensures sig(a) != sig(b)
  {
    hide Normal, Candidate;
    NormalLength(a);
    NormalLength(b);
  }

  // ----- three runs on one day's notes -----

  /** What the notes of a day yield: candidates of different signatures; none holds the end marker. */
  ghost predicate Extracted(sig: Signature, cands: seq<string>) {
    && (forall c <- cands :: Candidate(c) && !Contains(c, END))
    && (forall i, j :: 0 <= i < j < |cands| ==> sig(cands[i]) != sig(cands[j]))
  }

  function Facts(date: string, cands: seq<string>): (r: seq<Fact>)
    ensures |r| == |cands| && forall i :: 0 <= i < |r| ==> r[i] == Fact(date, cands[i])
  {
    seq(|cands|, i requires 0 <= i < |cands| => Fact(date, cands[i]))
  }

  /** How many facts a run appends. */
  function Appended(sig: Signature, m: Memory, cands: seq<string>, date: string): int {
    |Merge(sig, Parse(m.text).0, m.known, cands, date)| - |Existing(sig, Parse(m.text).0)|
  }

  ghost predicate AllNew(sig: Signature, known: set<string>, cands: seq<string>) {
    && (forall c <- cands :: sig(c) !in known)
    && (forall i, j :: 0 <= i < j < |cands| ==> sig(cands[i]) != sig(cands[j]))
  }

  lemma RestIsNew(sig: Signature, known: set<string>, cands: seq<string>)
    requires cands != [] && AllNew(sig, known, cands)
    ensures sig(cands[0]) !in known && AllNew(sig, known + {sig(cands[0])}, cands[1..])
  {
    var rest := cands[1..];
    forall c | c in rest ensures sig(c) !in known + {sig(cands[0])} {
      var i :| 0 <= i < |rest| && rest[i] == c;
      assert cands[i + 1] == c;
    }
  }

  lemma FactsCons(items: seq<Fact>, date: string, cands: seq<string>)
    requires cands != []
    ensures items + [Fact(date, cands[0])] + Facts(date, cands[1..]) == items + Facts(date, cands)
  {
    assert Facts(date, cands) == [Fact(date, cands[0])] + Facts(date, cands[1..]);
  }

  lemma {:induction false} AppendAll(sig: Signature, items: seq<Fact>, known: set<string>,
                                     cands: seq<string>, date: string)
    requires AllNew(sig, known, cands)
    ensures AppendNew(sig, items, known, cands, date) == items + Facts(date, cands)
    decreases |cands|
  {
    hide AllNew;
    if cands == [] {
      assert items + Facts(date, cands) == items;
    } else {
      RestIsNew(sig, known, cands);
      AppendAll(sig, items + [Fact(date, cands[0])], known + {sig(cands[0])}, cands[1..], date);
      FactsCons(items, date, cands);
    }
  }

  /** The facts kept from a block are cleaned facts of the block. */
  lemma {:induction false} ExistingFrom(sig: Signature, parsed: seq<Fact>, g: Fact) returns (f: Fact)
    requires g in Existing(sig, parsed)
    ensures f in parsed && g == Fact(Strip(f.date), Sanitize(f.text)) && g.text != ""
  {
    hide Sanitize, Strip, Sigs;
    var init, last := parsed[..|parsed| - 1], parsed[|parsed| - 1];
    if g in Existing(sig, init) {
      f := ExistingFrom(sig, init, g);
    } else {
      f := last;
    }
  }

  lemma {:induction false} ExistingShrinks(sig: Signature, parsed: seq<Fact>)
    ensures |Existing(sig, parsed)| <= |parsed|
  {
    hide Sanitize, Strip, Sigs;
    if parsed != [] {
      ExistingShrinks(sig, parsed[..|parsed| - 1]);
    }
  }

  /** A memory without facts or history. */
  predicate Blank(m: Memory) {
    WellMarked(m.text) && Parse(m.text).0 == [] && m.known == {}
  }

  lemma FirstMerge(sig: Signature, cands: seq<string>, date: string)
    requires Extracted(sig, cands)
    ensures Merge(sig, [], {}, cands, date) == Facts(date, cands)
  {
    hide Candidate, Contains;
    ExistingNothing(sig);
    AppendAll(sig, [], {}, cands, date);
    hide Existing, AppendNew;
    assert Sigs(sig, []) == {} && {} + Sigs(sig, []) == {};
    assert [] + Facts(date, cands) == Facts(date, cands);
  }

  lemma FactsAreClean(sig: Signature, cands: seq<string>, date: string)
    requires Extracted(sig, cands) && DateShape(date)
    ensures forall f <- Facts(date, cands) :: Clean(f)
  {
    hide Candidate, Contains, Clean, DateShape;
    var items := Facts(date, cands);
    forall f | f in items ensures Clean(f) {
      var i :| 0 <= i < |items| && items[i] == f;
      assert cands[i] in cands;
      CandidateIsClean(cands[i], date);
    }
  }

  /** The first run stores the candidates as they are. */
  lemma FirstOfThree(sig: Signature, maxFacts: nat, m: Memory, cands: seq<string>, date: string)
    requires Blank(m) && Extracted(sig, cands) && DateShape(date) && |cands| <= maxFacts
    ensures
      var m1, items := RunSpec(sig, maxFacts, m, cands, date), Facts(date, cands);
      && Merge(sig, Parse(m.text).0, m.known, cands, date) == items
      && Parse(m1.text) == (items, true) && m1.known == Sigs(sig, items) && WellMarked(m1.text)
  {
    hide Parse, WellMarked, RunSpec, Sanitize, Strip, AppendNew, Clean, Candidate, Contains, DateShape;
    hide Extracted, Existing, Sigs;
    FirstMerge(sig, cands, date);
    FactsAreClean(sig, cands, date);
    RunStores(sig, maxFacts, m, cands, date);
  }

  /** The second run appends nothing and stores the candidates cleaned once more. */
  lemma SecondOfThree(sig: Signature, maxFacts: nat, m: Memory, cands: seq<string>, date: string)
    requires WellMarked(m.text) && Extracted(sig, cands) && DateShape(date) && |cands| <= maxFacts
    requires Parse(m.text).0 == Facts(date, cands) && m.known == Sigs(sig, Facts(date, cands))
    ensures
      var m2, items := RunSpec(sig, maxFacts, m, cands, date), Existing(sig, Facts(date, cands));
      && Merge(sig, Parse(m.text).0, m.known, cands, date) == items
      && Parse(m2.text) == (items, true) && m2.known == Sigs(sig, items) && WellMarked(m2.text)
  {
    hide Parse, WellMarked, RunSpec, Sanitize, Strip, AppendNew, Clean, Existing, Candidate, Contains, DateShape;
    var stored := Facts(date, cands);
    var items := Existing(sig, stored);
    forall c | c in cands ensures sig(c) in m.known + Sigs(sig, items) {
      var i :| 0 <= i < |cands| && cands[i] == c;
      assert stored[i] in stored && stored[i].text == c;
    }
    AppendNothing(sig, items, m.known + Sigs(sig, items), cands, date);
    ExistingShrinks(sig, stored);
    forall g | g in items ensures Clean(g) {
      var f := ExistingFrom(sig, stored, g);
      var i :| 0 <= i < |stored| && stored[i] == f;
      assert cands[i] in cands;
      CandidateIsClean(cands[i], date);
      CandidateIsClean(Sanitize(cands[i]), date);
    }
    RunStores(sig, maxFacts, m, cands, date);
  }

  /** A run appends nothing exactly when the signature of each candidate is known or in the cleaned block. */
  lemma AppendsNothing(sig: Signature, m: Memory, cands: seq<string>, date: string)
    ensures
      var existing := Existing(sig, Parse(m.text).0);
      Appended(sig, m, cands, date) == 0 <==> forall c <- cands :: sig(c) in m.known + Sigs(sig, existing)
  {
    hide Parse, Existing, Sigs;
    var existing := Existing(sig, Parse(m.text).0);
    AppendNothing(sig, existing, m.known + Sigs(sig, existing), cands, date);
    AppendSigs(sig, existing, m.known + Sigs(sig, existing), cands, date);
  }

  // ----- the longest candidate that cleaning changes -----

  lemma {:induction false} LongestUnstable(cands: seq<string>) returns (k: nat)
    requires exists c <- cands :: Sanitize(c) != c
    ensures k < |cands| && Sanitize(cands[k]) != cands[k]
    ensures forall c <- cands :: Sanitize(c) != c ==> |c| <= |cands[k]|
    decreases |cands|
  {
    hide Sanitize;
    var rest := cands[1..];
    if exists c <- rest :: Sanitize(c) != c {
      var i := LongestUnstable(rest);
      k := if Sanitize(cands[0]) != cands[0] && |cands[0]| > |rest[i]| then 0 else i + 1;
    } else {
      k := 0;
    }
  }

  /** Shorter than the candidate, or a candidate that cleaning leaves alone. */
  predicate Harmless(cands: seq<string>, longest: string, x: string) {
    Candidate(x) && (|x| < |longest| || (x in cands && Sanitize(x) == x))
  }

  lemma HarmlessStays(cands: seq<string>, longest: string, x: string)
    requires Candidate(x) && Sanitize(x) != ""
    requires Harmless(cands, longest, x)
             || (x in cands && (Sanitize(x) != x ==> |x| <= |longest|))
    ensures Harmless(cands, longest, Sanitize(x))
  {
    StableExactly(x);
    CleanedIsCandidate(x);
  }

  lemma HarmlessDiffers(sig: Signature, cands: seq<string>, k: nat, x: string)
    requires CollisionFree(sig) && Extracted(sig, cands)
    requires k < |cands| && Sanitize(cands[k]) != cands[k]
    requires Harmless(cands, cands[k], x)
    ensures sig(x) != sig(cands[k])
  {
    hide Candidate, Sanitize, Contains, CollisionFree;
    if |x| < |cands[k]| {
      DifferentLengths(sig, x, cands[k]);
    } else {
      var i :| 0 <= i < |cands| && cands[i] == x;
      assert i != k;
    }
  }

  lemma ExistingHarmless(sig: Signature, items: seq<Fact>, cands: seq<string>, longest: string)
    requires forall f <- items ::
      Candidate(f.text) && (Harmless(cands, longest, f.text)
                            || (f.text in cands && (Sanitize(f.text) != f.text ==> |f.text| <= |longest|)))
    ensures forall g <- Existing(sig, items) :: Harmless(cands, longest, g.text)
  {
    hide Candidate, Sanitize, Harmless, Existing, Strip;
    forall g | g in Existing(sig, items) ensures Harmless(cands, longest, g.text) {
      var f := ExistingFrom(sig, items, g);
      HarmlessStays(cands, longest, f.text);
    }
  }

  /** Neither cleaning once nor cleaning twice regenerates the longest candidate that cleaning changes. */
  lemma LongestIsGone(sig: Signature, cands: seq<string>, date: string, k: nat)
    requires CollisionFree(sig) && Extracted(sig, cands)
    requires k < |cands| && Sanitize(cands[k]) != cands[k]
    requires forall c <- cands :: Sanitize(c) != c ==> |c| <= |cands[k]|
    ensures
      var once := Existing(sig, Facts(date, cands));
      sig(cands[k]) !in Sigs(sig, once) + Sigs(sig, Existing(sig, once))
  {
    hide Candidate, Sanitize, Harmless, Existing, Strip, Contains, CollisionFree;
    var items := Facts(date, cands);
    var once := Existing(sig, items);
    var twice := Existing(sig, once);
    forall f | f in items
      ensures Candidate(f.text) && f.text in cands && (Sanitize(f.text) != f.text ==> |f.text| <= |cands[k]|)
    {
      var i :| 0 <= i < |items| && items[i] == f;
      assert cands[i] in cands;
    }
    ExistingHarmless(sig, items, cands, cands[k]);
    forall g | g in once ensures Candidate(g.text) {
      HarmlessIsCandidate(cands, cands[k], g.text);
    }
    ExistingHarmless(sig, once, cands, cands[k]);
    forall g: Fact | g in once || g in twice ensures sig(g.text) != sig(cands[k]) {
      HarmlessDiffers(sig, cands, k, g.text);
    }
  }

  lemma HarmlessIsCandidate(cands: seq<string>, longest: string, x: string)
    requires Harmless(cands, longest, x)
    ensures Candidate(x)
  {
  }

  // ----- the exact condition -----

  ghost predicate RerunsAppendNothing(sig: Signature, maxFacts: nat, m: Memory, cands: seq<string>, date: string) {
    forall n: nat :: n >= 1 ==> Appended(sig, RunTimes(sig, maxFacts, m, cands, date, n), cands, date) == 0
  }

  lemma TwoRuns(sig: Signature, maxFacts: nat, m: Memory, cands: seq<string>, date: string)
    ensures RunTimes(sig, maxFacts, m, cands, date, 2)
         == RunSpec(sig, maxFacts, RunSpec(sig, maxFacts, m, cands, date), cands, date)
  {
    hide RunSpec;
    var m1 := RunSpec(sig, maxFacts, m, cands, date);
    assert RunTimes(sig, maxFacts, m1, cands, date, 1)
        == RunTimes(sig, maxFacts, RunSpec(sig, maxFacts, m1, cands, date), cands, date, 0);
  }

  /** With a candidate that cleaning changes, the third run appends. */
  lemma ThirdRunAppends(sig: Signature, maxFacts: nat, m: Memory, cands: seq<string>, date: string)
    requires Blank(m) && Extracted(sig, cands) && CollisionFree(sig) && DateShape(date) && |cands| <= maxFacts
    requires exists c <- cands :: Sanitize(c) != c
    ensures Appended(sig, RunTimes(sig, maxFacts, m, cands, date, 2), cands, date) != 0
  {
    hide Blank, Extracted, CollisionFree, DateShape, Sanitize, RunSpec, Merge, Appended, WellMarked, Parse;
    hide Existing, Sigs;
    var m1 := RunSpec(sig, maxFacts, m, cands, date);
    var m2 := RunSpec(sig, maxFacts, m1, cands, date);
    FirstOfThree(sig, maxFacts, m, cands, date);
    SecondOfThree(sig, maxFacts, m1, cands, date);
    TwoRuns(sig, maxFacts, m, cands, date);
    var k := LongestUnstable(cands);
    LongestIsGone(sig, cands, date, k);
    AppendsNothing(sig, m2, cands, date);
    assert cands[k] in cands;
  }

  /** With stable candidates only, the facts stay as the first run stored them. */
  lemma StableStay(sig: Signature, maxFacts: nat, m: Memory, cands: seq<string>, date: string, n: nat)
    requires Blank(m) && Extracted(sig, cands) && DateShape(date) && |cands| <= maxFacts
    requires forall c <- cands :: Sanitize(c) == c
    requires n >= 1
    ensures Appended(sig, RunTimes(sig, maxFacts, m, cands, date, n), cands, date) == 0
  {
    hide DateShape, Sanitize, RunSpec, Merge, WellMarked, Parse, Existing, Sigs, Clean, Candidate, Contains, Distinct;
    FirstOfThree(sig, maxFacts, m, cands, date);
    var items, m1 := Facts(date, cands), RunSpec(sig, maxFacts, m, cands, date);
    forall f | f in items ensures Durable(f) {
      var i :| 0 <= i < |items| && items[i] == f;
      assert cands[i] in cands;
      CandidateIsClean(cands[i], date);
    }
    forall c | c in cands ensures sig(c) in Sigs(sig, items) {
      var i :| 0 <= i < |cands| && cands[i] == c;
      assert items[i] in items && items[i].text == c;
      SigsHold(sig, items, items[i]);
    }
    hide Durable;
    FirstRun(sig, maxFacts, m, cands, date);
    RerunsChangeNothing(sig, maxFacts, m1, items, cands, date, n - 1);
    assert RunTimes(sig, maxFacts, m, cands, date, n) == RunTimes(sig, maxFacts, m1, cands, date, n - 1);
    hide RunTimes;
    var mn := RunTimes(sig, maxFacts, m, cands, date, n);
    Rerun(sig, maxFacts, mn, items, cands, date);
    ExistingKeeps(sig, items);
  }

  lemma SigsHold(sig: Signature, items: seq<Fact>, f: Fact)
    requires f in items
    ensures sig(f.text) in Sigs(sig, items)
  {
  }

  /**
   * From a memory without facts, reruns on a day's notes append nothing if and only if no candidate
   * starts with a bullet; with one that does, the third run appends already.
   */
  lemma RerunsExactly(sig: Signature, maxFacts: nat, m: Memory, cands: seq<string>, date: string)
    requires Blank(m) && Extracted(sig, cands) && CollisionFree(sig) && DateShape(date) && |cands| <= maxFacts
    ensures RerunsAppendNothing(sig, maxFacts, m, cands, date) <==> forall c <- cands :: !IsBullet(c[0])
    ensures RerunsAppendNothing(sig, maxFacts, m, cands, date)
       <==> Appended(sig, RunTimes(sig, maxFacts, m, cands, date, 2), cands, date) == 0
  {
    forall c | c in cands ensures Candidate(c) && (Sanitize(c) == c <==> !IsBullet(c[0])) {
      StableExactly(c);
    }
    hide Blank, Extracted, CollisionFree, DateShape, Sanitize, Appended, RunTimes, Candidate;
    if forall c <- cands :: !IsBullet(c[0]) {
      forall n: nat | n >= 1 ensures Appended(sig, RunTimes(sig, maxFacts, m, cands, date, n), cands, date) == 0 {
        StableStay(sig, maxFacts, m, cands, date, n);
      }
    } else {
      ThirdRunAppends(sig, maxFacts, m, cands, date);
    }
  }

  // ----- one note, three runs -----

  lemma OneNote(sig: Signature, c: string)
    requires Candidate(c) && !Contains(c, END)
    ensures Extracted(sig, ["- " + c])
  {
    BulletedNote(c);
    MarkerShapes();
    hide END, Candidate;
    FindAfterPlain("- ", c, END);
    assert !Contains("- " + c, END);
    hide *;
    OneCandidate(sig, "- " + c);
  }

  lemma OneCandidate(sig: Signature, c: string)
    requires Candidate(c) && !Contains(c, END)
    ensures Extracted(sig, [c])
  {
    hide Candidate, Contains, END;
  }

  lemma ExistingOne(sig: Signature, f: Fact, g: Fact)
    requires g.text != "" && Sanitize(f.text) == g.text && Strip(f.date) == g.date
    ensures Existing(sig, [f]) == [g]
  {
    hide Sanitize, Strip;
    assert [f][..0] == [] && Existing(sig, []) == [] && Sigs(sig, []) == {};
  }

  lemma SigsOne(sig: Signature, f: Fact)
    ensures Sigs(sig, [f]) == {sig(f.text)}
  {
    assert f in [f];
  }

  lemma AppendOne(sig: Signature, items: seq<Fact>, known: set<string>, c: string, date: string)
    ensures AppendNew(sig, items, known, [c], date) == if sig(c) in known then items else items + [Fact(date, c)]
  {
    assert [c][1..] == [];
  }

  lemma ThirdMerge(sig: Signature, c: string, date: string)
    requires Sanitize(c) == c != "" && Strip(date) == date && sig("- " + c) != sig(c)
    ensures Merge(sig, [Fact(date, c)], Sigs(sig, [Fact(date, c)]), ["- " + c], date)
         == [Fact(date, c), Fact(date, "- " + c)]
  {
    hide Sanitize, Strip, Existing, AppendNew;
    ExistingOne(sig, Fact(date, c), Fact(date, c));
    SigsOne(sig, Fact(date, c));
    hide Sigs;
    AppendOne(sig, [Fact(date, c)], {sig(c)} + {sig(c)}, "- " + c, date);
  }

  /**
   * The shortest such history, in the memory file itself: a note with a second bullet is stored with
   * its bullet, loses it in the second run, and is stored beside the first copy by the third.
   */
  lemma UnstableFactReturns(sig: Signature, maxFacts: nat, m: Memory, c: string, date: string)
    requires Blank(m) && CollisionFree(sig) && DateShape(date) && maxFacts >= 2
    requires Candidate(c) && Sanitize(c) == c && !Contains(c, END)
    ensures
      var note := "- " + c;
      var m1 := RunSpec(sig, maxFacts, m, [note], date);
      var m2 := RunSpec(sig, maxFacts, m1, [note], date);
      var m3 := RunSpec(sig, maxFacts, m2, [note], date);
      && Parse(m1.text) == ([Fact(date, note)], true)
      && Parse(m2.text) == ([Fact(date, c)], true)
      && Parse(m3.text) == ([Fact(date, c), Fact(date, note)], true)
  {
    hide Blank, Extracted, RunSpec, Merge, WellMarked, Parse, Existing, Sigs, Sanitize, Strip, Clean, Contains;
    hide Rejected;
    var note := "- " + c;
    var m1 := RunSpec(sig, maxFacts, m, [note], date);
    var m2 := RunSpec(sig, maxFacts, m1, [note], date);
    BulletedCandidate(c);
    OneNote(sig, c);
    CandidateIsClean(c, date);
    hide Candidate, DateShape;
    assert Facts(date, [note]) == [Fact(date, note)];
    FirstOfThree(sig, maxFacts, m, [note], date);
    ExistingOne(sig, Fact(date, note), Fact(date, c));
    SecondOfThree(sig, maxFacts, m1, [note], date);
    FactsAreClean(sig, [note], date);
    assert Fact(date, note) in Facts(date, [note]);
    DifferentLengths(sig, note, c);
    hide CollisionFree;
    ThirdMerge(sig, c, date);
    RunStores(sig, maxFacts, m2, [note], date);
  }
}
