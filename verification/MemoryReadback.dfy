/**
 * What the managed block says when it is read back.  An undated fact whose text looks like a dated one
 * comes back with that date and a shorter text, so two facts of one signature can meet in the block.
 */
module MemoryReadback {
  import opened Common
  import opened TextTools
  import opened MemoryBlock
  import opened MemoryMerge
  import opened MemoryReruns

  /** How a printed fact is taken by the reader. */
  function Reread(f: Fact): Fact {
    if f.date == "" && Dated(f.text) then Fact(f.text[1..11], f.text[13..]) else f
  }

  function RereadAll(facts: seq<Fact>): (r: seq<Fact>)
    ensures |r| == |facts| && forall i :: 0 <= i < |r| ==> r[i] == Reread(facts[i])
  {
    seq(|facts|, i requires 0 <= i < |facts| => Reread(facts[i]))
  }

  /** What the merge keeps: a collapsed text, and no date or a real one. */
  predicate Printable(f: Fact) {
    && f.text != "" && f.text != NONE_YET && Stripped(f.text) && Collapsed(f.text) && !Contains(f.text, END)
    && (f.date == "" || DateShape(f.date))
  }

  lemma DatedParts(text: string)
    requires Stripped(text) && Collapsed(text) && Dated(text)
    ensures
      var d, rest := text[1..11], text[13..];
      && text == "[" + d + "] " + rest && rest != "" && Stripped(rest) && Collapsed(rest)
  {
    var d, rest := text[1..11], text[13..];
    hide IsSpace, DateShape;
    CollapsedSuffix(text, 13);
    assert text[12] == ' ';
    assert |text| != 13;
    assert !IsSpace(text[13]) && rest[0] == text[13] && rest[|rest| - 1] == text[|text| - 1];
    assert text == [text[0]] + d + [text[11]] + [text[12]] + rest;
  }

  /** The row of an undated fact that looks dated is the row of the dated fact. */
  lemma SameRow(f: Fact)
    requires Printable(f)
    ensures Clean(Reread(f)) && Row(Reread(f)) == Row(f)
    ensures Strip(Reread(f).text) != "" && Strip(f.text) != ""
  {
    hide END, NONE_YET, IsSpace;
    StripFacts(f.text);
    CollapsedOneLine(f.text);
    if f.date == "" && Dated(f.text) {
      LooksDated(f);
    } else if f.date != "" {
      DateIsOneLine(f.date);
      hide Dated;
    } else {
      hide Dated, DateShape;
    }
  }

  lemma LooksDated(f: Fact)
    requires Printable(f) && f.date == "" && Dated(f.text)
    ensures Clean(Reread(f)) && Row(Reread(f)) == Row(f)
    ensures Strip(Reread(f).text) != ""
  {
    hide END, NONE_YET, IsSpace;
    var d, rest := f.text[1..11], f.text[13..];
    DatedParts(f.text);
    DateIsOneLine(d);
    CollapsedOneLine(rest);
    ContainsSuffix(f.text, 13, END);
    StripFacts(rest);
    StripFacts(f.text);
    RowJoins(d, rest);
    hide Strip, Contains, Collapsed, DateShape, Stripped, NoBreak;
    DateNotEmpty(d);
  }

  lemma RowJoins(d: string, rest: string)
    ensures "- [" + d + "] " + rest == "- " + ("[" + d + "] " + rest)
  {
  }

  lemma {:induction false} SameRows(facts: seq<Fact>)
    requires forall f <- facts :: Printable(f)
    ensures Rows(RereadAll(facts)) == Rows(facts)
    decreases |facts|
  {
    hide Printable, Row, Strip, Reread;
    if facts != [] {
      var init, f := facts[..|facts| - 1], facts[|facts| - 1];
      assert f in facts;
      SameRow(f);
      SameRows(init);
      assert RereadAll(facts)[..|facts| - 1] == RereadAll(init);
    }
  }

  lemma AllClean(facts: seq<Fact>)
    requires forall f <- facts :: Printable(f)
    ensures forall f <- RereadAll(facts) :: Clean(f)
  {
    hide Printable, Clean, Reread;
    var r := RereadAll(facts);
    forall f | f in r ensures Clean(f) {
      var i :| 0 <= i < |r| && r[i] == f;
      SameRow(facts[i]);
    }
  }

  /** Printable facts read back as the reader takes them, in order. */
  lemma PrintableReadsBack(text: string, facts: seq<Fact>)
    requires WellMarked(text) && forall f <- facts :: Printable(f)
    ensures Parse(StoreFacts(text, facts)) == (RereadAll(facts), true)
  {
    SameRows(facts);
    AllClean(facts);
    SameText(text, facts, RereadAll(facts));
    hide *;
    StoredReadsBack(text, RereadAll(facts));
  }

  lemma SameText(text: string, a: seq<Fact>, b: seq<Fact>)
    requires Rows(a) == Rows(b) && |a| == |b|
    ensures StoreFacts(text, a) == StoreFacts(text, b)
  {
    hide Rows, START, END, HEADING, NONE_YET, ReplaceOrAppend;
    assert a == [] ==> b == [];
    assert Format(a) == Format(b);
  }

  /** No undated fact looks dated. */
  predicate Plain(facts: seq<Fact>) {
    forall f <- facts :: f.date == "" ==> !Dated(f.text)
  }

  lemma RereadChanges(f: Fact)
    ensures Reread(f) == f <==> (f.date == "" ==> !Dated(f.text))
  {
    if f.date == "" && Dated(f.text) {
      assert |f.text[1..11]| == 10;
    }
  }

  lemma PlainStay(facts: seq<Fact>)
    ensures RereadAll(facts) == facts <==> Plain(facts)
  {
    hide Dated, Reread;
    forall i | 0 <= i < |facts|
      ensures RereadAll(facts)[i] == facts[i] <==> (facts[i].date == "" ==> !Dated(facts[i].text))
    {
      RereadChanges(facts[i]);
    }
  }

  /**
   * The block that a run stores reads back as the facts of the run if and only if no undated one looks
   * dated; then it holds no signature twice.
   */
  lemma StoredBlock(sig: Signature, maxFacts: nat, m: Memory, cands: seq<string>, date: string)
    requires WellMarked(m.text)
    requires forall f <- Trim(Merge(sig, Parse(m.text).0, m.known, cands, date), maxFacts) :: Printable(f)
    ensures
      var items := Trim(Merge(sig, Parse(m.text).0, m.known, cands, date), maxFacts);
      var block := Parse(RunSpec(sig, maxFacts, m, cands, date).text).0;
      && block == RereadAll(items)
      && (block == items <==> Plain(items))
      && (Plain(items) ==> Distinct(sig, block))
  {
    var items := Trim(Merge(sig, Parse(m.text).0, m.known, cands, date), maxFacts);
    StoredFactsDistinct(sig, maxFacts, Parse(m.text).0, m.known, cands, date);
    hide Parse, StoreFacts, Merge, Trim, WellMarked, Printable, Sigs, Reread, Distinct, Plain;
    PrintableReadsBack(m.text, items);
    PlainStay(items);
  }

  // ----- what the merge keeps is printable -----

  /** A cleaned text without the end marker is printable, with any date the reader can have found. */
  lemma CleanedIsPrintable(raw: string, date: string)
    requires Sanitize(raw) != "" && !Contains(Sanitize(raw), END)
    requires date == "" || DateShape(date)
    ensures Printable(Fact(date, Sanitize(raw)))
  {
    CleanedIsCandidate(raw);
    hide Sanitize, Contains, END, Collapsed, Placeholder, IsSpace;
  }

  // ----- two facts of one signature in the block -----

  lemma UndatedClean(c: string)
    requires Candidate(c) && !Contains(c, END) && !Dated(c)
    ensures Clean(Fact("", c))
  {
    CollapsedOneLine(c);
    assert |NONE_YET| == 10 && |c| >= 12;
    hide Placeholder, Collapsed, Contains, END, NONE_YET, IsSpace, Dated, DateShape;
  }

  lemma CandidatePrintable(c: string, date: string)
    requires Candidate(c) && !Contains(c, END) && (date == "" || DateShape(date))
    ensures Printable(Fact(date, c))
  {
    assert |NONE_YET| == 10 && |c| >= 12;
    hide Placeholder, Collapsed, Contains, END, NONE_YET, IsSpace, Dated, DateShape;
  }

  lemma NoteClean(look: string)
    requires Candidate(look) && !Contains(look, END)
    ensures Clean(Fact("", "- " + look))
  {
    BulletedNote(look);
    assert !Contains("- " + look, END) by {
      MarkerShapes();
      FindAfterPlain("- ", look, END);
    }
    hide Candidate, Contains, END, Clean;
    UndatedClean("- " + look);
  }

  lemma ExistingTwo(sig: Signature, f: Fact, g: Fact, f': Fact)
    requires f'.text != "" && Sanitize(f.text) == f'.text && Strip(f.date) == f'.date
    requires g.text != "" && Sanitize(g.text) == g.text && Strip(g.date) == g.date
    requires sig(f'.text) != sig(g.text)
    ensures Existing(sig, [f, g]) == [f', g]
  {
    hide Sanitize, Strip;
    ExistingOne(sig, f, f');
    assert [f, g][..1] == [f];
    SigsOne(sig, f');
  }

  lemma SameTextTwice(sig: Signature, f: Fact, g: Fact)
    requires f.text == g.text
    ensures !Distinct(sig, [f, g])
  {
    var facts := [f, g];
    assert sig(facts[0].text) == sig(facts[1].text);
  }

  lemma MergeNothing(sig: Signature, parsed: seq<Fact>, date: string)
    ensures Merge(sig, parsed, {}, [], date) == Existing(sig, parsed)
  {
  }

  /** A bulleted line that looks dated below its bullet, beside a fact with the text behind that date. */
  predicate Alike(look: string, date: string, c: string) {
    && Candidate(look) && Dated(look) && !Contains(look, END)
    && Candidate(c) && !IsBullet(c[0]) && look[13..] == c
    && DateShape(date)
  }

  lemma AlikeFacts(sig: Signature, look: string, date: string, c: string)
    requires Alike(look, date, c) && sig(look) != sig(c)
    ensures Clean(Fact("", "- " + look)) && Clean(Fact(date, c))
    ensures Printable(Fact("", look)) && Printable(Fact(date, c))
    ensures Existing(sig, [Fact("", "- " + look), Fact(date, c)]) == [Fact("", look), Fact(date, c)]
  {
    ContainsSuffix(look, 13, END);
    hide Candidate, Contains, END, Clean, Printable, DateShape, Sanitize, Strip;
    NoteClean(look);
    CandidateIsClean(c, date);
    CandidatePrintable(look, "");
    CandidatePrintable(c, date);
    CleanedOnce(look);
    StableExactly(c);
    NotEmpty(look);
    NotEmpty(c);
    EmptyStrip();
    ExistingTwo(sig, Fact("", "- " + look), Fact(date, c), Fact("", look));
  }

  lemma NotEmpty(c: string)
    requires Candidate(c)
    ensures c != ""
  {
  }

  lemma EmptyStrip()
    ensures Strip("") == ""
  {
  }

  /** Two facts that read back as written, in a memory whose next run changes them. */
  lemma PairStored(sig: Signature, maxFacts: nat, text: string, shown: seq<Fact>, kept: seq<Fact>, date: string)
    requires WellMarked(text) && |kept| <= maxFacts
    requires forall f <- shown :: Clean(f)
    requires forall f <- kept :: Printable(f)
    requires Existing(sig, shown) == kept
    ensures
      var m := Memory(StoreFacts(text, shown), {});
      && Parse(m.text) == (shown, true)
      && Parse(RunSpec(sig, maxFacts, m, [], date).text).0 == RereadAll(kept)
  {
    hide WellMarked, Parse, StoreFacts, Clean, Printable, Existing;
    var m := Memory(StoreFacts(text, shown), {});
    StoredReadsBack(text, shown);
    FoundIsWellMarked(m.text);
    MergeNothing(sig, shown, date);
    PrintableReadsBack(m.text, kept);
  }

  /**
   * Such a line loses its bullet in the next run, its row then reads as a dated fact, and the block
   * holds the same text twice.
   */
  lemma DatedLookTwice(sig: Signature, maxFacts: nat, text: string, look: string, date: string, c: string)
    requires WellMarked(text) && maxFacts >= 2 && Alike(look, date, c) && sig(look) != sig(c)
    ensures
      var shown := [Fact("", "- " + look), Fact(date, c)];
      var m := Memory(StoreFacts(text, shown), {});
      var m' := RunSpec(sig, maxFacts, m, [], date);
      && Parse(m.text) == (shown, true)
      && Parse(m'.text).0 == [Fact(look[1..11], c), Fact(date, c)] && !Distinct(sig, Parse(m'.text).0)
  {
    AlikeFacts(sig, look, date, c);
    var shown, kept := [Fact("", "- " + look), Fact(date, c)], [Fact("", look), Fact(date, c)];
    var block := [Fact(look[1..11], c), Fact(date, c)];
    assert RereadAll(kept) == block by {
      DateNotEmpty(date);
    }
    hide *;
    PairStored(sig, maxFacts, text, shown, kept, date);
    SameTextTwice(sig, block[0], block[1]);
  }

  lemma DateNotEmpty(date: string)
    requires DateShape(date)
    ensures date != ""
  {
  }
}
