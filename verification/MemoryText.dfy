/**
 * What a run of the memory extractor does to the text of the memory file outside the facts: the lines
 * above and below the managed block stay, and the block has its fixed lines.
 */
module MemoryText {
  import opened Common
  import opened TextTools
  import opened MemoryBlock

  // ----- parts of a text -----

  predicate AllSpace(s: string) {
    forall i :: 0 <= i < |s| ==> IsSpace(s[i])
  }

  /** `t` is `s` without its trailing whitespace. */
  predicate RightTrimmed(s: string, t: string) {
    |t| <= |s| && t == s[..|t|] && AllSpace(s[|t|..]) && (t != "" ==> !IsSpace(t[|t| - 1]))
  }

  /** `t` is `s` without the whitespace on both ends. */
  ghost predicate Trimmed(s: string, t: string) {
    && (t != "" ==> !IsSpace(t[0]) && !IsSpace(t[|t| - 1]))
    && exists i :: 0 <= i <= i + |t| <= |s| && TrimmedAt(s, t, i)
  }

  predicate TrimmedAt(s: string, t: string, i: nat) {
    i + |t| <= |s| && t == s[i..i + |t|] && AllSpace(s[..i]) && AllSpace(s[i + |t|..])
  }

  /** The line of position i starts at a. */
  predicate LineBegins(s: string, i: nat, a: nat) {
    a <= i <= |s| && (a == 0 || s[a - 1] == '\n') && forall k :: a <= k < i ==> s[k] != '\n'
  }

  /** The line of position j ends before e, its line feed included. */
  predicate LineCloses(s: string, j: nat, e: nat) {
    && j <= e <= |s|
    && if e < |s| || (e > j && s[e - 1] == '\n')
       then e > j && s[e - 1] == '\n' && forall k :: j <= k < e - 1 ==> s[k] != '\n'
       else forall k :: j <= k < e ==> s[k] != '\n'
  }

  lemma {:induction false} LineStartMeans(s: string, i: nat)
    requires i <= |s|
    ensures LineBegins(s, i, LineStart(s, i))
  {
    if i > 0 && s[i - 1] != '\n' {
      LineStartMeans(s, i - 1);
    }
  }

  lemma {:induction false} LineEndMeans(s: string, j: nat)
    requires j <= |s|
    ensures LineCloses(s, j, LineEnd(s, j))
    decreases |s| - j
  {
    if j < |s| && s[j] != '\n' {
      LineEndMeans(s, j + 1);
    }
  }

  lemma RStripMeans(s: string)
    ensures RightTrimmed(s, RStrip(s))
  {
    RStripFacts(s);
    hide RStrip, IsSpace;
  }

  lemma SpaceCons(c: char, s: string)
    requires IsSpace(c) && AllSpace(s)
    ensures AllSpace([c] + s)
  {
    hide IsSpace;
  }

  lemma {:induction false} LStripDropsBlank(s: string)
    ensures |LStrip(s)| <= |s| && LStrip(s) == s[|s| - |LStrip(s)|..] && AllSpace(s[..|s| - |LStrip(s)|])
    ensures LStrip(s) != "" ==> !IsSpace(LStrip(s)[0])
  {
    LStripFacts(s);
    hide IsSpace;
    if s != "" && IsSpace(s[0]) {
      LStripDropsBlank(s[1..]);
      var n := |s| - |LStrip(s)|;
      SpaceCons(s[0], s[1..][..n - 1]);
      assert s[..n] == [s[0]] + s[1..][..n - 1];
    }
  }

  /** Stripped on the left and then on the right. */
  lemma BothEnds(s: string)
    ensures Trimmed(s, RStrip(LStrip(s)))
  {
    var l := LStrip(s);
    var t := RStrip(l);
    LStripDropsBlank(s);
    LStripFacts(s);
    RStripMeans(l);
    hide RStrip, LStrip, IsSpace;
    var i := |s| - |l|;
    assert s[i..][..|t|] == s[i..i + |t|] && s[i..][|t|..] == s[i + |t|..];
    assert TrimmedAt(s, t, i);
  }

  // ----- around the block -----

  lemma BelowTheBlock(suffix: string)
    ensures
      var l, below := LStrip(suffix), RStrip(LStrip(suffix));
      RStrip("\n\n" + l) == if below == "" then "" else "\n\n" + below
  {
    var l := LStrip(suffix);
    LStripFacts(suffix);
    hide LStrip, IsSpace;
    if l == "" {
      TwoFeedsStrip();
      assert "\n\n" + l == "\n\n" && RStrip("") == "";
    } else {
      StripBelowFeeds(l);
      RStripAppend([l[0]], l[1..]);
      assert [l[0]] + l[1..] == l;
      hide RStrip;
      Glue("\n\n", [l[0]], RStrip(l[1..]));
    }
  }

  lemma Glue(a: string, b: string, c: string)
    ensures a + b + c == a + (b + c)
  {
  }

  /** The replaced text, from its parts. */
  lemma ReplacedText(q: string, facts: seq<Fact>, suffix: string)
    ensures
      var below := RStrip(LStrip(suffix));
      RStrip(q + "\n\n" + RStrip(Format(facts)) + "\n\n" + LStrip(suffix)) + "\n"
      == q + "\n\n" + Format(facts) + if below == "" then "" else "\n" + below + "\n"
  {
    CoreFacts(facts);
    BelowTheBlock(suffix);
    var core, l, below := Core(facts), LStrip(suffix), RStrip(LStrip(suffix));
    assert Format(facts) == core + "\n";
    hide *;
    BelowCore(q, core, l);
    if below == "" {
      Closing(q, core);
    } else {
      ClosingWith(q, core, below);
    }
  }

  lemma Closing(q: string, core: string)
    ensures q + "\n\n" + core + ("" + "\n") == q + "\n\n" + (core + "\n") + ""
  {
  }

  lemma ClosingWith(q: string, core: string, below: string)
    ensures q + "\n\n" + core + ("\n\n" + below + "\n") == q + "\n\n" + (core + "\n") + ("\n" + below + "\n")
  {
    assert "\n\n" == "\n" + "\n";
  }

  /**
   * With the markers in order, everything above the start marker's line and below the end marker's line
   * stays, but for the whitespace next to the block.
   */
  lemma OutsideStays(text: string, facts: seq<Fact>, start: nat, end: nat)
      returns (a: nat, e: nat, above: string, below: string)
    requires IsFirst(text, START, Some(start)) && IsFirst(text, END, Some(end)) && start < end
    ensures LineBegins(text, start, a) && LineCloses(text, end, e)
    ensures RightTrimmed(text[..a], above) && Trimmed(text[e..], below)
    ensures StoreFacts(text, facts) == above + "\n\n" + Format(facts) + if below == "" then "" else "\n" + below + "\n"
  {
    FindIs(text, START, Some(start));
    FindIs(text, END, Some(end));
    hide START, END, Find, Format;
    a, e := LineStart(text, start), LineEnd(text, end);
    LineStartMeans(text, start);
    LineEndMeans(text, end);
    above, below := RStrip(text[..a]), RStrip(LStrip(text[e..]));
    RStripMeans(text[..a]);
    BothEnds(text[e..]);
    ReplacedText(above, facts, text[e..]);
    hide LineBegins, LineCloses, RightTrimmed, Trimmed, RStrip, LStrip, LineStart, LineEnd;
  }

  /** Otherwise the whole text stays, but for its trailing whitespace, and the block follows. */
  lemma TextStays(text: string, facts: seq<Fact>) returns (above: string)
    requires forall start, end :: IsFirst(text, START, Some(start)) && IsFirst(text, END, Some(end)) ==> end <= start
    ensures RightTrimmed(text, above)
    ensures StoreFacts(text, facts) == (if above == "" then "" else above + "\n\n") + Format(facts)
  {
    FindFacts(text, START);
    FindFacts(text, END);
    hide START, END, Find, Format;
    above := RStrip(text);
    RStripMeans(text);
    hide RightTrimmed, RStrip, LStrip, LineStart, LineEnd;
    assert "" + Format(facts) == Format(facts);
  }

  // ----- the lines of the block -----

  /** The row of a fact as it stands in the file. */
  function RowText(f: Fact): string {
    if f.date == "" then "- " + f.text else "- [" + f.date + "] " + f.text
  }

  function RowTexts(facts: seq<Fact>): (rows: seq<string>)
    ensures |rows| == |facts| && forall i :: 0 <= i < |facts| ==> rows[i] == RowText(facts[i])
  {
    seq(|facts|, i requires 0 <= i < |facts| => RowText(facts[i]))
  }

  lemma RowMeans(f: Fact)
    requires Clean(f)
    ensures Row(f) == RowText(f)
  {
    StripFacts(f.date);
    StripFacts(f.text);
    hide Strip, IsSpace, END;
  }

  lemma {:induction false} RowLines(facts: seq<Fact>, rest: string)
    requires forall f <- facts :: Clean(f)
    ensures Pieces(Rows(facts) + rest) == RowTexts(facts) + Pieces(rest)
    decreases |facts|
  {
    hide Row, Clean, Pieces, RowText;
    if facts == [] {
      assert Rows(facts) + rest == rest && RowTexts(facts) + Pieces(rest) == Pieces(rest);
    } else {
      var init, f := facts[..|facts| - 1], facts[|facts| - 1];
      assert f in facts;
      RowsSnoc(facts, rest);
      RowMeans(f);
      RowIsPlain(f);
      hide Rows;
      RowLines(init, Row(f) + "\n" + rest);
      PiecesSplit(Row(f), rest);
      PiecesOfLine(Row(f));
      assert RowTexts(init) + ([Row(f)] + Pieces(rest)) == RowTexts(facts) + Pieces(rest);
    }
  }

  lemma MarkersPlain()
    ensures NoBreak(HEADING) && NoBreak(START) && NoBreak(END) && NoBreak("- (none yet)")
  {
  }

  lemma BodyLines(facts: seq<Fact>, rest: string)
    requires forall f <- facts :: Clean(f)
    ensures Pieces(Body(facts) + rest) == (if facts == [] then ["- (none yet)"] else RowTexts(facts)) + Pieces(rest)
  {
    hide Pieces, Rows, RowText, Clean;
    if facts == [] {
      MarkersPlain();
      PiecesSplit("- (none yet)", rest);
      PiecesOfLine("- (none yet)");
      assert Body(facts) + rest == "- (none yet)" + "\n" + rest;
    } else {
      RowLines(facts, rest);
    }
  }

  lemma OneMoreLine(line: string, rest: string)
    requires NoBreak(line)
    ensures Pieces(line + "\n" + rest) == [line] + Pieces(rest)
  {
    hide Pieces;
    PiecesSplit(line, rest);
    PiecesOfLine(line);
  }

  lemma Stack(a: string, b: string, rows: seq<string>, c: string)
    ensures [a] + ([b] + (rows + ([c] + [""]))) == [a, b] + rows + [c, ""]
  {
  }

  lemma ManagedLines(facts: seq<Fact>)
    requires forall f <- facts :: Clean(f)
    ensures Pieces(Managed(facts, ""))
         == [HEADING, START] + (if facts == [] then ["- (none yet)"] else RowTexts(facts)) + [END, ""]
  {
    MarkersPlain();
    EmptyPieces();
    var rows := if facts == [] then ["- (none yet)"] else RowTexts(facts);
    hide Pieces, Body, Rows, RowText, Clean, RowTexts, START, END, HEADING;
    OneMoreLine(END, "");
    BodyLines(facts, END + "\n" + "");
    OneMoreLine(START, Body(facts) + (END + "\n" + ""));
    OneMoreLine(HEADING, START + "\n" + (Body(facts) + (END + "\n" + "")));
    Stack(HEADING, START, rows, END);
  }

  lemma EmptyPieces()
    ensures Pieces("") == [""]
  {
  }

  /** The block: heading, start marker, one row for each fact or the placeholder, end marker. */
  lemma BlockLines(facts: seq<Fact>)
    requires forall f <- facts :: Clean(f)
    ensures Pieces(Format(facts))
         == ["## Daily Extracted Facts", "<!-- KYO_MEMORY_" + "EXTRACT_START -->"]
            + (if facts == [] then ["- (none yet)"] else RowTexts(facts))
            + ["<!-- KYO_MEMORY_" + "EXTRACT_END -->", ""]
  {
    CoreFacts(facts);
    ManagedLines(facts);
    hide Pieces, Managed, Format, RowTexts, Clean, Core;
  }
}
