/**
 * The managed block of the memory file: dated facts are printed between two markers inside free
 * text and parsed back on the next run.
 */
module MemoryBlock {
  import opened Common
  import opened TextTools

  const HEADING := "## Daily Extracted Facts"
  const START := "<!-- KYO_MEMORY_" + "EXTRACT_START -->"
  const END := "<!-- KYO_MEMORY_" + "EXTRACT_END -->"
  const NONE_YET := "(none yet)"

  /** A fact with its date; the empty string is no date. */
  datatype Fact = Fact(date: string, text: string)

  // ----- reading -----

  predicate IsDigit(c: char) {
    '0' <= c <= '9'
  }

  /** Four digits, two digits, two digits, joined by hyphens. */
  predicate DateShape(d: string) {
    && |d| == 10
    && IsDigit(d[0]) && IsDigit(d[1]) && IsDigit(d[2]) && IsDigit(d[3]) && d[4] == '-'
    && IsDigit(d[5]) && IsDigit(d[6]) && d[7] == '-' && IsDigit(d[8]) && IsDigit(d[9])
  }

  /** A bracketed date followed by whitespace, at the start of a stripped line body. */
  predicate Dated(body: string) {
    |body| > 12 && body[0] == '[' && DateShape(body[1..11]) && body[11] == ']' && IsSpace(body[12])
  }

  function ParseBody(body: string): Option<Fact> {
    if body == "" || body == NONE_YET then None
    else if Dated(body) then Some(Fact(body[1..11], Strip(body[12..])))
    else Some(Fact("", body))
  }

  function ParseLine(raw: string): Option<Fact> {
    var line := Strip(raw);
    if !StartsWith(line, "- ") then None else ParseBody(Strip(line[2..]))
  }

  function Collect(lines: seq<string>): seq<Fact> {
    if lines == [] then []
    else
      var f := ParseLine(lines[|lines| - 1]);
      Collect(lines[..|lines| - 1]) + if f.Some? then [f.value] else []
  }

  /** Python's slice: empty when the bounds cross. */
  function Slice(s: string, lo: nat, hi: nat): string
    requires hi <= |s|
  {
    if lo <= hi then s[lo..hi] else ""
  }

  /** The facts of the block, and whether there was one. */
  function Parse(text: string): (seq<Fact>, bool) {
    var start, end := Find(text, START), Find(text, END);
    if start.None? || end.None? || end.value < start.value then ([], false)
    else (Collect(Pieces(Slice(text, start.value + |START|, end.value))), true)
  }

  method ParseManagedBlock(text: string) returns (facts: seq<Fact>, found: bool)
    ensures (facts, found) == Parse(text)
  {
    hide Strip, ParseBody, Pieces;
    facts, found := [], false;
    var start, end := Find(text, START), Find(text, END);
    if start.None? || end.None? || end.value < start.value { return; }
    var lines := Pieces(Slice(text, start.value + |START|, end.value));
    for i := 0 to |lines|
      invariant facts == Collect(lines[..i])
    {
      assert lines[..i + 1][..i] == lines[..i];
      var line := Strip(lines[i]);
      if !StartsWith(line, "- ") { continue; }
      var fact := ParseBody(Strip(line[2..]));
      if fact.None? { continue; }
      facts := facts + [fact.value];
    }
    assert lines[..|lines|] == lines;
    found := true;
  }

  // ----- printing -----

  function Row(f: Fact): string {
    if Strip(f.date) != "" then "- [" + Strip(f.date) + "] " + Strip(f.text) else "- " + Strip(f.text)
  }

  /** The rows of the facts, each on its own line; blank facts are left out. */
  function Rows(facts: seq<Fact>): string {
    if facts == [] then ""
    else
      var f := facts[|facts| - 1];
      Rows(facts[..|facts| - 1]) + if Strip(f.text) == "" then "" else Row(f) + "\n"
  }

  function Body(facts: seq<Fact>): string {
    if facts == [] then ("- " + NONE_YET + "\n") else Rows(facts)
  }

  function Format(facts: seq<Fact>): string {
    HEADING + "\n" + START + "\n" + Body(facts) + END + "\n"
  }

  method FormatRows(facts: seq<Fact>) returns (rows: string)
    ensures rows == Rows(facts)
  {
    hide Row, Strip;
    rows := "";
    for i := 0 to |facts|
      invariant rows == Rows(facts[..i])
    {
      assert facts[..i + 1][..i] == facts[..i];
      if Strip(facts[i].text) == "" { continue; }
      rows := rows + (Row(facts[i]) + "\n");
    }
    assert facts[..|facts|] == facts;
  }

  method FormatManagedBlock(facts: seq<Fact>) returns (block: string)
    ensures block == Format(facts)
  {
    hide Rows, HEADING, START, END, NONE_YET;
    block := HEADING + "\n" + START + "\n";
    if facts == [] {
      block := block + ("- " + NONE_YET + "\n");
    } else {
      var rows := FormatRows(facts);
      block := block + rows;
    }
    block := block + END + "\n";
  }

  /** Replaces the lines from the start marker to the end marker, or appends the block. */
  function ReplaceOrAppend(text: string, block: string): string {
    var start, end := Find(text, START), Find(text, END);
    if start.Some? && end.Some? && end.value > start.value then
      var prefix, suffix := text[..LineStart(text, start.value)], text[LineEnd(text, end.value)..];
      RStrip(RStrip(prefix) + "\n\n" + RStrip(block) + "\n\n" + LStrip(suffix)) + "\n"
    else
      var base := RStrip(text);
      if base != "" then base + "\n\n" + block else block
  }

  // ----- one fact -----

  /** A fact that prints on one line and reads back as itself. */
  predicate OneLine(f: Fact) {
    && Stripped(f.date) && NoBreak(f.date)
    && f.text != "" && Stripped(f.text) && NoBreak(f.text)
  }

  predicate Unambiguous(f: Fact) {
    if f.date == "" then f.text != NONE_YET && !Dated(f.text) else DateShape(f.date)
  }

  lemma BulletLine(body: string)
    requires body != "" && Stripped(body)
    ensures Stripped("- " + body) && ParseLine("- " + body) == ParseBody(body)
  {
    var line := "- " + body;
    assert line[|line| - 1] == body[|body| - 1];
    StripFacts(line);
    StripFacts(body);
    assert line[..2] == "- " && line[2..] == body;
  }

  lemma DatedBody(d: string, text: string)
    requires text != "" && Stripped(text)
    ensures var body := "[" + d + "] " + text;
      && body != "" && Stripped(body)
      && (DateShape(d) ==> ParseBody(body) == Some(Fact(d, text)))
      && (!DateShape(d) ==> ParseBody(body) != Some(Fact(d, text)))
  {
    var body := "[" + d + "] " + text;
    assert body[0] == '[' && body[|body| - 1] == text[|text| - 1];
    if DateShape(d) {
      assert body[1..11] == d && body[11] == ']' && body[12] == ' ';
      assert body[12..] == " " + text;
      StripSpace(text);
    }
  }

  lemma StripSpace(text: string)
    requires text != "" && Stripped(text)
    ensures Strip(" " + text) == text
  {
    var s := " " + text;
    assert s[|s| - 1] == text[|text| - 1];
    RStripFacts(s);
    LStripSpaces(" ", text);
  }

  lemma UndatedReadsBack(text: string)
    requires text != "" && Stripped(text)
    ensures ParseLine("- " + text) == Some(Fact("", text)) <==> text != NONE_YET && !Dated(text)
  {
    BulletLine(text);
    hide ParseLine;
    if Dated(text) {
      assert |text[1..11]| == 10;
    }
  }

  lemma DatedReadsBack(d: string, text: string)
    requires text != "" && Stripped(text)
    ensures ParseLine("- " + ("[" + d + "] " + text)) == Some(Fact(d, text)) <==> DateShape(d)
  {
    DatedBody(d, text);
    BulletLine("[" + d + "] " + text);
    hide ParseLine, ParseBody, DateShape;
  }

  /** A one-line fact reads back as itself exactly when its row cannot be taken for something else. */
  lemma RowReadsBack(f: Fact)
    requires OneLine(f)
    ensures ParseLine(Row(f)) == Some(f) <==> Unambiguous(f)
  {
    StripFacts(f.date);
    StripFacts(f.text);
    hide ParseLine, Dated, DateShape, Strip;
    if f.date == "" {
      UndatedReadsBack(f.text);
    } else {
      DatedReadsBack(f.date, f.text);
      assert Row(f) == "- " + ("[" + f.date + "] " + f.text);
    }
  }

  // ----- the block inside a text -----

  /** A fact that survives printing and parsing inside the block. */
  predicate Clean(f: Fact) {
    OneLine(f) && Unambiguous(f) && !Contains(f.text, END)
  }

  lemma MarkerShapes()
    ensures LinePattern(START) && LinePattern(END) && START[0] == END[0] == '<'
    ensures forall i :: 0 <= i < |HEADING| ==> HEADING[i] != '<'
  {
  }

  lemma StartIsNotEnd()
    ensures START[24] == 'S' && END[24] == 'E' && |START| == 33 && |END| == 31
    ensures forall i :: 0 < i < |START| ==> START[i] != '<'
  {
  }

  lemma MarkerFacts()
    ensures LinePattern(START) && LinePattern(END) && START[0] == END[0] == '<'
    ensures Find(HEADING, START) == None && Find(HEADING, END) == None
    ensures Find(START, END) == None
    ensures Find("", START) == None && Find("", END) == None
  {
    hide START, END, HEADING;
    MarkerShapes();
    StartIsNotEnd();
    FindNone(HEADING, START);
    FindNone(HEADING, END);
    FindNone("", START);
    FindNone("", END);
    forall p: nat ensures !OccursAt(START, END, p) {
      if p == 0 {
        assert START[0..|END|][24] == START[24];
      } else if p + |END| <= |START| {
        assert START[p..p + |END|][0] == START[p];
      }
    }
    FindIs(START, END, None);
  }

  /** Text in front that lacks the pattern's first character only shifts the occurrence. */
  lemma FindAfterPlain(p: string, s: string, pat: string)
    requires pat != "" && forall i :: 0 <= i < |p| ==> p[i] != pat[0]
    ensures Find(p + s, pat) == Shift(Find(s, pat), |p|)
  {
    var t := p + s;
    FindFacts(s, pat);
    hide Find;
    forall k: nat
      ensures k < |p| ==> !OccursAt(t, pat, k)
      ensures k >= |p| ==> (OccursAt(t, pat, k) <==> OccursAt(s, pat, k - |p|))
    {
      if k < |p| {
        if k + |pat| <= |t| {
          assert t[k..k + |pat|][0] == p[k];
        }
      } else if k + |pat| <= |t| {
        assert t[k..k + |pat|] == s[k - |p|..k - |p| + |pat|];
      }
    }
    FindIs(t, pat, Shift(Find(s, pat), |p|));
  }

  lemma RowIsPlain(f: Fact)
    requires Clean(f)
    ensures f.text != "" && Strip(f.text) == f.text && NoBreak(Row(f)) && Find(Row(f), END) == None
  {
    hide START, END, HEADING;
    StripFacts(f.date);
    StripFacts(f.text);
    MarkerFacts();
    if f.date == "" {
      FindAfterPlain("- ", f.text, END);
    } else {
      var front := "- [" + f.date + "] ";
      assert Row(f) == front + f.text;
      FindAfterPlain(front, f.text, END);
    }
  }

  lemma JoinAssociates(a: string, b: string, c: string)
    ensures a + (b + "\n") + c == a + (b + "\n" + c)
  {
  }

  lemma RowsSnoc(facts: seq<Fact>, rest: string)
    requires facts != [] && Clean(facts[|facts| - 1])
    ensures var f := facts[|facts| - 1];
      Rows(facts) + rest == Rows(facts[..|facts| - 1]) + (Row(f) + "\n" + rest)
  {
    hide Row, Strip, Clean;
    var f := facts[|facts| - 1];
    RowIsPlain(f);
    JoinAssociates(Rows(facts[..|facts| - 1]), Row(f), rest);
  }

  lemma RowsLength(facts: seq<Fact>)
    requires facts != [] && Clean(facts[|facts| - 1])
    ensures |Rows(facts)| == |Rows(facts[..|facts| - 1])| + |Row(facts[|facts| - 1])| + 1
  {
    hide Row, Strip, Clean;
    RowIsPlain(facts[|facts| - 1]);
  }

  lemma FindPastRow(f: Fact, rest: string)
    requires Clean(f)
    ensures Find(Row(f) + "\n" + rest, END) == Shift(Find(rest, END), |Row(f)| + 1)
  {
    hide Row, Clean, END, Find;
    RowIsPlain(f);
    MarkerFacts();
    FindInFront(Row(f), rest, END);
  }

  lemma {:induction false} FindPastRows(facts: seq<Fact>, rest: string)
    requires forall f <- facts :: Clean(f)
    ensures Find(Rows(facts) + rest, END) == Shift(Find(rest, END), |Rows(facts)|)
    decreases |facts|
  {
    hide Row, Clean, END, Find;
    if facts == [] {
      assert Rows(facts) + rest == rest;
    } else {
      var init, f := facts[..|facts| - 1], facts[|facts| - 1];
      assert f in facts && forall g <- init :: g in facts;
      RowsSnoc(facts, rest);
      RowsLength(facts);
      hide Rows;
      var below := Row(f) + "\n" + rest;
      FindPastRows(init, below);
      FindPastRow(f, rest);
    }
  }

  lemma {:induction false} CollectConcat(a: seq<string>, b: seq<string>)
    ensures Collect(a + b) == Collect(a) + Collect(b)
    decreases |b|
  {
    hide ParseLine;
    if b == [] {
      assert a + b == a;
    } else {
      assert (a + b)[..|a + b| - 1] == a + b[..|b| - 1];
      CollectConcat(a, b[..|b| - 1]);
    }
  }

  lemma CollectOne(line: string)
    ensures Collect([line]) == if ParseLine(line).Some? then [ParseLine(line).value] else []
  {
    assert [line][..0] == [];
    assert Collect([]) == [];
  }

  /** A clean row in front of other lines adds its fact. */
  lemma RowInFront(f: Fact, rest: string)
    requires Clean(f)
    ensures Collect(Pieces(Row(f) + "\n" + rest)) == [f] + Collect(Pieces(rest))
  {
    RowReadsBack(f);
    hide Row, Clean, OneLine, Unambiguous, ParseLine, Pieces, END, Collect;
    RowIsPlain(f);
    LineInFront(Row(f), rest);
  }

  lemma RegroupFacts(init: seq<Fact>, f: Fact, rest: seq<Fact>)
    ensures init + ([f] + rest) == init + [f] + rest
  {
  }

  lemma {:induction false} RowsReadBack(facts: seq<Fact>, rest: string)
    requires forall f <- facts :: Clean(f)
    ensures Collect(Pieces(Rows(facts) + rest)) == facts + Collect(Pieces(rest))
    decreases |facts|
  {
    hide Row, Clean, ParseLine, Pieces, Collect;
    if facts == [] {
      assert Rows(facts) + rest == rest;
    } else {
      var init, f := facts[..|facts| - 1], facts[|facts| - 1];
      assert f in facts && forall g <- init :: g in facts;
      RowsSnoc(facts, rest);
      hide Rows;
      var below := Row(f) + "\n" + rest;
      RowInFront(f, rest);
      hide Row;
      RowsReadBack(init, below);
      RegroupFacts(init, f, Collect(Pieces(rest)));
      assert facts == init + [f];
    }
  }

  lemma NoneYetLine()
    ensures ParseLine("- " + NONE_YET) == None && ParseLine("") == None
    ensures NoBreak("- " + NONE_YET) && Find("- " + NONE_YET, END) == None
  {
    BulletLine(NONE_YET);
    FindNone("- " + NONE_YET, END);
  }

  /** A line in front of other lines adds its fact, if it is one. */
  lemma LineInFront(line: string, rest: string)
    requires NoBreak(line)
    ensures Collect(Pieces(line + "\n" + rest))
         == (if ParseLine(line).Some? then [ParseLine(line).value] else []) + Collect(Pieces(rest))
  {
    hide ParseLine, Pieces;
    PiecesSplit(line, rest);
    PiecesOfLine(line);
    CollectConcat([line], Pieces(rest));
    CollectOne(line);
  }

  lemma EmptyBodyFacts(rest: string)
    ensures Find(Body([]) + rest, END) == Shift(Find(rest, END), |Body([])|)
    ensures Collect(Pieces(Body([]))) == []
  {
    hide ParseLine, Pieces, END, NONE_YET, Find;
    NoneYetLine();
    MarkerFacts();
    var line := "- " + NONE_YET;
    assert Body([]) == line + "\n" && Body([]) + rest == line + "\n" + rest && line + "\n" + "" == line + "\n";
    FindInFront(line, rest, END);
    LineInFront(line, "");
    NothingThere();
  }

  lemma NothingThere()
    ensures Collect(Pieces("")) == []
  {
    NoneYetLine();
    PiecesOfLine("");
    CollectOne("");
  }

  /** The body of the block holds no end marker and reads back as the facts. */
  lemma BodyFacts(facts: seq<Fact>, rest: string)
    requires forall f <- facts :: Clean(f)
    ensures Find(Body(facts) + rest, END) == Shift(Find(rest, END), |Body(facts)|)
    ensures Collect(Pieces(Body(facts))) == facts
    ensures Collect(Pieces("\n" + Body(facts))) == facts
  {
    hide ParseLine, Clean, Pieces, Row, START, END, HEADING, NONE_YET, Find, Collect, Rows;
    if facts == [] {
      hide Body;
      EmptyBodyFacts(rest);
    } else {
      FindPastRows(facts, rest);
      RowsReadBack(facts, "");
      NothingThere();
      assert Rows(facts) + "" == Rows(facts);
    }
    NoneYetLine();
    hide Body;
    assert "" + "\n" + Body(facts) == "\n" + Body(facts);
    LineInFront("", Body(facts));
  }

  /** The printed block with whatever follows the end marker's line. */
  function Managed(facts: seq<Fact>, tail: string): string {
    HEADING + "\n" + (START + "\n" + (Body(facts) + (END + "\n" + tail)))
  }

  lemma ManagedStart(facts: seq<Fact>, tail: string)
    ensures Find(Managed(facts, tail), START) == Some(|HEADING| + 1)
  {
    hide Body, START, END, HEADING, Find;
    var inner := Body(facts) + (END + "\n" + tail);
    MarkerFacts();
    FindSelf(START);
    FindSplit(START, inner, START);
    FindSplit(HEADING, START + "\n" + inner, START);
  }

  lemma ManagedEnd(facts: seq<Fact>, tail: string)
    requires forall f <- facts :: Clean(f)
    ensures Find(Managed(facts, tail), END) == Some(|HEADING| + 1 + |START| + 1 + |Body(facts)|)
  {
    hide Body, Clean, START, END, HEADING, Pieces, Collect, Find;
    var last := END + "\n" + tail;
    var inner := Body(facts) + last;
    MarkerFacts();
    BodyFacts(facts, last);
    FindSelf(END);
    FindSplit(END, tail, END);
    assert Find(inner, END) == Some(|Body(facts)|);
    FindSplit(START, inner, END);
    var marked := START + "\n" + inner;
    assert Find(marked, END) == Some(|START| + 1 + |Body(facts)|);
    FindSplit(HEADING, marked, END);
  }

  /** A text is either empty or ends above the block with a blank line. */
  function Above(q: Option<string>): string {
    if q.None? then "" else q.value + "\n" + ("" + "\n")
  }

  lemma AboveFinds(q: Option<string>, rest: string, pat: string)
    requires LinePattern(pat) && Find("", pat) == None
    requires q.Some? ==> Find(q.value, pat) == None
    ensures Find(Above(q) + rest, pat) == Shift(Find(rest, pat), |Above(q)|)
  {
    hide Find, LinePattern;
    if q.Some? {
      var below := "" + "\n" + rest;
      FindInFront("", rest, pat);
      FindInFront(q.value, below, pat);
      assert Above(q) + rest == q.value + "\n" + below;
    } else {
      assert Above(q) + rest == rest;
    }
  }

  /** A block below text without markers reads back as its facts. */
  lemma ManagedReadsBack(q: Option<string>, facts: seq<Fact>, tail: string)
    requires forall f <- facts :: Clean(f)
    requires q.Some? ==> Find(q.value, START) == None && Find(q.value, END) == None
    ensures Parse(Above(q) + Managed(facts, tail)) == (facts, true)
  {
    hide Body, Clean, Above, Collect, Pieces, START, END, HEADING, Managed, Find;
    MarkerFacts();
    ManagedStart(facts, tail);
    ManagedEnd(facts, tail);
    AboveFinds(q, Managed(facts, tail), START);
    AboveFinds(q, Managed(facts, tail), END);
    BodyFacts(facts, "");
    BlockBetween(Above(q), facts, tail);
  }

  lemma BlockBetween(above: string, facts: seq<Fact>, tail: string)
    ensures
      var text, start := above + Managed(facts, tail), |above| + |HEADING| + 1;
      var end := start + |START| + 1 + |Body(facts)|;
      end <= |text| && text[start + |START|..end] == "\n" + Body(facts)
  {
    hide Body, START, END, HEADING;
    var text, start := above + Managed(facts, tail), |above| + |HEADING| + 1;
    var front := above + HEADING + "\n" + START;
    assert text == front + ("\n" + Body(facts)) + (END + "\n" + tail);
    assert |front| == start + |START|;
  }

  // ----- writing the block into a text -----

  function StoreFacts(text: string, facts: seq<Fact>): string {
    ReplaceOrAppend(text, Format(facts))
  }

  /** No markers at all, or a start marker with an end marker after it. */
  predicate WellMarked(text: string) {
    var start, end := Find(text, START), Find(text, END);
    (start.None? && end.None?) || (start.Some? && end.Some? && start.value < end.value)
  }

  lemma TwoFeedsStrip()
    ensures RStrip("\n\n") == ""
  {
    assert "\n\n"[..1] == "\n" && "\n"[..0] == "";
    assert RStrip("\n") == RStrip("") == "";
  }

  lemma FeedsThenText(c: char, rest: string)
    ensures "\n\n" + ([c] + rest) == "\n\n" + [c] + rest
    ensures "\n\n" + [c] + rest == "\n" + ("\n" + [c] + rest)
  {
  }

  /** Two line feeds in front of visible text stay when the text is stripped. */
  lemma StripBelowFeeds(x: string)
    requires x != "" && !IsSpace(x[0])
    ensures RStrip("\n\n" + x) == "\n\n" + [x[0]] + RStrip(x[1..])
  {
    hide RStrip, IsSpace;
    var front := "\n\n" + [x[0]];
    assert front[|front| - 1] == x[0] && x == [x[0]] + x[1..];
    FeedsThenText(x[0], x[1..]);
    RStripAppend(front, x[1..]);
  }

  /** What is stripped after two line feeds and visible text still starts with a line feed, or is empty. */
  lemma TailShape(suffix: string) returns (tail: string)
    ensures RStrip("\n\n" + LStrip(suffix)) + "\n" == "\n" + tail
  {
    var x := LStrip(suffix);
    LStripFacts(suffix);
    hide RStrip, LStrip, IsSpace;
    if x == "" {
      tail := "";
      TwoFeedsStrip();
      assert "\n\n" + x == "\n\n";
    } else {
      var rest := RStrip(x[1..]) + "\n";
      tail := "\n" + [x[0]] + rest;
      StripBelowFeeds(x);
      FeedsThenText(x[0], rest);
      assert "\n\n" + [x[0]] + RStrip(x[1..]) + "\n" == "\n\n" + [x[0]] + rest;
    }
  }

  /** The printed block without its last line feed. */
  function Core(facts: seq<Fact>): string {
    HEADING + "\n" + START + "\n" + Body(facts) + END
  }

  lemma CoreFacts(facts: seq<Fact>)
    ensures Format(facts) == Core(facts) + "\n" && Format(facts) == Managed(facts, "")
    ensures Core(facts) != "" && !IsSpace(Core(facts)[|Core(facts)| - 1])
    ensures RStrip(Format(facts)) == Core(facts)
  {
    hide Body, START, END, HEADING;
    MarkerShapes();
    var core := Core(facts);
    assert core[|core| - 1] == END[|END| - 1];
    RStripAppend(core, "\n");
    assert "\n"[..0] == "";
    assert RStrip("\n") == RStrip("") == "";
  }

  lemma ReplacedShape(q: string, facts: seq<Fact>, suffix: string) returns (tail: string)
    ensures RStrip(q + "\n\n" + RStrip(Format(facts)) + "\n\n" + LStrip(suffix)) + "\n"
         == Above(Some(q)) + Managed(facts, tail)
  {
    CoreFacts(facts);
    hide Core, Format, Managed;
    var core, l := Core(facts), LStrip(suffix);
    tail := TailShape(suffix);
    ManagedFromCore(facts, tail);
    hide *;
    BelowCore(q, core, l);
    AboveCore(q, core, tail);
  }

  lemma BelowCore(q: string, core: string, l: string)
    requires core != "" && !IsSpace(core[|core| - 1])
    ensures RStrip(q + "\n\n" + core + "\n\n" + l) + "\n"
         == q + "\n\n" + core + (RStrip("\n\n" + l) + "\n")
  {
    hide RStrip, IsSpace;
    var a, b := q + "\n\n" + core, "\n\n" + l;
    assert a[|a| - 1] == core[|core| - 1];
    RStripAppend(a, b);
    assert a + "\n\n" + l == a + b;
  }

  lemma AboveCore(q: string, core: string, tail: string)
    ensures q + "\n\n" + core + ("\n" + tail) == Above(Some(q)) + (core + "\n" + tail)
  {
  }

  lemma ManagedFromCore(facts: seq<Fact>, tail: string)
    ensures Managed(facts, tail) == Core(facts) + "\n" + tail
  {
    hide Body, START, END, HEADING;
  }

  /** What a replacement or an append leaves above the block. */
  function Kept(text: string): Option<string> {
    var start, end := Find(text, START), Find(text, END);
    if start.Some? && end.Some? && end.value > start.value then Some(RStrip(text[..LineStart(text, start.value)]))
    else if RStrip(text) != "" then Some(RStrip(text))
    else None
  }

  lemma StoredShape(text: string, facts: seq<Fact>) returns (tail: string)
    ensures StoreFacts(text, facts) == Above(Kept(text)) + Managed(facts, tail)
    ensures !WellMarked(text) || (Find(text, START).None? && Find(text, END).None?) ==> tail == ""
  {
    hide START, END, Format, Managed, Find;
    CoreFacts(facts);
    var start, end := Find(text, START), Find(text, END);
    if start.Some? && end.Some? && end.value > start.value {
      tail := ReplacedShape(RStrip(text[..LineStart(text, start.value)]), facts,
                            text[LineEnd(text, end.value)..]);
    } else {
      tail := "";
      assert RStrip(text) + "\n\n" == RStrip(text) + "\n" + ("" + "\n");
    }
  }

  /** The text kept above the block of a well-marked text has no marker. */
  lemma KeptIsUnmarked(text: string)
    requires WellMarked(text) && Kept(text).Some?
    ensures Find(Kept(text).value, START) == None && Find(Kept(text).value, END) == None
  {
    hide START, END, RStrip, Find;
    MarkerFacts();
    var start, end := Find(text, START), Find(text, END);
    if start.Some? {
      var n := LineStart(text, start.value);
      FindInPrefix(text, START, n);
      FindInPrefix(text, END, n);
      FindRStrip(text[..n], START);
      FindRStrip(text[..n], END);
    } else {
      FindRStrip(text, START);
      FindRStrip(text, END);
    }
  }

  /**
   * In any text without markers or with a start marker before an end marker, clean facts that are
   * written read back as the same dated facts in the same order.
   */
  lemma StoredReadsBack(text: string, facts: seq<Fact>)
    requires WellMarked(text) && forall f <- facts :: Clean(f)
    ensures Parse(StoreFacts(text, facts)) == (facts, true)
  {
    hide Clean, WellMarked, Kept, StoreFacts, Parse, Managed, Above, START, END, Find;
    var tail := StoredShape(text, facts);
    if Kept(text).Some? {
      KeptIsUnmarked(text);
    }
    ManagedReadsBack(Kept(text), facts, tail);
  }

  /** A block that was found is well marked, so the next run replaces it. */
  lemma FoundIsWellMarked(text: string)
    requires Parse(text).1
    ensures WellMarked(text)
  {
    MarkersApart(text);
    hide START, END;
  }

  /** A stray end marker above the block hides it: nothing that is written is ever read back. */
  lemma StrayEndHidesBlock(text: string, facts: seq<Fact>)
    requires forall f <- facts :: Clean(f)
    requires Find(text, END).Some?
    requires Find(text, START).Some? ==> Find(text, END).value < Find(text, START).value
    ensures Parse(StoreFacts(text, facts)) == ([], false)
  {
    hide Clean, START, END, RStrip, Managed, HEADING, Find, LinePattern, StoreFacts, Collect, Pieces;
    var tail := StoredShape(text, facts);
    MarkerFacts();
    FindRStrip(text, START);
    FindRStrip(text, END);
    var base := RStrip(text);
    assert Find("", END) == None && base != "";
    var inner := "" + "\n" + Managed(facts, tail);
    assert StoreFacts(text, facts) == base + "\n" + inner;
    hide Kept, Above;
    FindInFront(base, inner, START);
    FindInFront(base, inner, END);
  }

  /** A stripped line that does not start with a hyphen is no fact. */
  lemma NoBullet(line: string)
    requires Stripped(line) && line != "" && line[0] != '-'
    ensures ParseLine(line) == None
  {
    StripFacts(line);
    assert |line| >= 2 ==> line[..2][0] == line[0];
  }

  lemma HeadingShape()
    ensures HEADING != "" && Stripped(HEADING) && HEADING[0] == '#' && NoBreak(HEADING)
  {
  }

  lemma StartShape()
    ensures START != "" && Stripped(START) && START[0] == '<' && NoBreak(START)
  {
  }

  lemma QuietLines()
    ensures ParseLine(HEADING) == None && ParseLine(START) == None && ParseLine("") == None
    ensures NoBreak(HEADING) && NoBreak(START) && NoBreak("")
  {
    hide HEADING, START, Stripped;
    HeadingShape();
    StartShape();
    NoBullet(HEADING);
    NoBullet(START);
  }

  /** What a reader collects after a start marker that has no end marker. */
  function Stray(text: string): seq<Fact> {
    var start := Find(text, START);
    if start.None? || start.value + |START| > |RStrip(text)| then []
    else Collect(Pieces(RStrip(text)[start.value + |START|..]))
  }

  lemma StrayLines(junk: string, facts: seq<Fact>)
    requires forall f <- facts :: Clean(f)
    ensures Collect(Pieces(junk + "\n" + ("" + "\n" + (HEADING + "\n" + (START + "\n" + Body(facts))))))
         == Collect(Pieces(junk)) + facts
  {
    QuietLines();
    hide Clean, Body, ParseLine, Pieces, START, HEADING;
    var inner := START + "\n" + Body(facts);
    var below := "" + "\n" + (HEADING + "\n" + inner);
    BodyFacts(facts, "");
    LineInFront(START, Body(facts));
    LineInFront(HEADING, inner);
    LineInFront("", HEADING + "\n" + inner);
    PiecesSplit(junk, below);
    CollectConcat(Pieces(junk), Pieces(below));
  }

  lemma StrayFinds(base: string, facts: seq<Fact>, tail: string)
    requires forall f <- facts :: Clean(f)
    requires Find(base, START).Some? && Find(base, END).None?
    ensures
      var text := base + "\n" + ("" + "\n" + Managed(facts, tail));
      && Find(text, START) == Find(base, START)
      && Find(text, END) == Some(|base| + 1 + (1 + (|HEADING| + 1 + |START| + 1 + |Body(facts)|)))
  {
    hide Clean, START, END, Managed, HEADING, Body, Find;
    MarkerFacts();
    ManagedEnd(facts, tail);
    var inner := "" + "\n" + Managed(facts, tail);
    FindSplit("", Managed(facts, tail), END);
    assert Find(inner, END) == Some(1 + (|HEADING| + 1 + |START| + 1 + |Body(facts)|));
    FindSplit(base, inner, START);
    FindSplit(base, inner, END);
  }

  /** With a stray start marker, every bullet line after it is read as a fact in front of the block's. */
  lemma StrayStartLeaks(text: string, facts: seq<Fact>)
    requires forall f <- facts :: Clean(f)
    requires Find(text, START).Some? && Find(text, END).None?
    ensures Parse(StoreFacts(text, facts)) == (Stray(text) + facts, true)
  {
    hide Clean, START, END, RStrip, Managed, HEADING, Body, Collect, Pieces, Find;
    var tail := StoredShape(text, facts);
    var base, start := RStrip(text), Find(text, START).value;
    MarkerFacts();
    FindRStrip(text, START);
    FindRStrip(text, END);
    assert base != "";
    var stored := base + "\n" + ("" + "\n" + Managed(facts, tail));
    assert Above(Some(base)) + Managed(facts, tail) == stored;
    StrayFinds(base, facts, tail);
    StraySlice(base, start, facts, tail);
    StrayLines(base[start + |START|..], facts);
  }

  lemma StraySlice(base: string, start: nat, facts: seq<Fact>, tail: string)
    requires start + |START| <= |base|
    ensures
      var text, end := base + "\n" + ("" + "\n" + Managed(facts, tail)),
                       |base| + 1 + (1 + (|HEADING| + 1 + |START| + 1 + |Body(facts)|));
      && end <= |text|
      && text[start + |START|..end]
         == base[start + |START|..] + "\n" + ("" + "\n" + (HEADING + "\n" + (START + "\n" + Body(facts))))
  {
    hide Body, START, END, HEADING;
    var text := base + "\n" + ("" + "\n" + Managed(facts, tail));
    var front := base + "\n" + ("" + "\n" + (HEADING + "\n" + (START + "\n" + Body(facts))));
    assert text == front + (END + "\n" + tail);
  }

  /** Exactly when written facts read back: well-marked text, or a stray start with no bullets after it. */
  lemma ReadsBackExactly(text: string, facts: seq<Fact>)
    requires forall f <- facts :: Clean(f)
    ensures Parse(StoreFacts(text, facts)) == (facts, true)
       <==> WellMarked(text) || (Find(text, START).Some? && Find(text, END).None? && Stray(text) == [])
  {
    hide Clean, START, END, StoreFacts, Parse, Stray, Find;
    if WellMarked(text) {
      StoredReadsBack(text, facts);
    } else if Find(text, END).None? {
      assert Stray(text) + facts == facts ==> |Stray(text)| == 0;
      StrayStartLeaks(text, facts);
    } else {
      MarkersApart(text);
      StrayEndHidesBlock(text, facts);
    }
  }

  lemma MarkersApart(text: string)
    ensures Find(text, START).Some? && Find(text, END).Some? ==> Find(text, START) != Find(text, END)
  {
    StartIsNotEnd();
    FindFacts(text, START);
    FindFacts(text, END);
    hide START, END, Find;
    if Find(text, START).Some? {
      var p := Find(text, START).value;
      OccursMeans(text, START, p);
      OccursMeans(text, END, p);
      assert text[p + 24] == START[24];
    }
  }
}
