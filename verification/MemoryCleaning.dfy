/**
 * What cleaning a fact does to its words, which facts are rejected, how one line of the block is read,
 * and which facts a merge keeps and appends.
 */
module MemoryCleaning {
  import opened Common
  import opened TextTools
  import opened MemoryBlock
  import opened MemoryText
  import opened MemoryMerge
  import opened MemoryReruns

  // ----- words -----

  /** The runs of visible characters. */
  function Words(s: string): seq<string> {
    if s == "" then []
    else if IsSpace(s[0]) then Words(s[1..])
    else if |s| == 1 || IsSpace(s[1]) then [[s[0]]] + Words(s[1..])
    else
      var rest := Words(s[1..]);
      if rest == [] then [[s[0]]] else [[s[0]] + rest[0]] + rest[1..]
  }

  lemma {:induction false} WordsDropSpace(s: string)
    ensures Words(LStrip(s)) == Words(s)
  {
    if s != "" && IsSpace(s[0]) {
      WordsDropSpace(s[1..]);
    }
  }

  lemma {:induction false} WordsBeforeSpace(s: string, c: char)
    requires IsSpace(c)
    ensures Words(s + [c]) == Words(s)
  {
    hide IsSpace;
    if s == "" {
      assert s + [c] == [c] && [c][1..] == "";
    } else {
      WordsBeforeSpace(s[1..], c);
      assert (s + [c])[1..] == s[1..] + [c];
      if |s| == 1 {
        assert s[1..] == "" && (s + [c])[1] == c;
      } else {
        assert (s + [c])[1] == s[1];
      }
    }
  }

  lemma {:induction false} WordsRStrip(s: string)
    ensures Words(RStrip(s)) == Words(s)
  {
    hide IsSpace, Words;
    if s != "" && IsSpace(s[|s| - 1]) {
      WordsRStrip(s[..|s| - 1]);
      WordsBeforeSpace(s[..|s| - 1], s[|s| - 1]);
      assert s == s[..|s| - 1] + [s[|s| - 1]];
    }
  }

  lemma {:induction false} WordsCollapse(s: string)
    ensures Words(Collapse(s)) == Words(s)
  {
    hide IsSpace;
    SpaceIsSpace();
    if s != "" {
      WordsCollapse(s[1..]);
      var rest, all := Collapse(s[1..]), Collapse(s);
      CollapseFacts(s[1..]);
      if !IsSpace(s[0]) || |s| == 1 || !IsSpace(s[1]) {
        assert all[1..] == rest;
      }
    }
  }

  /** Between cleaning and the original stand the bullets in front only: the same words, one space apart. */
  lemma SpacedOnce(raw: string)
    ensures
      var t := Collapse(Strip(raw));
      Words(t) == Words(raw) && Stripped(t) && Collapsed(t)
  {
    WordsCollapse(Strip(raw));
    WordsDropSpace(RStrip(raw));
    WordsRStrip(raw);
    StripFacts(raw);
    CollapseFacts(Strip(raw));
    assert Stripped(Collapse(Strip(raw)));
    hide Collapse, Words, RStrip, LStrip, IsSpace, Collapsed;
  }

  // ----- bullets -----

  predicate AllBullets(s: string) {
    forall i :: 0 <= i < |s| ==> s[i] == '-' || s[i] == '*'
  }

  lemma {:induction false} DropBulletsMeans(s: string)
    ensures |DropBullets(s)| <= |s| && DropBullets(s) == s[|s| - |DropBullets(s)|..]
    ensures AllBullets(s[..|s| - |DropBullets(s)|])
    ensures DropBullets(s) != "" ==> DropBullets(s)[0] != '-' && DropBullets(s)[0] != '*'
  {
    if s != "" && IsBullet(s[0]) {
      DropBulletsMeans(s[1..]);
      var n := |s| - |DropBullets(s)|;
      assert s[..n] == [s[0]] + s[1..][..n - 1];
    }
  }

  predicate StartsVisible(s: string) {
    s == "" || !IsSpace(s[0])
  }

  predicate StartsPlain(s: string) {
    s == "" || (s[0] != '-' && s[0] != '*')
  }

  lemma Parts(a: string, b: string, c: string)
    ensures a + (b + c) == a + b + c
  {
  }

  /** A run of bullets, and the whitespace behind it. */
  lemma BulletRun(s: string) returns (bullets: string, space: string)
    requires s != "" && IsBullet(s[0])
    ensures s == bullets + space + StripBullets(s) && bullets != ""
    ensures AllBullets(bullets) && AllSpace(space) && StartsVisible(StripBullets(s))
    ensures space == "" ==> StartsPlain(StripBullets(s))
  {
    var d := DropBullets(s);
    DropBulletsMeans(s);
    LStripDropsBlank(d);
    DropBulletsSuffix(s);
    var r := LStrip(d);
    hide IsSpace, LStrip, DropBullets, AllBullets, AllSpace;
    bullets, space := s[..|s| - |d|], d[..|d| - |r|];
    Parts(bullets, space, r);
    assert s == bullets + d && d == space + r;
    if space == "" {
      assert d == r;
    }
  }

  /** One run of bullets in front goes, as long as possible, with the whitespace behind it. */
  lemma StripBulletsMeans(s: string) returns (bullets: string, space: string)
    ensures s == bullets + space + StripBullets(s)
    ensures AllBullets(bullets) && AllSpace(space) && (bullets == "" ==> space == "")
    ensures bullets == "" || space == "" ==> StartsPlain(StripBullets(s))
    ensures bullets != "" ==> StartsVisible(StripBullets(s))
  {
    if s != "" && IsBullet(s[0]) {
      bullets, space := BulletRun(s);
    } else {
      bullets, space := "", "";
      assert "" + "" + s == s;
    }
  }

  // ----- rejection -----

  /** The word stands in the text, in whatever case. */
  ghost predicate Says(t: string, word: string) {
    exists p: nat :: SaysAt(t, word, p)
  }

  predicate SaysAt(t: string, word: string, p: nat) {
    p + |word| <= |t| && forall k :: 0 <= k < |word| ==> LowerChar(t[p + k]) == word[k]
  }

  lemma SaysExactly(t: string, word: string)
    ensures Contains(Lower(t), word) <==> Says(t, word)
  {
    FindFacts(Lower(t), word);
    hide Find, LowerChar;
    forall p: nat ensures OccursAt(Lower(t), word, p) <==> SaysAt(t, word, p) {
      OccursMeans(Lower(t), word, p);
    }
  }

  /** Too short, bracketed as a whole, or with one of the placeholder words. */
  lemma RejectedExactly(t: string)
    ensures Rejected(t) <==>
      || |t| < 12 || (t[0] == '(' && t[|t| - 1] == ')')
      || Says(t, "todo") || Says(t, "tbd") || Says(t, "replace me") || Says(t, "<fill") || Says(t, "[fill")
  {
    SaysExactly(t, "todo");
    SaysExactly(t, "tbd");
    SaysExactly(t, "replace me");
    SaysExactly(t, "<fill");
    SaysExactly(t, "[fill");
    hide Says, Contains, Lower;
  }

  // ----- one line of the block -----

  /** An indented bullet with a body that is neither empty nor the placeholder is a fact, and no other line. */
  lemma LineExactly(before: string, gap: string, body: string, after: string)
    requires AllSpace(before) && AllSpace(gap) && AllSpace(after) && body != "" && Stripped(body)
    ensures ParseLine(before + ("- " + gap + body) + after) == if body == "(none yet)" then None else ParseBody(body)
  {
    BulletStripped(gap, body);
    hide Strip, AllSpace, Stripped, ParseBody;
    BetweenSpace(before, "- " + gap + body, after);
    BulletRead(gap, body);
    Placeholder10(body);
  }

  lemma BulletStripped(gap: string, body: string)
    requires body != "" && Stripped(body)
    ensures Stripped("- " + gap + body)
  {
    var bullet := "- " + gap + body;
    assert bullet[|bullet| - 1] == body[|body| - 1] && bullet[0] == '-';
    SpaceIsSpace();
    hide IsSpace;
  }

  lemma BulletRead(gap: string, body: string)
    requires AllSpace(gap) && body != "" && Stripped(body)
    ensures StartsWith("- " + gap + body, "- ") && Strip(("- " + gap + body)[2..]) == body
  {
    assert AllSpace("");
    hide Strip, AllSpace, Stripped;
    var bullet := "- " + gap + body;
    BetweenSpace(gap, body, "");
    assert gap + body + "" == gap + body;
    assert bullet[2..] == gap + body && bullet[..2] == "- ";
  }

  lemma Placeholder10(body: string)
    ensures body == "(none yet)" ==> ParseBody(body) == None
  {
  }

  lemma BlankFront(b: string)
    requires AllSpace(b) && b != ""
    ensures IsSpace(b[|b| - 1]) && AllSpace(b[..|b| - 1])
  {
    hide IsSpace;
  }

  lemma {:induction false} RStripSpaces(a: string, b: string)
    requires AllSpace(b) && (a != "" ==> !IsSpace(a[|a| - 1]))
    ensures RStrip(a + b) == a
    decreases |b|
  {
    hide IsSpace, AllSpace;
    if b == "" {
      assert a + b == a;
    } else {
      BlankFront(b);
      RStripSpaces(a, b[..|b| - 1]);
      assert (a + b)[..|a + b| - 1] == a + b[..|b| - 1] && (a + b)[|a + b| - 1] == b[|b| - 1];
    }
  }

  lemma BetweenSpace(before: string, body: string, after: string)
    requires AllSpace(before) && AllSpace(after) && body != "" && Stripped(body)
    ensures Strip(before + body + after) == body
  {
    hide IsSpace;
    assert (before + body)[|before + body| - 1] == body[|body| - 1];
    RStripSpaces(before + body, after);
    LStripSpaces(before, body);
  }

  /** A body of a bracketed date, whitespace and a text is that fact; any other is an undated one. */
  lemma BodyExactly(d: string, gap: string, text: string, body: string)
    requires text != "" && Stripped(text) && gap != "" && AllSpace(gap)
    requires body != "" && body != "(none yet)" && Stripped(body)
    ensures DateShape(d) && body == "[" + d + "]" + gap + text ==> ParseBody(body) == Some(Fact(d, text))
    ensures !Dated(body) ==> ParseBody(body) == Some(Fact("", body))
    ensures DateShape(d) && body == "[" + d + "]" + gap + text ==> Dated(body)
  {
    if DateShape(d) && body == "[" + d + "]" + gap + text {
      assert body[1..11] == d && body[11] == ']' && body[12] == gap[0] && body[12..] == gap + text;
      BetweenSpace(gap, text, "");
      assert gap + text + "" == gap + text;
    }
  }

  /** A line that does not start with a bullet and a space, stripped, is no fact. */
  lemma OtherLine(raw: string)
    requires !(|Strip(raw)| >= 2 && Strip(raw)[0] == '-' && Strip(raw)[1] == ' ')
    ensures ParseLine(raw) == None
  {
    hide Strip, ParseBody;
    var line := Strip(raw);
    assert |line| >= 2 ==> line[..2][0] == line[0] && line[..2][1] == line[1];
  }

  // ----- what a merge keeps and appends -----

  /** The fact at i is not cleaned away, and is the first of its signature. */
  ghost predicate FirstOfItsKind(sig: Signature, parsed: seq<Fact>, i: nat)
    requires i < |parsed|
  {
    && Sanitize(parsed[i].text) != ""
    && forall j :: 0 <= j < i && Sanitize(parsed[j].text) != "" ==>
         sig(Sanitize(parsed[j].text)) != sig(Sanitize(parsed[i].text))
  }

  lemma {:induction false} SigsOfExisting(sig: Signature, parsed: seq<Fact>, h: string)
    ensures h in Sigs(sig, Existing(sig, parsed)) <==>
      exists j :: 0 <= j < |parsed| && Sanitize(parsed[j].text) != "" && sig(Sanitize(parsed[j].text)) == h
  {
    hide Sanitize, Strip, Sigs;
    if parsed == [] {
      NoSigs(sig);
    } else {
      var init, f := parsed[..|parsed| - 1], parsed[|parsed| - 1];
      SigsOfExisting(sig, init, h);
      assert forall j :: 0 <= j < |init| ==> init[j] == parsed[j];
      SigsOfExisting(sig, init, sig(Sanitize(f.text)));
      SigsSnoc(sig, Existing(sig, init), Fact(Strip(f.date), Sanitize(f.text)));
      assert parsed[|init|] == f;
    }
  }

  lemma NoSigs(sig: Signature)
    ensures Sigs(sig, []) == {}
  {
  }

  ghost predicate Chosen(sig: Signature, parsed: seq<Fact>, i: nat) {
    i < |parsed| && FirstOfItsKind(sig, parsed, i)
  }

  ghost function Choices(sig: Signature, parsed: seq<Fact>, n: nat): seq<nat> {
    if n == 0 then []
    else if Chosen(sig, parsed, n - 1) then Choices(sig, parsed, n - 1) + [n - 1]
    else Choices(sig, parsed, n - 1)
  }

  lemma {:induction false} ChoicesFacts(sig: Signature, parsed: seq<Fact>, n: nat)
    ensures Increasing(Choices(sig, parsed, n), n)
    ensures forall i: nat :: i in Choices(sig, parsed, n) <==> i < n && Chosen(sig, parsed, i)
  {
    hide Chosen;
    if n > 0 {
      ChoicesFacts(sig, parsed, n - 1);
      IncreasingSnoc(Choices(sig, parsed, n - 1), n - 1);
      hide Increasing;
    }
  }

  function CleanedFact(f: Fact): Fact {
    Fact(Strip(f.date), Sanitize(f.text))
  }

  /** The last fact is kept when it is the first of its kind. */
  lemma LastKept(sig: Signature, parsed: seq<Fact>, n: nat)
    requires 0 < n <= |parsed|
    ensures Existing(sig, parsed[..n])
         == if Chosen(sig, parsed, n - 1) then Existing(sig, parsed[..n - 1]) + [CleanedFact(parsed[n - 1])]
            else Existing(sig, parsed[..n - 1])
  {
    hide Sanitize, Strip, Sigs;
    assert parsed[..n][..n - 1] == parsed[..n - 1];
    SigsOfExisting(sig, parsed[..n - 1], sig(Sanitize(parsed[n - 1].text)));
    assert forall j :: 0 <= j < n - 1 ==> parsed[..n - 1][j] == parsed[j];
  }

  /** The facts are those at these positions, cleaned. */
  ghost predicate Cleans(parsed: seq<Fact>, facts: seq<Fact>, q: seq<nat>) {
    |facts| == |q| && forall k :: 0 <= k < |q| ==> q[k] < |parsed| && facts[k] == CleanedFact(parsed[q[k]])
  }

  lemma CleansSnoc(parsed: seq<Fact>, facts: seq<Fact>, q: seq<nat>, i: nat)
    requires Cleans(parsed, facts, q) && i < |parsed|
    ensures Cleans(parsed, facts + [CleanedFact(parsed[i])], q + [i])
  {
    hide CleanedFact;
  }

  lemma NothingKept(sig: Signature, parsed: seq<Fact>)
    ensures Cleans(parsed, Existing(sig, parsed[..0]), [])
  {
    assert parsed[..0] == [];
    ExistingNothing(sig);
  }

  lemma {:induction false} KeptList(sig: Signature, parsed: seq<Fact>, n: nat)
    requires n <= |parsed|
    ensures Cleans(parsed, Existing(sig, parsed[..n]), Choices(sig, parsed, n))
  {
    hide Existing, Chosen, CleanedFact, Cleans;
    if n == 0 {
      NothingKept(sig, parsed);
    } else {
      LastKept(sig, parsed, n);
      KeptList(sig, parsed, n - 1);
      CleansSnoc(parsed, Existing(sig, parsed[..n - 1]), Choices(sig, parsed, n - 1), n - 1);
    }
  }

  /** Of the facts in the block, those first of their kind are kept, cleaned, in order. */
  lemma ExistingExactly(sig: Signature, parsed: seq<Fact>) returns (q: seq<nat>)
    ensures Increasing(q, |parsed|) && |Existing(sig, parsed)| == |q|
    ensures forall i: nat :: i in q <==> i < |parsed| && FirstOfItsKind(sig, parsed, i)
    ensures forall k :: 0 <= k < |q| ==>
              Existing(sig, parsed)[k] == Fact(Strip(parsed[q[k]].date), Sanitize(parsed[q[k]].text))
  {
    KeptList(sig, parsed, |parsed|);
    ChoicesFacts(sig, parsed, |parsed|);
    q := Choices(sig, parsed, |parsed|);
    assert parsed[..|parsed|] == parsed;
    hide Existing, Choices, FirstOfItsKind, Sanitize, Strip;
  }

  /** The candidate at i is unknown, and the first of its signature. */
  ghost predicate FirstNew(sig: Signature, known: set<string>, cands: seq<string>, i: nat)
    requires i < |cands|
  {
    sig(cands[i]) !in known && forall j :: 0 <= j < i ==> sig(cands[j]) != sig(cands[i])
  }

  /** Behind the kept facts stand the candidates that are new, with the date of the run, in order. */
  lemma {:induction false} AppendedExactly(sig: Signature, items: seq<Fact>, known: set<string>, cands: seq<string>,
                                           date: string) returns (q: seq<nat>)
    ensures Increasing(q, |cands|) && |AppendNew(sig, items, known, cands, date)| == |items| + |q|
    ensures forall i: nat :: i in q <==> i < |cands| && FirstNew(sig, known, cands, i)
    ensures items <= AppendNew(sig, items, known, cands, date)
    ensures forall k :: 0 <= k < |q| ==>
              AppendNew(sig, items, known, cands, date)[|items| + k] == Fact(date, cands[q[k]])
    decreases |cands|
  {
    if cands == [] {
      return [];
    }
    var c, rest := cands[0], cands[1..];
    var isNew := sig(c) !in known;
    var items', known' := if isNew then items + [Fact(date, c)] else items, if isNew then known + {sig(c)} else known;
    var r := AppendedExactly(sig, items', known', rest, date);
    q := (if isNew then [0] else []) + Shifted(r);
    ShiftedPositions(sig, known, cands, r);
  }

  function Shifted(r: seq<nat>): (q: seq<nat>)
    ensures |q| == |r| && forall k :: 0 <= k < |r| ==> q[k] == r[k] + 1
  {
    seq(|r|, k requires 0 <= k < |r| => r[k] + 1)
  }

  lemma ShiftedPositions(sig: Signature, known: set<string>, cands: seq<string>, r: seq<nat>)
    requires cands != []
    requires
      var known' := if sig(cands[0]) in known then known else known + {sig(cands[0])};
      forall i: nat :: i in r <==> i < |cands| - 1 && FirstNew(sig, known', cands[1..], i)
    ensures
      var q := (if sig(cands[0]) in known then [] else [0]) + Shifted(r);
      forall i: nat :: i in q <==> i < |cands| && FirstNew(sig, known, cands, i)
  {
    var known' := if sig(cands[0]) in known then known else known + {sig(cands[0])};
    var q := (if sig(cands[0]) in known then [] else [0]) + Shifted(r);
    forall i: nat ensures i in q <==> i < |cands| && FirstNew(sig, known, cands, i) {
      if i == 0 {
        assert 0 !in Shifted(r);
      } else {
        InShifted(r, i);
        if i < |cands| {
          RestNew(sig, known, cands, i);
        }
      }
    }
  }

  lemma InShifted(r: seq<nat>, i: nat)
    requires i > 0
    ensures i in Shifted(r) <==> i - 1 in r
  {
    if i - 1 in r {
      var k :| 0 <= k < |r| && r[k] == i - 1;
      assert Shifted(r)[k] == i;
    }
  }

  lemma RestNew(sig: Signature, known: set<string>, cands: seq<string>, i: nat)
    requires 0 < i < |cands|
    ensures
      var known' := if sig(cands[0]) in known then known else known + {sig(cands[0])};
      FirstNew(sig, known', cands[1..], i - 1) <==> FirstNew(sig, known, cands, i)
  {
    var rest := cands[1..];
    assert rest[i - 1] == cands[i];
    if FirstNew(sig, known, cands, i) {
      assert sig(cands[0]) != sig(cands[i]);
      assert forall j :: 0 <= j < i - 1 ==> rest[j] == cands[j + 1];
    }
    var known' := if sig(cands[0]) in known then known else known + {sig(cands[0])};
    if FirstNew(sig, known', rest, i - 1) {
      forall j | 0 <= j < i ensures sig(cands[j]) != sig(cands[i]) {
        assert j > 0 ==> rest[j - 1] == cands[j];
      }
    }
  }
}
