/** The string operations that the memory extractor relies on, and how they act on joined lines. */
module TextTools {
  import opened Common

  /** Whitespace as str.strip and the pattern \s see it. */
  predicate IsSpace(c: char) {
    var n := c as int;
    || 9 <= n <= 13 || 28 <= n <= 32 || n == 0x85 || n == 0xA0 || n == 0x1680 || 0x2000 <= n <= 0x200A
    || n == 0x2028 || n == 0x2029 || n == 0x202F || n == 0x205F || n == 0x3000
  }

  /** Line boundaries as str.splitlines sees them; each of them is whitespace. */
  predicate IsBreak(c: char) {
    var n := c as int;
    10 <= n <= 13 || 28 <= n <= 30 || n == 0x85 || n == 0x2028 || n == 0x2029
  }

  function LStrip(s: string): string {
    if s != "" && IsSpace(s[0]) then LStrip(s[1..]) else s
  }

  function RStrip(s: string): string {
    if s != "" && IsSpace(s[|s| - 1]) then RStrip(s[..|s| - 1]) else s
  }

  function Strip(s: string): string {
    LStrip(RStrip(s))
  }

  predicate StartsWith(s: string, pat: string) {
    |pat| <= |s| && s[..|pat|] == pat
  }

  predicate OccursAt(s: string, pat: string, p: nat) {
    p + |pat| <= |s| && s[p..p + |pat|] == pat
  }

  function FindFrom(s: string, pat: string, from: nat): (r: Option<nat>)
    requires from <= |s|
    ensures r.Some? ==> r.value + |pat| <= |s|
    decreases |s| - from
  {
    if OccursAt(s, pat, from) then Some(from)
    else if from == |s| then None
    else FindFrom(s, pat, from + 1)
  }

  /** The first occurrence. */
  function Find(s: string, pat: string): (r: Option<nat>)
    ensures r.Some? ==> r.value + |pat| <= |s|
  {
    FindFrom(s, pat, 0)
  }

  predicate Contains(s: string, pat: string) {
    Find(s, pat).Some?
  }

  /** The start of the line that holds position i. */
  function LineStart(s: string, i: nat): (r: nat)
    requires i <= |s|
    ensures r <= i
  {
    if i == 0 then 0 else if s[i - 1] == '\n' then i else LineStart(s, i - 1)
  }

  /** The position after the line that holds position j. */
  function LineEnd(s: string, j: nat): (r: nat)
    requires j <= |s|
    ensures j <= r <= |s|
    decreases |s| - j
  {
    if j == |s| then j else if s[j] == '\n' then j + 1 else LineEnd(s, j + 1)
  }

  /** The pieces between line breaks; unlike splitlines it keeps empty pieces, which readers skip. */
  function Pieces(s: string): (r: seq<string>)
    ensures |r| >= 1
  {
    if s == "" then [""]
    else
      var before, c := Pieces(s[..|s| - 1]), s[|s| - 1];
      if IsBreak(c) then before + [""] else before[..|before| - 1] + [before[|before| - 1] + [c]]
  }

  predicate NoBreak(s: string) {
    forall i :: 0 <= i < |s| ==> !IsBreak(s[i])
  }

  // ----- stripping -----

  predicate Stripped(s: string) {
    s != "" ==> !IsSpace(s[0]) && !IsSpace(s[|s| - 1])
  }

  lemma {:induction false} RStripFacts(s: string)
    ensures RStrip(s) <= s
    ensures RStrip(s) != "" ==> !IsSpace(RStrip(s)[|RStrip(s)| - 1])
    ensures forall i :: |RStrip(s)| <= i < |s| ==> IsSpace(s[i])
  {
    if s != "" && IsSpace(s[|s| - 1]) {
      RStripFacts(s[..|s| - 1]);
    }
  }

  lemma {:induction false} LStripFacts(s: string)
    ensures |LStrip(s)| <= |s| && LStrip(s) == s[|s| - |LStrip(s)|..]
    ensures LStrip(s) != "" ==> !IsSpace(LStrip(s)[0])
  {
    if s != "" && IsSpace(s[0]) {
      LStripFacts(s[1..]);
    }
  }

  lemma StripFacts(s: string)
    ensures |Strip(s)| <= |s| && Stripped(Strip(s))
    ensures Strip(s) == s <==> Stripped(s)
    ensures |Strip(s)| == |s| ==> Strip(s) == s
  {
    RStripFacts(s);
    LStripFacts(RStrip(s));
    hide RStrip, LStrip, IsSpace;
    var r := RStrip(s);
    assert r == s[..|r|];
    if |r| == |s| {
      assert r == s;
    }
    StripIdle(s);
  }

  /** Text without whitespace at its ends is left alone. */
  lemma StripIdle(s: string)
    ensures Stripped(s) ==> Strip(s) == s
  {
    hide IsSpace;
  }

  /** Text after a last visible character is stripped on its own. */
  lemma {:induction false} RStripAppend(a: string, b: string)
    requires a != "" && !IsSpace(a[|a| - 1])
    ensures RStrip(a + b) == a + RStrip(b)
    decreases |b|
  {
    if b == "" {
      assert a + b == a;
    } else {
      assert (a + b)[..|a + b| - 1] == a + b[..|b| - 1];
      RStripAppend(a, b[..|b| - 1]);
    }
  }

  lemma {:induction false} LStripSpaces(a: string, b: string)
    requires forall i :: 0 <= i < |a| ==> IsSpace(a[i])
    requires b != "" ==> !IsSpace(b[0])
    ensures LStrip(a + b) == b
  {
    if a == "" {
      assert a + b == b;
    } else {
      assert (a + b)[1..] == a[1..] + b;
      LStripSpaces(a[1..], b);
    }
  }

  // ----- finding in joined lines -----

  /** A pattern on one line that starts and ends with visible characters. */
  predicate LinePattern(pat: string) {
    pat != "" && '\n' !in pat && !IsSpace(pat[|pat| - 1])
  }

  lemma OccursMeans(s: string, pat: string, p: nat)
    ensures OccursAt(s, pat, p) <==> p + |pat| <= |s| && forall i :: 0 <= i < |pat| ==> s[p + i] == pat[i]
  {
    if p + |pat| <= |s| && forall i :: 0 <= i < |pat| ==> s[p + i] == pat[i] {
      assert s[p..p + |pat|] == pat;
    }
    if OccursAt(s, pat, p) {
      forall i | 0 <= i < |pat| ensures s[p + i] == pat[i] {
        assert s[p..p + |pat|][i] == pat[i];
      }
    }
  }

  /** An occurrence in two joined lines lies in one of them. */
  lemma OccursSplit(x: string, y: string, pat: string, p: nat)
    requires LinePattern(pat)
    ensures p <= |x| ==> (OccursAt(x + "\n" + y, pat, p) <==> OccursAt(x, pat, p))
    ensures p > |x| ==> (OccursAt(x + "\n" + y, pat, p) <==> OccursAt(y, pat, p - |x| - 1))
  {
    var s := x + "\n" + y;
    OccursMeans(s, pat, p);
    if p <= |x| {
      OccursMeans(x, pat, p);
      if p + |pat| > |x| {
        var k := |x| - p;
        assert pat[k] in pat;
        assert s[p + k] == '\n' && pat[k] != '\n';
      }
    } else {
      var q := p - |x| - 1;
      OccursMeans(y, pat, q);
      if q + |pat| <= |y| {
        assert s[p..p + |pat|] == y[q..q + |pat|];
      }
    }
  }

  function Shift(r: Option<nat>, n: nat): Option<nat> {
    if r.None? then None else Some(r.value + n)
  }

  function OrElse(a: Option<nat>, b: Option<nat>): Option<nat> {
    if a.Some? then a else b
  }

  /** Position r is the first occurrence, or there is none. */
  ghost predicate IsFirst(s: string, pat: string, r: Option<nat>) {
    && (r.Some? ==> OccursAt(s, pat, r.value) && forall k :: 0 <= k < r.value ==> !OccursAt(s, pat, k))
    && (r.None? ==> forall k: nat :: !OccursAt(s, pat, k))
  }

  lemma {:induction false} FindFromFacts(s: string, pat: string, from: nat)
    requires from <= |s| && forall k :: 0 <= k < from ==> !OccursAt(s, pat, k)
    ensures IsFirst(s, pat, FindFrom(s, pat, from))
    decreases |s| - from
  {
    if !OccursAt(s, pat, from) {
      if from < |s| {
        FindFromFacts(s, pat, from + 1);
      }
    }
  }

  lemma FindFacts(s: string, pat: string)
    ensures IsFirst(s, pat, Find(s, pat))
  {
    FindFromFacts(s, pat, 0);
  }

  lemma FindIs(s: string, pat: string, r: Option<nat>)
    requires IsFirst(s, pat, r)
    ensures Find(s, pat) == r
  {
    FindFacts(s, pat);
  }

  /** The first occurrence in joined lines: in the first line if there is one, else in the rest. */
  lemma FindSplit(x: string, y: string, pat: string)
    requires LinePattern(pat)
    ensures Find(x + "\n" + y, pat) == OrElse(Find(x, pat), Shift(Find(y, pat), |x| + 1))
  {
    var s, r := x + "\n" + y, OrElse(Find(x, pat), Shift(Find(y, pat), |x| + 1));
    FindFacts(x, pat);
    FindFacts(y, pat);
    hide Find, OccursAt;
    forall p: nat
      ensures p <= |x| ==> (OccursAt(s, pat, p) <==> OccursAt(x, pat, p))
      ensures p > |x| ==> (OccursAt(s, pat, p) <==> OccursAt(y, pat, p - |x| - 1))
    {
      OccursSplit(x, y, pat, p);
    }
    FindIs(s, pat, r);
  }

  /** An occurrence in the first line is found; without one, nothing is found before the second line. */
  lemma FindInFront(x: string, y: string, pat: string)
    requires LinePattern(pat)
    ensures Find(x, pat).Some? ==> Find(x + "\n" + y, pat) == Find(x, pat)
    ensures Find(x, pat).None? ==> Find(x + "\n" + y, pat) == Shift(Find(y, pat), |x| + 1)
  {
    hide Find;
    FindSplit(x, y, pat);
  }

  /** Without the first character of the pattern there is no occurrence. */
  lemma FindNone(s: string, pat: string)
    requires pat != "" && forall i :: 0 <= i < |s| ==> s[i] != pat[0]
    ensures Find(s, pat) == None
  {
    forall p: nat ensures !OccursAt(s, pat, p) {
      if p + |pat| <= |s| {
        assert s[p..p + |pat|][0] == s[p];
      }
    }
    FindIs(s, pat, None);
  }

  lemma FindSelf(pat: string)
    ensures Find(pat, pat) == Some(0)
  {
    assert pat[0..|pat|] == pat;
    FindIs(pat, pat, Some(0));
  }

  /** A prefix up to the first occurrence, or any shorter one, has none. */
  lemma FindInPrefix(s: string, pat: string, n: nat)
    requires pat != "" && n <= |s|
    requires Find(s, pat).Some? ==> n <= Find(s, pat).value
    ensures Find(s[..n], pat) == None
  {
    FindFacts(s, pat);
    hide Find;
    forall p: nat ensures !OccursAt(s[..n], pat, p) {
      if p + |pat| <= n {
        assert s[..n][p..p + |pat|] == s[p..p + |pat|];
      }
      assert OccursAt(s[..n], pat, p) ==> OccursAt(s, pat, p);
    }
    FindIs(s[..n], pat, None);
  }

  /** Trailing whitespace does not matter for a pattern that ends visibly. */
  lemma FindRStrip(s: string, pat: string)
    requires LinePattern(pat)
    ensures Find(RStrip(s), pat) == Find(s, pat)
  {
    RStripFacts(s);
    FindFacts(s, pat);
    hide Find, RStrip, IsSpace;
    var t := RStrip(s);
    forall p: nat ensures OccursAt(t, pat, p) <==> OccursAt(s, pat, p) {
      OccursMeans(s, pat, p);
      OccursMeans(t, pat, p);
      if OccursAt(s, pat, p) {
        assert s[p + (|pat| - 1)] == pat[|pat| - 1];
      }
    }
    FindIs(t, pat, Find(s, pat));
  }

  // ----- pieces of joined lines -----

  lemma {:induction false} PiecesOfLine(s: string)
    requires NoBreak(s)
    ensures Pieces(s) == [s]
  {
    if s != "" {
      PiecesOfLine(s[..|s| - 1]);
      assert s == s[..|s| - 1] + [s[|s| - 1]];
    }
  }

  /** A character at the end of a text joins its last piece or opens a new one. */
  function Extend(pieces: seq<string>, c: char): seq<string>
    requires pieces != []
  {
    var n := |pieces| - 1;
    if IsBreak(c) then pieces + [""] else pieces[..n] + [pieces[n] + [c]]
  }

  lemma PiecesSnoc(s: string, c: char)
    ensures Pieces(s + [c]) == Extend(Pieces(s), c)
  {
    assert (s + [c])[..|s|] == s;
  }

  lemma ExtendRight(a: seq<string>, b: seq<string>, c: char)
    requires b != []
    ensures Extend(a + b, c) == a + Extend(b, c)
  {
  }

  lemma {:induction false} PiecesSplit(x: string, y: string)
    ensures Pieces(x + "\n" + y) == Pieces(x) + Pieces(y)
    decreases |y|
  {
    hide Pieces, Extend;
    if y == "" {
      PiecesNewline(x);
      assert x + "\n" + y == x + ['\n'];
    } else {
      var init, c := y[..|y| - 1], y[|y| - 1];
      var before := x + "\n" + init;
      PiecesSplit(x, init);
      PiecesSnoc(before, c);
      PiecesSnoc(init, c);
      ExtendRight(Pieces(x), Pieces(init), c);
      assert y == init + [c];
      assert x + "\n" + y == before + [c];
    }
  }

  lemma PiecesNewline(x: string)
    ensures Pieces(x + ['\n']) == Pieces(x) + Pieces("")
  {
    PiecesSnoc(x, '\n');
  }
}
