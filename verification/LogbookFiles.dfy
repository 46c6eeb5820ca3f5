/** The files of the operator logbook line by line: names, numbers, layout, and what the validator lists. */
module LogbookFiles {
  import opened Common
  import opened Logbook

  // ----- the number in a header -----

  predicate IsDigit(c: char) {
    '0' <= c <= '9'
  }

  /** The number that a row of digits spells. */
  function Spelled(s: string): int {
    if s == "" then 0 else 10 * Spelled(s[..|s| - 1]) + s[|s| - 1] as int - '0' as int
  }

  lemma SpelledSnoc(s: string, c: char)
    ensures Spelled(s + [c]) == 10 * Spelled(s) + (c as int - '0' as int)
  {
    assert (s + [c])[..|s|] == s;
  }

  lemma {:induction false} DigitsSpell(n: nat)
    ensures Spelled(Digits(n)) == n && Digits(n) != ""
    ensures forall i :: 0 <= i < |Digits(n)| ==> IsDigit(Digits(n)[i])
    ensures n >= 1 ==> Digits(n)[0] != '0'
    decreases n
  {
    var init, last := if n < 10 then "" else Digits(n / 10), "0123456789"[n % 10];
    LastDigit(n % 10);
    assert Digits(n) == init + [last];
    assert Spelled("") == 0;
    if n >= 10 {
      DigitsSpell(n / 10);
    }
    hide Spelled, Digits, IsDigit;
    SpelledSnoc(init, last);
  }

  lemma LastDigit(d: nat)
    requires d < 10
    ensures var c := "0123456789"[d]; IsDigit(c) && c as int - '0' as int == d && (d > 0 ==> c != '0')
  {
  }

  lemma {:induction false} ZerosSpell(k: nat, s: string)
    ensures |Zeros(k)| == k && Spelled(Zeros(k) + s) == Spelled(s)
    ensures forall i :: 0 <= i < k ==> Zeros(k)[i] == '0'
    decreases k, |s|
  {
    if s == "" {
      assert Zeros(k) + s == Zeros(k);
      if k > 0 {
        ZerosSpell(k - 1, "");
        assert Zeros(k - 1) + "" == Zeros(k - 1);
        ZerosSnoc(k - 1);
        assert Zeros(k)[..k - 1] == Zeros(k - 1);
      }
    } else {
      ZerosSpell(k, s[..|s| - 1]);
      assert (Zeros(k) + s)[..k + |s| - 1] == Zeros(k) + s[..|s| - 1];
    }
  }

  lemma {:induction false} ZerosSnoc(k: nat)
    ensures Zeros(k + 1) == Zeros(k) + "0"
  {
    if k > 0 {
      ZerosSnoc(k - 1);
      assert "0" + (Zeros(k - 1) + "0") == ("0" + Zeros(k - 1)) + "0";
    }
  }

  lemma Padded(k: nat, s: string)
    requires forall i :: 0 <= i < |s| ==> IsDigit(s[i])
    ensures Spelled(Zeros(k) + s) == Spelled(s) && |Zeros(k) + s| == k + |s|
    ensures forall i :: 0 <= i < k + |s| ==> IsDigit((Zeros(k) + s)[i])
  {
    ZerosSpell(k, s);
    hide Spelled, Zeros;
  }

  /** A row of at least four digits, without a leading zero when it is longer, that spells n. */
  predicate Serial(s: string, n: nat) {
    Spelled(s) == n && |s| >= 4 && (forall i :: 0 <= i < |s| ==> IsDigit(s[i])) && (|s| > 4 ==> s[0] != '0')
  }

  lemma LongSerial(n: nat)
    requires |Digits(n)| >= 4
    ensures Serial(Digits(n), n)
  {
    DigitsSpell(n);
    assert n == 0 ==> |Digits(n)| == 1;
    hide Spelled, Digits, IsDigit;
  }

  lemma ShortSerial(n: nat)
    requires |Digits(n)| < 4
    ensures Serial(Zeros(4 - |Digits(n)|) + Digits(n), n)
  {
    DigitsSpell(n);
    hide Spelled, Digits, IsDigit, Zeros;
    Padded(4 - |Digits(n)|, Digits(n));
  }

  /** Four digits at least, padded with zeros; they spell the serial, and longer ones start without a zero. */
  lemma PadSerialSpells(n: nat)
    ensures
      var s := PadSerial(n);
      && Spelled(s) == n && |s| >= 4 && (forall i :: 0 <= i < |s| ==> IsDigit(s[i]))
      && (|s| > 4 ==> s[0] != '0')
  {
    if |Digits(n)| < 4 {
      ShortSerial(n);
    } else {
      LongSerial(n);
    }
    hide Spelled, Digits, IsDigit, Zeros;
  }

  /** Different serials have different headers, and each names its serial. */
  lemma HeaderNames(m: nat, n: nat)
    ensures Header(n) == "KAMIYO Agent // operator log " + PadSerial(n)
    ensures Header(m) == Header(n) ==> m == n
  {
    PadSerialSpells(m);
    PadSerialSpells(n);
    hide PadSerial;
    var prefix := "KAMIYO Agent // operator log ";
    if Header(m) == Header(n) {
      assert PadSerial(m) == Header(m)[|prefix|..] && PadSerial(n) == Header(n)[|prefix|..];
    }
  }

  // ----- the layout of a new file -----

  /** The lines from position k on start with these. */
  predicate HasAt(lines: Text, k: nat, part: Text) {
    k + |part| <= |lines| && lines[k..k + |part|] == part
  }

  /** How the template starts below title and body. */
  function TemplateStart(mode: Mode): Text {
    if mode == Reflective then ["Observed state:", "- ", "", "Reflection:"]
    else ["State:", "- ", "", "Evidence:", "- ", "", "Next:", "- "]
  }

  function TitleOf(mode: Mode, copy: Copy): Text {
    if copy.title.Some? then copy.title.value
    else if mode == Reflective then ["Continuity check: observation and intent."]
    else ["Operational update."]
  }

  /** Header, blank line, title, blank line, the body with a blank line if there is one, the template. */
  ghost predicate LaidOut(lines: Text, serial: nat, mode: Mode, copy: Copy) {
    var title := TitleOf(mode, copy);
    var k := 3 + |title|;
    var rest := if copy.body == [] then k else k + |copy.body| + 1;
    && HasAt(lines, 0, ["KAMIYO Agent // operator log " + PadSerial(serial), ""])
    && HasAt(lines, 2, title + [""])
    && (copy.body != [] ==> HasAt(lines, k, copy.body + [""]))
    && HasAt(lines, rest, TemplateStart(mode))
    && |lines| == rest + if mode == Reflective then 12 else 11
  }

  /** The name and the lines of a new file. */
  lemma Layout(serial: nat, mode: Mode, copy: Copy)
    requires mode != Auto
    ensures
      var f := NewFile(serial, mode, copy);
      && f.serial == serial && f.suffix == (if mode == Reflective then "_REFLECTIVE" else "")
      && LaidOut(f.lines, serial, mode, copy)
  {
    NewFileParts(serial, mode, copy);
    hide *;
    PartsLaidOut(serial, mode, copy);
  }

  lemma PartsLaidOut(serial: nat, mode: Mode, copy: Copy)
    ensures
      LaidOut([Header(serial), ""] + (TitleOf(mode, copy) + [""] + BodyPart(copy)) + TailOf(mode), serial, mode, copy)
  {
    TemplateStarts(mode);
    HeaderNames(serial, serial);
    BodyPartMeans(copy);
    var a := ["KAMIYO Agent // operator log " + PadSerial(serial), ""];
    hide PadSerial, Header, TitleOf, HasAt, TailOf, TemplateStart, BodyPart;
    Four(a, TitleOf(mode, copy) + [""], BodyPart(copy), TailOf(mode), TemplateStart(mode));
  }

  lemma BodyPartMeans(copy: Copy)
    ensures copy.body == [] ==> BodyPart(copy) == []
    ensures copy.body != [] ==> BodyPart(copy) == copy.body + [""]
  {
  }

  function BodyPart(copy: Copy): Text {
    if copy.body == [] then [] else copy.body + [""]
  }

  function TailOf(mode: Mode): Text {
    if mode == Reflective then REFLECTIVE_TAIL else OPERATIONAL_TAIL
  }

  lemma NewFileParts(serial: nat, mode: Mode, copy: Copy)
    requires mode != Auto
    ensures
      var f := NewFile(serial, mode, copy);
      && f.serial == serial && f.suffix == (if mode == Reflective then "_REFLECTIVE" else "")
      && f.lines == [Header(serial), ""] + (TitleOf(mode, copy) + [""] + BodyPart(copy)) + TailOf(mode)
  {
    hide Header, REFLECTIVE_TAIL, OPERATIONAL_TAIL;
  }

  lemma TemplateStarts(mode: Mode)
    ensures
      HasAt(TailOf(mode), 0, TemplateStart(mode)) && |TailOf(mode)| == if mode == Reflective then 12 else 11
  {
  }

  lemma Four(a: Text, b: Text, c: Text, d: Text, part: Text)
    requires HasAt(d, 0, part)
    ensures
      var s := a + (b + c) + d;
      && HasAt(s, 0, a) && HasAt(s, |a|, b) && HasAt(s, |a| + |b|, c)
      && HasAt(s, |a| + |b| + |c|, part) && |s| == |a| + |b| + |c| + |d|
  {
    var s, k := a + (b + c) + d, |a| + |b| + |c|;
    assert s[k..k + |part|] == d[0..|part|];
  }

  // ----- what the reader sees -----

  /** The last file whose name the reader recognises. */
  ghost predicate LastVisibleAt(dir: seq<LogFile>, i: nat) {
    i < |dir| && dir[i].serial <= 9999 && forall j :: i < j < |dir| ==> dir[j].serial > 9999
  }

  ghost predicate NoneVisible(dir: seq<LogFile>) {
    forall j :: 0 <= j < |dir| ==> dir[j].serial > 9999
  }

  /** The next serial: the stored one when it is positive, else one more than the last visible one, or one. */
  lemma NextSerialExactly(b: Book, i: nat)
    ensures b.stored.Some? && b.stored.value > 0 ==> NextSerial(b) == b.stored.value
    ensures (b.stored.None? || b.stored.value == 0) && NoneVisible(b.dir) ==> NextSerial(b) == 1
    ensures (b.stored.None? || b.stored.value == 0) && LastVisibleAt(b.dir, i) ==>
              NextSerial(b) == b.dir[i].serial + 1
  {
    if NoneVisible(b.dir) {
      NothingVisible(b.dir);
    } else if LastVisibleAt(b.dir, i) {
      LastVisible(b.dir, i);
    }
    hide LoadLogFiles;
  }

  lemma {:induction false} NothingVisible(dir: seq<LogFile>)
    requires NoneVisible(dir)
    ensures LoadLogFiles(dir) == []
  {
    if dir != [] {
      NothingVisible(dir[..|dir| - 1]);
    }
  }

  lemma {:induction false} LastVisible(dir: seq<LogFile>, i: nat)
    requires LastVisibleAt(dir, i)
    ensures var seen := LoadLogFiles(dir); seen != [] && seen[|seen| - 1] == dir[i]
    decreases |dir|
  {
    if i < |dir| - 1 {
      LastVisible(dir[..|dir| - 1], i);
    }
  }

  /** The last reflective file among those seen. */
  ghost predicate LastReflectiveAt(history: seq<LogFile>, i: nat) {
    i < |history| && IsReflective(history[i]) && forall j :: i < j < |history| ==> !IsReflective(history[j])
  }

  lemma {:induction false} LastReflectiveExactly(history: seq<LogFile>, i: nat)
    ensures LastReflectiveAt(history, i) ==> LastReflective(history) == Some(history[i].serial)
    ensures (forall j :: 0 <= j < |history| ==> !IsReflective(history[j])) <==> LastReflective(history) == None
    decreases |history|
  {
    hide IsReflective;
    if history != [] {
      var init := history[..|history| - 1];
      LastReflectiveExactly(init, i);
      assert forall j :: 0 <= j < |init| ==> init[j] == history[j];
    }
  }

  /**
   * A requested mode is taken; the automatic one is reflective eight serials after the last reflective
   * log, or after the start, and on multiples of seven from five serials on.
   */
  lemma ModeExactly(b: Book, i: nat)
    ensures ModeOf(b, Operational) == Operational && ModeOf(b, Reflective) == Reflective
    ensures ModeOf(b, Auto) != Auto
    ensures
      var seen, n := LoadLogFiles(b.dir), NextSerial(b);
      && (LastReflectiveAt(seen, i) ==>
            (ModeOf(b, Auto) == Reflective <==>
               n - seen[i].serial >= 8 || (n % 7 == 0 && n - seen[i].serial >= 5)))
      && ((forall j :: 0 <= j < |seen| ==> !IsReflective(seen[j])) ==>
            (ModeOf(b, Auto) == Reflective <==> n >= 8 || n == 7))
  {
    LastReflectiveExactly(LoadLogFiles(b.dir), i);
    hide LoadLogFiles, LastReflective, IsReflective, NextSerial;
  }

  /** A file whose name has the tag, or with the marker on a line of its own inside, is reflective. */
  lemma ReflectiveExactly(f: LogFile, before: string, after: string)
    ensures f.suffix == before + "_REFLECTIVE_" + after ==> IsReflective(f)
    ensures (exists i :: 0 < i < |f.lines| - 1 && Lower(f.lines[i]) == "reflection:") ==> IsReflective(f)
    ensures |f.suffix| < 12 && (forall i :: 0 < i < |f.lines| - 1 ==> Lower(f.lines[i]) != "reflection:") ==>
              !IsReflective(f)
  {
    if f.suffix == before + "_REFLECTIVE_" + after {
      assert f.suffix[|before|..|before| + 12] == "_REFLECTIVE_";
      assert TagAt(f.suffix, |before|);
    }
  }

  // ----- what the validator lists -----

  lemma NoPositions()
    ensures Increasing([], 0)
  {
  }

  predicate OutOfSequence(history: seq<LogFile>, i: nat) {
    i < |history| && history[i].serial != history[0].serial + i
  }

  function Misplaced(history: seq<LogFile>, n: nat): seq<nat> {
    if n == 0 then []
    else if OutOfSequence(history, n - 1) then Misplaced(history, n - 1) + [n - 1]
    else Misplaced(history, n - 1)
  }

  lemma {:induction false} MisplacedFacts(history: seq<LogFile>, n: nat)
    ensures Increasing(Misplaced(history, n), n)
    ensures forall i: nat :: i in Misplaced(history, n) <==> i < n && OutOfSequence(history, i)
  {
    hide OutOfSequence, Increasing;
    if n > 0 {
      MisplacedFacts(history, n - 1);
      IncreasingSnoc(Misplaced(history, n - 1), n - 1);
    } else {
      NoPositions();
    }
  }

  lemma GapIssuesSnoc(history: seq<LogFile>, n: nat)
    requires 0 < n <= |history|
    ensures
      GapIssues(history[..n])
      == if OutOfSequence(history, n - 1)
         then GapIssues(history[..n - 1]) + [SerialGap(history[0].serial + n - 1, history[n - 1].serial)]
         else GapIssues(history[..n - 1])
  {
    assert history[..n][..n - 1] == history[..n - 1];
  }

  lemma {:induction false} GapIssuesList(history: seq<LogFile>, n: nat)
    requires n <= |history|
    ensures |GapIssues(history[..n])| == |Misplaced(history, n)|
    ensures forall k :: 0 <= k < |Misplaced(history, n)| ==>
      var i := Misplaced(history, n)[k];
      i < |history| && GapIssues(history[..n])[k] == SerialGap(history[0].serial + i, history[i].serial)
  {
    if n == 0 {
      assert history[..0] == [];
    } else {
      GapIssuesSnoc(history, n);
      hide GapIssues, OutOfSequence;
      GapIssuesList(history, n - 1);
    }
  }

  /** The serial issues: one for each file out of sequence, in order, with the expected and the found serial. */
  lemma GapsExactly(history: seq<LogFile>) returns (q: seq<nat>)
    ensures Increasing(q, |history|) && |GapIssues(history)| == |q|
    ensures forall i: nat :: i in q <==> i < |history| && history[i].serial != history[0].serial + i
    ensures forall k :: 0 <= k < |q| ==>
      GapIssues(history)[k] == SerialGap(history[0].serial + q[k], history[q[k]].serial)
  {
    GapIssuesList(history, |history|);
    MisplacedFacts(history, |history|);
    q := Misplaced(history, |history|);
    assert history[..|history|] == history;
    hide GapIssues, Misplaced, Increasing;
  }

  lemma HeaderNotEmpty(serial: nat)
    ensures Header(serial) != ""
  {
    hide PadSerial;
    assert Header(serial)[0] == 'K';
  }

  predicate WrongHeader(history: seq<LogFile>, i: nat) {
    i < |history| && (history[i].lines == [] || history[i].lines[0] != Header(history[i].serial))
  }

  function Mislabelled(history: seq<LogFile>, n: nat): seq<nat> {
    if n == 0 then []
    else if WrongHeader(history, n - 1) then Mislabelled(history, n - 1) + [n - 1]
    else Mislabelled(history, n - 1)
  }

  lemma {:induction false} MislabelledFacts(history: seq<LogFile>, n: nat)
    ensures Increasing(Mislabelled(history, n), n)
    ensures forall i: nat :: i in Mislabelled(history, n) <==> i < n && WrongHeader(history, i)
  {
    hide WrongHeader, Increasing;
    if n > 0 {
      MislabelledFacts(history, n - 1);
      IncreasingSnoc(Mislabelled(history, n - 1), n - 1);
    } else {
      NoPositions();
    }
  }

  lemma HeaderIssuesSnoc(history: seq<LogFile>, n: nat)
    requires 0 < n <= |history|
    ensures
      HeaderIssues(history[..n])
      == if WrongHeader(history, n - 1) then HeaderIssues(history[..n - 1]) + [InvalidHeader(history[n - 1].serial)]
         else HeaderIssues(history[..n - 1])
  {
    HeaderNotEmpty(history[n - 1].serial);
    hide Header;
    assert history[..n][..n - 1] == history[..n - 1];
  }

  /** The issues name the files at these positions. */
  ghost predicate Lists(history: seq<LogFile>, issues: seq<Issue>, q: seq<nat>) {
    && |issues| == |q|
    && forall k :: 0 <= k < |q| ==> q[k] < |history| && issues[k] == InvalidHeader(history[q[k]].serial)
  }

  lemma ListsSnoc(history: seq<LogFile>, issues: seq<Issue>, q: seq<nat>, i: nat)
    requires Lists(history, issues, q) && i < |history|
    ensures Lists(history, issues + [InvalidHeader(history[i].serial)], q + [i])
  {
  }

  lemma {:induction false} HeaderIssuesList(history: seq<LogFile>, n: nat)
    requires n <= |history|
    ensures Lists(history, HeaderIssues(history[..n]), Mislabelled(history, n))
  {
    if n == 0 {
      assert history[..0] == [];
    } else {
      HeaderIssuesSnoc(history, n);
      hide HeaderIssues, WrongHeader, Lists, Header;
      HeaderIssuesList(history, n - 1);
      ListsSnoc(history, HeaderIssues(history[..n - 1]), Mislabelled(history, n - 1), n - 1);
    }
  }

  /** The header issues: one for each file whose first line is not the header of its serial, in order. */
  lemma HeadersExactly(history: seq<LogFile>) returns (q: seq<nat>)
    ensures Increasing(q, |history|) && |HeaderIssues(history)| == |q|
    ensures forall i: nat :: i in q <==>
              i < |history| && (history[i].lines == [] || history[i].lines[0] != Header(history[i].serial))
    ensures forall k :: 0 <= k < |q| ==> HeaderIssues(history)[k] == InvalidHeader(history[q[k]].serial)
  {
    HeaderIssuesList(history, |history|);
    MislabelledFacts(history, |history|);
    q := Mislabelled(history, |history|);
    assert history[..|history|] == history;
    hide HeaderIssues, Mislabelled, Increasing, Header;
  }
}
