/**
 * The operator logbook: numbered log files, a state file with the next serial, an automatic rule
 * that makes some logs reflective, and a validator.  A file is its serial, the rest of its name, and
 * its lines; the directory is listed in serial order.
 */
module Logbook {
  import opened Common

  type Text = seq<string>

  datatype Mode = Operational | Reflective | Auto

  /** `suffix` is what the file name has between `X_POST` and its extension. */
  datatype LogFile = LogFile(serial: nat, suffix: string, lines: Text)

  /** What the operator supplies: a title, or none for the default, and a possibly empty body. */
  datatype Copy = Copy(title: Option<Text>, body: Text)

  function Digits(n: nat): string {
    (if n < 10 then "" else Digits(n / 10)) + ["0123456789"[n % 10]]
  }

  function Zeros(n: nat): string {
    if n == 0 then "" else "0" + Zeros(n - 1)
  }

  function PadSerial(n: nat): string {
    var digits := Digits(n);
    if |digits| >= 4 then digits else Zeros(4 - |digits|) + digits
  }

  function Header(serial: nat): string {
    "KAMIYO Agent // operator log " + PadSerial(serial)
  }

  // ----- reading the directory -----

  /** The marker is a line of its own, neither the first nor the last. */
  predicate HasMarker(lines: Text) {
    exists i :: 0 < i < |lines| - 1 && Lower(lines[i]) == "reflection:"
  }

  predicate TagAt(suffix: string, i: nat) {
    i + 12 <= |suffix| && suffix[i..i + 12] == "_REFLECTIVE_"
  }

  predicate IsReflective(f: LogFile) {
    (exists i :: 0 <= i < |f.suffix| && TagAt(f.suffix, i)) || HasMarker(f.lines)
  }

  /** File names hold four digits; later serials no longer match the name pattern. */
  const LAST_VISIBLE: nat := 9999

  function LoadLogFiles(dir: seq<LogFile>): seq<LogFile> {
    if dir == [] then []
    else LoadLogFiles(dir[..|dir| - 1])
         + if dir[|dir| - 1].serial <= LAST_VISIBLE then [dir[|dir| - 1]] else []
  }

  function LastReflective(history: seq<LogFile>): Option<nat> {
    if history == [] then None
    else
      var entry := history[|history| - 1];
      if IsReflective(entry) then Some(entry.serial) else LastReflective(history[..|history| - 1])
  }

  function ResolveNextSerial(history: seq<LogFile>, stored: Option<nat>): nat {
    if stored.Some? && stored.value > 0 then stored.value
    else if history == [] then 1
    else history[|history| - 1].serial + 1
  }

  /** The automatic rule. */
  predicate Due(serial: nat, last: Option<nat>) {
    var gap: int := if last.None? then serial else serial - last.value;
    gap >= 8 || (serial % 7 == 0 && gap >= 5)
  }

  function ResolveMode(mode: Mode, serial: nat, history: seq<LogFile>): Mode {
    if mode != Auto then mode
    else if Due(serial, LastReflective(history)) then Reflective else Operational
  }

  // ----- writing a log -----

  function TitleFor(mode: Mode, title: Option<Text>): Text {
    if title.Some? then title.value
    else if mode == Reflective then ["Continuity check: observation and intent."]
    else ["Operational update."]
  }

  /** The rest of the two templates; sentences of running text stand as "...". */
  const REFLECTIVE_TAIL: Text :=
    ["Observed state:", "- ", "", "Reflection:", "...", "...", "...", "", "Next: ...", "", "...", ""]

  const OPERATIONAL_TAIL: Text :=
    ["State:", "- ", "", "Evidence:", "- ", "", "Next:", "- ", "", "...", ""]

  /** Title and body, each followed by a blank line. */
  function Middle(title: Text, body: Text): Text {
    title + [""] + (if body == [] then [] else body + [""])
  }

  function BuildContent(serial: nat, mode: Mode, title: Text, body: Text): Text {
    [Header(serial), ""] + Middle(title, body)
    + if mode == Reflective then REFLECTIVE_TAIL else OPERATIONAL_TAIL
  }

  function NewFile(serial: nat, mode: Mode, copy: Copy): LogFile {
    LogFile(serial, if mode == Reflective then "_REFLECTIVE" else "",
            BuildContent(serial, mode, TitleFor(mode, copy.title), copy.body))
  }

  predicate SameName(f: LogFile, g: LogFile) {
    f.serial == g.serial && f.suffix == g.suffix
  }

  /** Writes a file: it replaces the file of its name, or takes its place in the serial order. */
  function Write(dir: seq<LogFile>, f: LogFile): seq<LogFile> {
    if dir == [] then [f]
    else
      var init, last := dir[..|dir| - 1], dir[|dir| - 1];
      if SameName(last, f) then init + [f]
      else if last.serial < f.serial then dir + [f]
      else Write(init, f) + [last]
  }

  datatype Book = Book(dir: seq<LogFile>, stored: Option<nat>)

  function NextSerial(b: Book): nat {
    ResolveNextSerial(LoadLogFiles(b.dir), b.stored)
  }

  function ModeOf(b: Book, mode: Mode): Mode {
    ResolveMode(mode, NextSerial(b), LoadLogFiles(b.dir))
  }

  function Create(b: Book, mode: Mode, copy: Copy): Book {
    Book(Write(b.dir, NewFile(NextSerial(b), ModeOf(b, mode), copy)), Some(NextSerial(b) + 1))
  }

  datatype Issue = SerialGap(expected: nat, got: nat) | InvalidHeader(serial: nat)

  function GapIssues(history: seq<LogFile>): seq<Issue> {
    if history == [] then []
    else
      var n := |history| - 1;
      GapIssues(history[..n])
      + if history[n].serial != history[0].serial + n then [SerialGap(history[0].serial + n, history[n].serial)] else []
  }

  function FirstLine(f: LogFile): string {
    if f.lines == [] then "" else f.lines[0]
  }

  function HeaderIssues(history: seq<LogFile>): seq<Issue> {
    if history == [] then []
    else
      var n := |history| - 1;
      HeaderIssues(history[..n])
      + if FirstLine(history[n]) != Header(history[n].serial) then [InvalidHeader(history[n].serial)] else []
  }

  class Store {
    var dir: seq<LogFile>
    var stored: Option<nat>

    function Contents(): Book
      reads this
    {
      Book(dir, stored)
    }

    constructor ()
      ensures Contents() == Book([], None)
    {
      dir, stored := [], None;
    }

    method CreateNewLog(mode: Mode, copy: Copy, dryRun: bool) returns (file: LogFile)
      modifies this
      ensures file == NewFile(NextSerial(old(Contents())), ModeOf(old(Contents()), mode), copy)
      ensures Contents() == if dryRun then old(Contents()) else Create(old(Contents()), mode, copy)
    {
      var history := LoadLogFiles(dir);
      var serial := ResolveNextSerial(history, stored);
      var resolved := ResolveMode(mode, serial, history);
      file := NewFile(serial, resolved, copy);
      if dryRun { return; }
      dir := Write(dir, file);
      stored := Some(serial + 1);
    }

    method CheckSerials(history: seq<LogFile>) returns (issues: seq<Issue>)
      ensures issues == GapIssues(history)
    {
      issues := [];
      for i := 0 to |history|
        invariant issues == GapIssues(history[..i])
      {
        assert history[..i + 1][..i] == history[..i];
        var expected := history[0].serial + i;
        if history[i].serial != expected {
          issues := issues + [SerialGap(expected, history[i].serial)];
        }
      }
      assert history[..|history|] == history;
    }

    method CheckHeaders(history: seq<LogFile>) returns (issues: seq<Issue>)
      ensures issues == HeaderIssues(history)
    {
      issues := [];
      for i := 0 to |history|
        invariant issues == HeaderIssues(history[..i])
      {
        assert history[..i + 1][..i] == history[..i];
        if FirstLine(history[i]) != Header(history[i].serial) {
          issues := issues + [InvalidHeader(history[i].serial)];
        }
      }
      assert history[..|history|] == history;
    }

    method ValidateLogs() returns (issues: seq<Issue>)
      ensures issues == GapIssues(LoadLogFiles(dir)) + HeaderIssues(LoadLogFiles(dir))
    {
      var history := LoadLogFiles(dir);
      issues := CheckSerials(history);
      var headers := CheckHeaders(history);
      issues := issues + headers;
    }
  }

  // ----- what writing does to the directory -----

  ghost predicate Ordered(dir: seq<LogFile>) {
    forall i, j :: 0 <= i < j < |dir| ==> dir[i].serial <= dir[j].serial && !SameName(dir[i], dir[j])
  }

  /** `last` may stand behind all of these files. */
  ghost predicate Closes(dir: seq<LogFile>, last: LogFile) {
    forall g <- dir :: g.serial <= last.serial && !SameName(g, last)
  }

  lemma OrderedSnoc(dir: seq<LogFile>, last: LogFile)
    ensures Ordered(dir + [last]) <==> Ordered(dir) && Closes(dir, last)
  {
    var all := dir + [last];
    if Ordered(all) {
      assert forall i :: 0 <= i < |dir| ==> dir[i] == all[i];
      forall g | g in dir ensures g.serial <= last.serial && !SameName(g, last) {
        var i :| 0 <= i < |dir| && dir[i] == g;
        assert all[i] == g && all[|dir|] == last;
      }
    }
    if Ordered(dir) && Closes(dir, last) {
      forall i, j | 0 <= i < j < |all| ensures all[i].serial <= all[j].serial && !SameName(all[i], all[j]) {
        assert all[i] == dir[i] && dir[i] in dir;
        assert j < |dir| ==> all[j] == dir[j];
      }
    }
  }

  /** `result` is in order and holds f and the files of other names, and no others. */
  ghost predicate Placed(dir: seq<LogFile>, f: LogFile, result: seq<LogFile>) {
    && Ordered(result)
    && forall g :: g in result <==> g == f || (g in dir && !SameName(g, f))
  }

  lemma PlacedAlone(f: LogFile)
    ensures Placed([], f, [f])
  {
  }

  lemma PlacedOverLast(init: seq<LogFile>, last: LogFile, f: LogFile)
    requires Ordered(init) && Closes(init, last) && SameName(last, f)
    ensures Placed(init + [last], f, init + [f])
  {
    OrderedSnoc(init, f);
    hide Ordered;
  }

  lemma PlacedBehind(init: seq<LogFile>, last: LogFile, f: LogFile)
    requires Ordered(init) && Closes(init, last) && last.serial < f.serial
    ensures Placed(init + [last], f, init + [last] + [f])
  {
    OrderedSnoc(init, last);
    OrderedSnoc(init + [last], f);
    hide Ordered;
  }

  lemma PlacedBefore(init: seq<LogFile>, last: LogFile, f: LogFile, result: seq<LogFile>)
    requires Closes(init, last) && !SameName(last, f) && f.serial <= last.serial
    requires Placed(init, f, result)
    ensures Placed(init + [last], f, result + [last])
  {
    OrderedSnoc(result, last);
    hide Ordered;
  }

  lemma WriteSnoc(init: seq<LogFile>, last: LogFile, f: LogFile)
    ensures Write(init + [last], f)
         == if SameName(last, f) then init + [f]
            else if last.serial < f.serial then init + [last] + [f]
            else Write(init, f) + [last]
  {
    assert (init + [last])[..|init|] == init;
  }

  lemma {:induction false} WritePlaces(dir: seq<LogFile>, f: LogFile)
    requires Ordered(dir)
    ensures Placed(dir, f, Write(dir, f))
    decreases |dir|
  {
    if dir == [] {
      PlacedAlone(f);
    } else {
      var init, last := dir[..|dir| - 1], dir[|dir| - 1];
      hide Ordered, Closes, Placed, Write, SameName;
      assert dir == init + [last];
      OrderedSnoc(init, last);
      WriteSnoc(init, last, f);
      if SameName(last, f) {
        PlacedOverLast(init, last, f);
      } else if last.serial < f.serial {
        PlacedBehind(init, last, f);
      } else {
        WritePlaces(init, f);
        PlacedBefore(init, last, f, Write(init, f));
      }
    }
  }

  /** Writing keeps the order, adds the file, and takes away the file of the same name and no other. */
  lemma WriteFacts(dir: seq<LogFile>, f: LogFile)
    requires Ordered(dir)
    ensures Ordered(Write(dir, f))
    ensures forall g :: g in Write(dir, f) <==> g == f || (g in dir && !SameName(g, f))
  {
    WritePlaces(dir, f);
    hide Ordered, Write;
  }

  // ----- what a new log looks like to the reader -----

  predicate MarkerLine(line: string) {
    Lower(line) == "reflection:"
  }

  predicate Clean(copy: Copy) {
    && (forall line <- copy.body :: !MarkerLine(line))
    && (copy.title.Some? ==> forall line <- copy.title.value :: !MarkerLine(line))
  }

  lemma TailMarkers()
    ensures MarkerLine(REFLECTIVE_TAIL[3])
    ensures forall line <- OPERATIONAL_TAIL :: !MarkerLine(line)
    ensures !MarkerLine("") && !MarkerLine("Operational update.")
    ensures !MarkerLine("Continuity check: observation and intent.")
  {
    assert Lower("Reflection:") == "reflection:";
    forall line <- OPERATIONAL_TAIL ensures !MarkerLine(line) {
      if |line| == 11 { assert false; }
    }
  }

  ghost predicate SomeMarker(lines: Text) {
    exists line <- lines :: MarkerLine(line)
  }

  /** Between a header with a blank line and a non-empty tail, only the middle can add the marker. */
  lemma MarkerInMiddle(header: string, middle: Text, tail: Text)
    requires tail != [] && !MarkerLine("") && (forall line <- tail :: !MarkerLine(line))
    ensures HasMarker([header, ""] + middle + tail) <==> SomeMarker(middle)
  {
    var lines := [header, ""] + middle + tail;
    forall i | 0 < i < |lines| - 1 && MarkerLine(lines[i]) ensures SomeMarker(middle) {
      if 2 <= i < 2 + |middle| {
        assert lines[i] == middle[i - 2] && lines[i] in middle;
      }
    }
    if SomeMarker(middle) {
      var k :| 0 <= k < |middle| && MarkerLine(middle[k]);
      assert lines[2 + k] == middle[k];
    }
  }

  lemma MarkerInTail(header: string, middle: Text, tail: Text, k: nat)
    requires k < |tail| - 1 && MarkerLine(tail[k])
    ensures HasMarker([header, ""] + middle + tail)
  {
    var lines := [header, ""] + middle + tail;
    assert lines[2 + |middle| + k] == tail[k];
  }

  lemma MiddleMarkers(mode: Mode, copy: Copy)
    ensures SomeMarker(Middle(TitleFor(mode, copy.title), copy.body)) <==> !Clean(copy)
  {
    TailMarkers();
    var title := TitleFor(mode, copy.title);
    var middle := Middle(title, copy.body);
    assert forall line :: line in middle <==> line in title || line in copy.body || line == "";
  }

  /**
   * A reflective log is always recognised.  An operational log is taken for reflective exactly when
   * its own title or body has the marker line.
   */
  lemma RecognisedAs(serial: nat, mode: Mode, copy: Copy)
    requires mode != Auto
    ensures IsReflective(NewFile(serial, mode, copy)) <==> mode == Reflective || !Clean(copy)
  {
    var middle := Middle(TitleFor(mode, copy.title), copy.body);
    var tail := if mode == Reflective then REFLECTIVE_TAIL else OPERATIONAL_TAIL;
    assert NewFile(serial, mode, copy).lines == [Header(serial), ""] + middle + tail;
    TailMarkers();
    if mode == Reflective {
      MarkerInTail(Header(serial), middle, tail, 3);
    } else {
      MarkerInMiddle(Header(serial), middle, tail);
      MiddleMarkers(mode, copy);
    }
  }
}
