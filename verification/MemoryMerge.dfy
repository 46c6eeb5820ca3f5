/**
 * One run of the memory extractor: the facts of the block are cleaned and deduplicated by signature,
 * new candidates are appended unless their signature is known, the oldest facts fall off the front,
 * and block and state file are rewritten.  The signature (a hash of the normalised text) is a parameter.
 */
module MemoryMerge {
  import opened Common
  import opened TextTools
  import opened MemoryBlock

  // ----- cleaning one fact -----

  /** Runs of whitespace become one space. */
  function Collapse(s: string): string {
    if s == "" then ""
    else if !IsSpace(s[0]) then [s[0]] + Collapse(s[1..])
    else if |s| > 1 && IsSpace(s[1]) then Collapse(s[1..])
    else " " + Collapse(s[1..])
  }

  predicate IsBullet(c: char) {
    c == '-' || c == '*'
  }

  function DropBullets(s: string): string {
    if s != "" && IsBullet(s[0]) then DropBullets(s[1..]) else s
  }

  /** One leading run of bullets goes, with the whitespace after it. */
  function StripBullets(s: string): string {
    if s != "" && IsBullet(s[0]) then LStrip(DropBullets(s)) else s
  }

  predicate Placeholder(s: string) {
    var t := Lower(s);
    || Contains(t, "todo") || Contains(t, "tbd") || Contains(t, "replace me")
    || Contains(t, "<fill") || Contains(t, "[fill")
  }

  predicate Rejected(t: string) {
    t == "" || Placeholder(t) || |t| < 12 || (t[0] == '(' && t[|t| - 1] == ')')
  }

  /** The cleaned fact, or the empty string when it is to be ignored. */
  function Sanitize(raw: string): string {
    var text := StripBullets(Collapse(Strip(raw)));
    if Rejected(text) then "" else text
  }

  // ----- the merge -----

  type Signature = string -> string

  function Sigs(sig: Signature, items: seq<Fact>): set<string> {
    set f | f in items :: sig(f.text)
  }

  /** The facts already in the block: cleaned, and the first of each signature. */
  function Existing(sig: Signature, parsed: seq<Fact>): seq<Fact> {
    if parsed == [] then []
    else
      var before, f := Existing(sig, parsed[..|parsed| - 1]), parsed[|parsed| - 1];
      var text := Sanitize(f.text);
      if text == "" || sig(text) in Sigs(sig, before) then before else before + [Fact(Strip(f.date), text)]
  }

  /** Appends the candidates whose signature is not known yet. */
  function AppendNew(sig: Signature, items: seq<Fact>, known: set<string>, cands: seq<string>, date: string): seq<Fact>
    decreases |cands|
  {
    if cands == [] then items
    else if sig(cands[0]) in known then AppendNew(sig, items, known, cands[1..], date)
    else AppendNew(sig, items + [Fact(date, cands[0])], known + {sig(cands[0])}, cands[1..], date)
  }

  function Merge(sig: Signature, parsed: seq<Fact>, known: set<string>, cands: seq<string>, date: string): seq<Fact> {
    var existing := Existing(sig, parsed);
    AppendNew(sig, existing, known + Sigs(sig, existing), cands, date)
  }

  /** The newest facts, as many as fit. */
  function Trim(items: seq<Fact>, maxFacts: nat): (r: seq<Fact>)
    ensures |r| == Min(|items|, maxFacts)
    ensures forall i :: 0 <= i < |r| ==> r[i] == items[|items| - |r| + i]
  {
    if |items| <= maxFacts then items else items[|items| - maxFacts..]
  }

  datatype Memory = Memory(text: string, known: set<string>)

  function RunSpec(sig: Signature, maxFacts: nat, m: Memory, cands: seq<string>, date: string): Memory {
    var items := Trim(Merge(sig, Parse(m.text).0, m.known, cands, date), maxFacts);
    Memory(StoreFacts(m.text, items), Sigs(sig, items))
  }

  class Extractor {
    const sig: Signature
    const maxFacts: nat
    var text: string
    var known: set<string>

    constructor (sig: Signature, maxFacts: nat, text: string)
      ensures this.sig == sig && this.maxFacts == maxFacts && Contents() == Memory(text, {})
    {
      this.sig, this.maxFacts := sig, maxFacts;
      this.text, this.known := text, {};
    }

    function Contents(): Memory
      reads this
    {
      Memory(text, known)
    }

    method CollectExisting(facts: seq<Fact>) returns (items: seq<Fact>, hashes: set<string>)
      ensures items == Existing(sig, facts) && hashes == Sigs(sig, items)
    {
      items, hashes := [], {};
      for i := 0 to |facts|
        invariant items == Existing(sig, facts[..i]) && hashes == Sigs(sig, items)
      {
        assert facts[..i + 1][..i] == facts[..i] && facts[..i + 1][i] == facts[i];
        hide Sanitize, Strip, Sigs;
        var fact := Sanitize(facts[i].text);
        if fact == "" { continue; }
        var hash := sig(fact);
        if hash in hashes { continue; }
        SigsSnoc(sig, items, Fact(Strip(facts[i].date), fact));
        hashes := hashes + {hash};
        items := items + [Fact(Strip(facts[i].date), fact)];
      }
      assert facts[..|facts|] == facts;
    }

    method Run(cands: seq<string>, date: string) returns (appended: nat)
      modifies this
      ensures Contents() == RunSpec(sig, maxFacts, old(Contents()), cands, date)
      ensures appended == |Merge(sig, Parse(old(text)).0, old(known), cands, date)|
                          - |Existing(sig, Parse(old(text)).0)|
    {
      hide Parse, Format, ReplaceOrAppend, Existing, Sigs;
      var facts, hadBlock := ParseManagedBlock(text);
      var items, hashes := CollectExisting(facts);
      var knownSet := known + hashes;
      ghost var goal := Merge(sig, facts, known, cands, date);
      appended := 0;
      for i := 0 to |cands|
        invariant AppendNew(sig, items, knownSet, cands[i..], date) == goal
        invariant |items| == |Existing(sig, facts)| + appended
        invariant text == old(text)
      {
        assert cands[i..][0] == cands[i] && cands[i..][1..] == cands[i + 1..];
        var hash := sig(cands[i]);
        if hash in knownSet { continue; }
        knownSet := knownSet + {hash};
        items := items + [Fact(date, cands[i])];
        appended := appended + 1;
      }
      var trimmed := Trim(items, maxFacts);
      var block := FormatManagedBlock(trimmed);
      text := ReplaceOrAppend(text, block);
      known := Sigs(sig, trimmed);
    }
  }

  // ----- no two facts with one signature -----

  ghost predicate Distinct(sig: Signature, items: seq<Fact>) {
    forall i, j :: 0 <= i < j < |items| ==> sig(items[i].text) != sig(items[j].text)
  }

  lemma SigsSnoc(sig: Signature, items: seq<Fact>, f: Fact)
    ensures Sigs(sig, items + [f]) == Sigs(sig, items) + {sig(f.text)}
  {
    assert forall g :: g in items + [f] <==> g in items || g == f;
  }

  lemma DistinctSnoc(sig: Signature, items: seq<Fact>, f: Fact)
    requires Distinct(sig, items) && sig(f.text) !in Sigs(sig, items)
    ensures Distinct(sig, items + [f])
  {
    forall i | 0 <= i < |items| ensures sig(items[i].text) != sig(f.text) {
      assert items[i] in items;
    }
  }

  lemma {:induction false} ExistingDistinct(sig: Signature, parsed: seq<Fact>)
    ensures Distinct(sig, Existing(sig, parsed))
  {
    if parsed != [] {
      var init, f := parsed[..|parsed| - 1], parsed[|parsed| - 1];
      ExistingDistinct(sig, init);
      hide Sanitize, Strip, Sigs;
      var text := Sanitize(f.text);
      if text != "" && sig(text) !in Sigs(sig, Existing(sig, init)) {
        DistinctSnoc(sig, Existing(sig, init), Fact(Strip(f.date), text));
      }
    }
  }

  lemma {:induction false} AppendDistinct(sig: Signature, items: seq<Fact>, known: set<string>,
                                          cands: seq<string>, date: string)
    requires Distinct(sig, items) && Sigs(sig, items) <= known
    ensures Distinct(sig, AppendNew(sig, items, known, cands, date))
    decreases |cands|
  {
    if cands != [] {
      if sig(cands[0]) in known {
        AppendDistinct(sig, items, known, cands[1..], date);
      } else {
        var f := Fact(date, cands[0]);
        DistinctSnoc(sig, items, f);
        SigsSnoc(sig, items, f);
        hide Sigs, Distinct;
        AppendDistinct(sig, items + [f], known + {sig(cands[0])}, cands[1..], date);
      }
    }
  }

  /** What a run stores never holds two facts with one signature, trimmed or not. */
  lemma StoredFactsDistinct(sig: Signature, maxFacts: nat, parsed: seq<Fact>, known: set<string>,
                            cands: seq<string>, date: string)
    ensures Distinct(sig, Trim(Merge(sig, parsed, known, cands, date), maxFacts))
  {
    hide Sigs, Existing;
    ExistingDistinct(sig, parsed);
    AppendDistinct(sig, Existing(sig, parsed), known + Sigs(sig, Existing(sig, parsed)), cands, date);
  }

  // ----- reruns on unchanged notes -----

  /** A fact that a run writes, reads back and keeps as it is. */
  predicate Durable(f: Fact) {
    Clean(f) && Sanitize(f.text) == f.text
  }

  lemma DurableFact(f: Fact)
    requires Durable(f)
    ensures f.text != "" && Sanitize(f.text) == f.text && Fact(Strip(f.date), f.text) == f
  {
    StripFacts(f.date);
  }

  lemma NewSignature(sig: Signature, items: seq<Fact>)
    requires items != [] && Distinct(sig, items)
    ensures sig(items[|items| - 1].text) !in Sigs(sig, items[..|items| - 1])
  {
  }

  lemma ExistingSnoc(sig: Signature, init: seq<Fact>, f: Fact)
    requires Durable(f) && sig(f.text) !in Sigs(sig, Existing(sig, init))
    ensures Existing(sig, init + [f]) == Existing(sig, init) + [f]
  {
    DurableFact(f);
    hide Durable, Sanitize, Strip, Sigs;
    assert (init + [f])[..|init|] == init;
  }

  lemma PrefixKeeps(sig: Signature, items: seq<Fact>)
    requires items != [] && Distinct(sig, items) && forall f <- items :: Durable(f)
    ensures var init := items[..|items| - 1]; Distinct(sig, init) && forall f <- init :: Durable(f)
  {
    hide Durable;
  }

  lemma ExistingNothing(sig: Signature)
    ensures Existing(sig, []) == []
  {
  }

  lemma {:induction false} ExistingKeeps(sig: Signature, items: seq<Fact>)
    requires Distinct(sig, items) && forall f <- items :: Durable(f)
    ensures Existing(sig, items) == items
  {
    hide *;
    if items == [] {
      ExistingNothing(sig);
    } else {
      var init, f := items[..|items| - 1], items[|items| - 1];
      PrefixKeeps(sig, items);
      ExistingKeeps(sig, init);
      NewSignature(sig, items);
      assert f in items;
      ExistingSnoc(sig, init, f);
      assert items == init + [f];
    }
  }

  /** The signatures after appending: those of the items, and of the candidates not known before. */
  lemma {:induction false} AppendSigs(sig: Signature, items: seq<Fact>, known: set<string>,
                                      cands: seq<string>, date: string)
    ensures Sigs(sig, AppendNew(sig, items, known, cands, date))
         == Sigs(sig, items) + set c | c in cands && sig(c) !in known :: sig(c)
    ensures items <= AppendNew(sig, items, known, cands, date)
    decreases |cands|
  {
    if cands != [] {
      var c, rest := cands[0], cands[1..];
      assert forall d :: d in cands <==> d == c || d in rest;
      if sig(c) in known {
        AppendSigs(sig, items, known, rest, date);
      } else {
        SigsSnoc(sig, items, Fact(date, c));
        AppendSigs(sig, items + [Fact(date, c)], known + {sig(c)}, rest, date);
      }
    }
  }

  /** Nothing is appended exactly when every candidate is known. */
  lemma {:induction false} AppendNothing(sig: Signature, items: seq<Fact>, known: set<string>,
                                         cands: seq<string>, date: string)
    ensures AppendNew(sig, items, known, cands, date) == items <==> forall c <- cands :: sig(c) in known
    decreases |cands|
  {
    if cands != [] {
      var c, rest := cands[0], cands[1..];
      assert forall d :: d in cands <==> d == c || d in rest;
      if sig(c) in known {
        AppendNothing(sig, items, known, rest, date);
      } else {
        AppendSigs(sig, items + [Fact(date, c)], known + {sig(c)}, rest, date);
        assert c in cands;
      }
    }
  }

  ghost predicate AllHeld(sig: Signature, cands: seq<string>, items: seq<Fact>) {
    forall c <- cands :: sig(c) in Sigs(sig, items)
  }

  /** A memory whose block holds `items`, with a state file that agrees. */
  ghost predicate Holds(sig: Signature, maxFacts: nat, m: Memory, items: seq<Fact>) {
    && Parse(m.text) == (items, true) && m.known == Sigs(sig, items)
    && Distinct(sig, items) && |items| <= maxFacts
    && forall f <- items :: Durable(f)
  }

  /** A run stores the merged facts when they are clean and fit, and they read back. */
  lemma RunStores(sig: Signature, maxFacts: nat, m: Memory, cands: seq<string>, date: string)
    requires WellMarked(m.text)
    requires
      var items := Merge(sig, Parse(m.text).0, m.known, cands, date);
      |items| <= maxFacts && forall f <- items :: Clean(f)
    ensures
      var items, m' := Merge(sig, Parse(m.text).0, m.known, cands, date), RunSpec(sig, maxFacts, m, cands, date);
      && Parse(m'.text) == (items, true) && m'.known == Sigs(sig, items)
      && WellMarked(m'.text) && Distinct(sig, items)
  {
    var items := Merge(sig, Parse(m.text).0, m.known, cands, date);
    StoredFactsDistinct(sig, maxFacts, Parse(m.text).0, m.known, cands, date);
    hide Parse, StoreFacts, Merge, WellMarked, Clean, Sigs;
    StoredReadsBack(m.text, items);
    FoundIsWellMarked(StoreFacts(m.text, items));
  }

  /** The first run stores the merged facts when they are durable and fit. */
  lemma FirstRun(sig: Signature, maxFacts: nat, m: Memory, cands: seq<string>, date: string)
    requires WellMarked(m.text)
    requires
      var items := Merge(sig, Parse(m.text).0, m.known, cands, date);
      |items| <= maxFacts && forall f <- items :: Durable(f)
    ensures Holds(sig, maxFacts, RunSpec(sig, maxFacts, m, cands, date),
                  Merge(sig, Parse(m.text).0, m.known, cands, date))
  {
    var items := Merge(sig, Parse(m.text).0, m.known, cands, date);
    forall f | f in items ensures Clean(f) {
      assert Durable(f);
    }
    hide Parse, RunSpec, Merge, WellMarked, Durable, Clean, Sigs;
    RunStores(sig, maxFacts, m, cands, date);
  }

  /** A rerun from such a memory appends nothing, and stores the same facts, iff every candidate is held. */
  lemma Rerun(sig: Signature, maxFacts: nat, m: Memory, items: seq<Fact>, cands: seq<string>, date: string)
    requires Holds(sig, maxFacts, m, items)
    ensures Merge(sig, items, m.known, cands, date) == items <==> AllHeld(sig, cands, items)
    ensures AllHeld(sig, cands, items) ==>
              Holds(sig, maxFacts, RunSpec(sig, maxFacts, m, cands, date), items)
  {
    ExistingKeeps(sig, items);
    AppendNothing(sig, items, m.known + Sigs(sig, items), cands, date);
    assert m.known + Sigs(sig, items) == Sigs(sig, items);
    if AllHeld(sig, cands, items) {
      FoundIsWellMarked(m.text);
      hide Parse, WellMarked, Durable, Sigs, StoreFacts, Existing;
      FirstRun(sig, maxFacts, m, cands, date);
    }
  }

  function RunTimes(sig: Signature, maxFacts: nat, m: Memory, cands: seq<string>, date: string, n: nat): Memory
    decreases n
  {
    if n == 0 then m else RunTimes(sig, maxFacts, RunSpec(sig, maxFacts, m, cands, date), cands, date, n - 1)
  }

  lemma {:induction false} RerunsChangeNothing(sig: Signature, maxFacts: nat, m: Memory, items: seq<Fact>,
                                               cands: seq<string>, date: string, n: nat)
    requires Holds(sig, maxFacts, m, items) && AllHeld(sig, cands, items)
    ensures Holds(sig, maxFacts, RunTimes(sig, maxFacts, m, cands, date, n), items)
    decreases n
  {
    hide Holds, RunSpec, Sigs, AllHeld;
    if n > 0 {
      Rerun(sig, maxFacts, m, items, cands, date);
      RerunsChangeNothing(sig, maxFacts, RunSpec(sig, maxFacts, m, cands, date), items, cands, date, n - 1);
    }
  }

  /** No candidate is known to the state file alone. */
  ghost predicate Tracked(sig: Signature, parsed: seq<Fact>, known: set<string>, cands: seq<string>) {
    forall c <- cands :: sig(c) in known ==> sig(c) in Sigs(sig, Existing(sig, parsed))
  }

  /** The candidates a merge leaves out are those known to the state file alone. */
  lemma MergedSigs(sig: Signature, parsed: seq<Fact>, known: set<string>, cands: seq<string>, date: string)
    ensures AllHeld(sig, cands, Merge(sig, parsed, known, cands, date)) <==> Tracked(sig, parsed, known, cands)
  {
    hide Existing, Sigs, AppendNew;
    var existing := Existing(sig, parsed);
    AppendSigs(sig, existing, known + Sigs(sig, existing), cands, date);
  }

  /**
   * While the distinct facts are durable and fit, any number of reruns on unchanged notes leaves the
   * facts of the block as the first run stored them, provided that no candidate was known to the
   * state file only; and if one was, the very next run appends it.
   */
  lemma UnchangedNotes(sig: Signature, maxFacts: nat, m: Memory, cands: seq<string>, date: string, n: nat)
    requires WellMarked(m.text)
    requires
      var items := Merge(sig, Parse(m.text).0, m.known, cands, date);
      |items| <= maxFacts && forall f <- items :: Durable(f)
    ensures
      var items, m1 := Merge(sig, Parse(m.text).0, m.known, cands, date), RunSpec(sig, maxFacts, m, cands, date);
      var tracked := Tracked(sig, Parse(m.text).0, m.known, cands);
      && (tracked ==> Parse(RunTimes(sig, maxFacts, m1, cands, date, n).text) == (items, true))
      && (tracked <==> Merge(sig, Parse(m1.text).0, m1.known, cands, date) == items)
  {
    var parsed := Parse(m.text).0;
    var existing := Existing(sig, parsed);
    var items, m1 := Merge(sig, parsed, m.known, cands, date), RunSpec(sig, maxFacts, m, cands, date);
    FirstRun(sig, maxFacts, m, cands, date);
    hide Parse, WellMarked, Durable, RunSpec, Existing, Merge, Sigs, Distinct, RunTimes, Tracked, AllHeld;
    MergedSigs(sig, parsed, m.known, cands, date);
    Rerun(sig, maxFacts, m1, items, cands, date);
    if AllHeld(sig, cands, items) {
      RerunsChangeNothing(sig, maxFacts, m1, items, cands, date, n);
    }
  }
}
