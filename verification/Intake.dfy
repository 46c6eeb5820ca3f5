/** Marketplace intake: opportunities are ranked, reduced to one per key and cut to a maximum. */
module Intake {
  import opened Common

  datatype Opportunity = Opportunity(source: Option<string>, id: Option<string>, confidence: Option<real>,
                                     payoutUsd: Option<real>, payoutSol: Option<real>, title: string)

  datatype Score = Score(confidence: real, usd: real, sol: real)

  function OrZero(x: Option<real>): real {
    if x.Some? then x.value else 0.0
  }

  function ScoreOf(r: Opportunity): Score {
    Score(OrZero(r.confidence), OrZero(r.payoutUsd), OrZero(r.payoutSol))
  }

  /** The tuples compare lexicographically. */
  predicate Above(a: Score, b: Score) {
    || a.confidence > b.confidence
    || (a.confidence == b.confidence && (a.usd > b.usd || (a.usd == b.usd && a.sol > b.sol)))
  }

  function KeyOf(r: Opportunity): string {
    Lower((if r.source.Some? then r.source.value else "direct") + ":" + (if r.id.Some? then r.id.value else "unknown"))
  }

  // ----- ranking: a stable sort, highest score first -----

  /** Row i comes before row j in the ranking: a higher score, or an equal one that was listed earlier. */
  predicate Precedes(rows: seq<Opportunity>, i: nat, j: nat)
    requires i < |rows| && j < |rows|
  {
    var a, b := ScoreOf(rows[i]), ScoreOf(rows[j]);
    Above(a, b) || (!Above(b, a) && i < j)
  }

  ghost predicate Indices(rows: seq<Opportunity>, order: seq<nat>) {
    forall i :: 0 <= i < |order| ==> order[i] < |rows|
  }

  function InsertIndex(rows: seq<Opportunity>, i: nat, order: seq<nat>): (r: seq<nat>)
    requires i < |rows| && forall k :: 0 <= k < |order| ==> order[k] < |rows|
    ensures |r| == |order| + 1 && forall k :: 0 <= k < |r| ==> r[k] < |rows|
  {
    if order == [] || Precedes(rows, i, order[0]) then [i] + order
    else [order[0]] + InsertIndex(rows, i, order[1..])
  }

  /** The positions of the first n rows in ranked order. */
  function RankOrder(rows: seq<Opportunity>, n: nat): (order: seq<nat>)
    requires n <= |rows|
    ensures |order| == n && forall k :: 0 <= k < n ==> order[k] < |rows|
  {
    if n == 0 then [] else InsertIndex(rows, n - 1, RankOrder(rows, n - 1))
  }

  // ----- the loop -----

  predicate HasKey(rows: seq<Opportunity>, q: seq<nat>, key: string)
    requires forall k :: 0 <= k < |q| ==> q[k] < |rows|
  {
    exists k :: 0 <= k < |q| && KeyOf(rows[q[k]]) == key
  }

  /** The positions that the loop keeps of the ranked positions `order`, with `taken` kept already. */
  function Keep(rows: seq<Opportunity>, order: seq<nat>, taken: seq<nat>, cap: int): seq<nat>
    requires forall k :: 0 <= k < |order| ==> order[k] < |rows|
    requires forall k :: 0 <= k < |taken| ==> taken[k] < |rows|
    decreases |order|
  {
    if order == [] then taken
    else if HasKey(rows, taken, KeyOf(rows[order[0]]))
    then Keep(rows, order[1..], taken, cap)
    else if |taken| + 1 >= cap then taken + [order[0]]
    else Keep(rows, order[1..], taken + [order[0]], cap)
  }

  function Kept(rows: seq<Opportunity>, cap: int): seq<nat> {
    Keep(rows, RankOrder(rows, |rows|), [], cap)
  }

  function Pick(rows: seq<Opportunity>, q: seq<nat>): (r: seq<Opportunity>)
    requires forall k :: 0 <= k < |q| ==> q[k] < |rows|
    ensures |r| == |q| && forall k :: 0 <= k < |q| ==> r[k] == rows[q[k]]
  {
    seq(|q|, k requires 0 <= k < |q| => rows[q[k]])
  }

  // ----- the order of ranks -----

  lemma PrecedesTotal(rows: seq<Opportunity>, i: nat, j: nat)
    requires i < |rows| && j < |rows|
    ensures i == j || Precedes(rows, i, j) || Precedes(rows, j, i)
    ensures !(Precedes(rows, i, j) && Precedes(rows, j, i))
  {
  }

  lemma PrecedesTransitive(rows: seq<Opportunity>, i: nat, j: nat, k: nat)
    requires i < |rows| && j < |rows| && k < |rows|
    requires Precedes(rows, i, j) && Precedes(rows, j, k)
    ensures Precedes(rows, i, k)
  {
  }

  ghost predicate Ascending(rows: seq<Opportunity>, q: seq<nat>)
    requires Indices(rows, q)
  {
    forall i, j :: 0 <= i < j < |q| ==> Precedes(rows, q[i], q[j])
  }

  lemma {:induction false} InsertedFrom(rows: seq<Opportunity>, i: nat, order: seq<nat>)
    requires i < |rows| && Indices(rows, order)
    ensures forall x :: x in InsertIndex(rows, i, order) <==> x == i || x in order
  {
    if order != [] && !Precedes(rows, i, order[0]) {
      InsertedFrom(rows, i, order[1..]);
      assert order == [order[0]] + order[1..];
    }
  }

  lemma {:induction false} InsertAscends(rows: seq<Opportunity>, i: nat, order: seq<nat>)
    requires i < |rows| && Indices(rows, order) && Ascending(rows, order) && i !in order
    ensures Ascending(rows, InsertIndex(rows, i, order))
  {
    if order == [] {
    } else if Precedes(rows, i, order[0]) {
      forall k | 0 < k < |order| ensures Precedes(rows, i, order[k]) {
        PrecedesTransitive(rows, i, order[0], order[k]);
      }
    } else {
      var rest := InsertIndex(rows, i, order[1..]);
      InsertAscends(rows, i, order[1..]);
      InsertedFrom(rows, i, order[1..]);
      PrecedesTotal(rows, i, order[0]);
      forall k | 0 <= k < |rest| ensures Precedes(rows, order[0], rest[k]) {
        assert rest[k] in rest;
        if rest[k] != i {
          var m :| 0 <= m < |order[1..]| && order[1..][m] == rest[k];
          assert order[m + 1] == rest[k];
        }
      }
    }
  }

  /** The ranking lists every row once, each after every row that precedes it. */
  lemma {:induction false} RankOrderFacts(rows: seq<Opportunity>, n: nat)
    requires n <= |rows|
    ensures Ascending(rows, RankOrder(rows, n))
    ensures forall x: nat :: x in RankOrder(rows, n) <==> x < n
    decreases n
  {
    assert RankOrder(rows, 0) == [];
    if n > 0 {
      RankOrderFacts(rows, n - 1);
      InsertAscends(rows, n - 1, RankOrder(rows, n - 1));
      InsertedFrom(rows, n - 1, RankOrder(rows, n - 1));
    }
  }

  lemma HasKeyAppend(rows: seq<Opportunity>, q: seq<nat>, i: nat)
    requires Indices(rows, q) && i < |rows|
    ensures forall key :: HasKey(rows, q + [i], key) <==> HasKey(rows, q, key) || key == KeyOf(rows[i])
  {
    hide KeyOf;
    forall key ensures HasKey(rows, q + [i], key) <==> HasKey(rows, q, key) || key == KeyOf(rows[i]) {
      if HasKey(rows, q, key) {
        var k :| 0 <= k < |q| && KeyOf(rows[q[k]]) == key;
        assert (q + [i])[k] == q[k];
      }
      assert (q + [i])[|q|] == i;
    }
  }

  method Dedupe(rows: seq<Opportunity>, cap: int) returns (out: seq<Opportunity>)
    ensures Indices(rows, Kept(rows, cap)) && out == Pick(rows, Kept(rows, cap))
  {
    hide KeyOf, RankOrder, Precedes;
    var order := RankOrder(rows, |rows|);
    var ranked := Pick(rows, order);
    KeptIndices(rows, order, [], cap);
    var seen: set<string> := {};
    out := [];
    ghost var taken: seq<nat> := [];
    for i := 0 to |ranked|
      invariant Indices(rows, taken) && out == Pick(rows, taken)
      invariant forall key :: key in seen <==> HasKey(rows, taken, key)
      invariant Keep(rows, order[i..], taken, cap) == Kept(rows, cap)
    {
      var row := ranked[i];
      var key := KeyOf(row);
      assert order[i..][0] == order[i] && order[i..][1..] == order[i + 1..];
      if key in seen { continue; }
      seen := seen + {key};
      out := out + [row];
      HasKeyAppend(rows, taken, order[i]);
      taken := taken + [order[i]];
      if |out| >= cap { return; }
    }
  }

  lemma {:induction false} KeptIndices(rows: seq<Opportunity>, order: seq<nat>, taken: seq<nat>, cap: int)
    requires Indices(rows, order) && Indices(rows, taken)
    ensures Indices(rows, Keep(rows, order, taken, cap))
    decreases |order|
  {
    if order != [] {
      KeptIndices(rows, order[1..], taken, cap);
      KeptIndices(rows, order[1..], taken + [order[0]], cap);
    }
  }

  // ----- the declarative form -----

  /** Among the rows with its key, row i is ranked first. */
  ghost predicate BestOfKey(rows: seq<Opportunity>, i: nat)
    requires i < |rows|
  {
    forall j :: 0 <= j < |rows| && j != i && KeyOf(rows[j]) == KeyOf(rows[i]) ==> Precedes(rows, i, j)
  }

  /**
   * The best row of each kept key, in ranked order and one per key; a row is missing only because
   * its key is represented or because the list is full and every kept row is ranked before it.
   */
  ghost predicate Selection(rows: seq<Opportunity>, cap: int, q: seq<nat>) {
    && Indices(rows, q) && Ascending(rows, q) && |q| <= Max(1, cap)
    && (forall i :: 0 <= i < |q| ==> BestOfKey(rows, q[i]))
    && (forall i, j :: 0 <= i < j < |q| ==> KeyOf(rows[q[i]]) != KeyOf(rows[q[j]]))
    && (forall j :: 0 <= j < |rows| ==>
          || HasKey(rows, q, KeyOf(rows[j]))
          || (|q| == Max(1, cap) && forall i :: 0 <= i < |q| ==> Precedes(rows, q[i], j)))
  }

  /** What the loop keeps true: `taken` selects from the ranked rows before `order`. */
  ghost predicate Partial(rows: seq<Opportunity>, order: seq<nat>, taken: seq<nat>, cap: int) {
    && Indices(rows, order) && Indices(rows, taken)
    && Ascending(rows, order) && Ascending(rows, taken)
    && (forall i, j :: 0 <= i < |taken| && 0 <= j < |order| ==> Precedes(rows, taken[i], order[j]))
    && (forall i :: 0 <= i < |taken| ==> BestOfKey(rows, taken[i]))
    && (forall i, j :: 0 <= i < j < |taken| ==> KeyOf(rows[taken[i]]) != KeyOf(rows[taken[j]]))
    && (forall j :: 0 <= j < |rows| ==> j in order || HasKey(rows, taken, KeyOf(rows[j])))
  }

  lemma SkipKeepsPartial(rows: seq<Opportunity>, order: seq<nat>, taken: seq<nat>, cap: int)
    requires order != [] && Partial(rows, order, taken, cap)
    requires HasKey(rows, taken, KeyOf(rows[order[0]]))
    ensures Partial(rows, order[1..], taken, cap)
  {
    hide KeyOf, Precedes;
    assert order == [order[0]] + order[1..];
  }

  lemma NewIsBest(rows: seq<Opportunity>, order: seq<nat>, taken: seq<nat>, cap: int)
    requires order != [] && Partial(rows, order, taken, cap)
    requires !HasKey(rows, taken, KeyOf(rows[order[0]]))
    ensures BestOfKey(rows, order[0])
  {
    hide KeyOf, Precedes;
    forall j | 0 <= j < |rows| && j != order[0] && KeyOf(rows[j]) == KeyOf(rows[order[0]])
      ensures Precedes(rows, order[0], j)
    {
      assert j in order;
      var k :| 0 <= k < |order| && order[k] == j;
      assert k > 0;
    }
  }

  lemma TakeKeepsPartial(rows: seq<Opportunity>, order: seq<nat>, taken: seq<nat>, cap: int)
    requires order != [] && Partial(rows, order, taken, cap)
    requires !HasKey(rows, taken, KeyOf(rows[order[0]]))
    ensures Partial(rows, order[1..], taken + [order[0]], cap)
  {
    NewIsBest(rows, order, taken, cap);
    HasKeyAppend(rows, taken, order[0]);
    hide KeyOf, Precedes, BestOfKey;
    assert order == [order[0]] + order[1..];
  }

  lemma {:induction false} KeepSelects(rows: seq<Opportunity>, order: seq<nat>, taken: seq<nat>, cap: int)
    requires Partial(rows, order, taken, cap) && |taken| < Max(1, cap)
    ensures Selection(rows, cap, Keep(rows, order, taken, cap))
    decreases |order|
  {
    hide KeyOf, Precedes, BestOfKey;
    if order != [] {
      if HasKey(rows, taken, KeyOf(rows[order[0]])) {
        SkipKeepsPartial(rows, order, taken, cap);
        KeepSelects(rows, order[1..], taken, cap);
      } else {
        TakeKeepsPartial(rows, order, taken, cap);
        if |taken| + 1 < cap {
          KeepSelects(rows, order[1..], taken + [order[0]], cap);
        } else {
          FullSelects(rows, order[1..], taken + [order[0]], cap);
        }
      }
    }
  }

  lemma FullSelects(rows: seq<Opportunity>, order: seq<nat>, taken: seq<nat>, cap: int)
    requires Partial(rows, order, taken, cap) && |taken| == Max(1, cap)
    ensures Selection(rows, cap, taken)
  {
    hide KeyOf, Precedes, BestOfKey;
    forall j | 0 <= j < |rows| && !HasKey(rows, taken, KeyOf(rows[j]))
      ensures forall i :: 0 <= i < |taken| ==> Precedes(rows, taken[i], j)
    {
      var k :| 0 <= k < |order| && order[k] == j;
    }
  }

  /** The loop computes a selection of its input. */
  lemma DedupeSelects(rows: seq<Opportunity>, cap: int)
    ensures Selection(rows, cap, Kept(rows, cap))
  {
    RankOrderFacts(rows, |rows|);
    KeepSelects(rows, RankOrder(rows, |rows|), [], cap);
  }

  // ----- the declarative form determines the result -----

  /** At the first position where two selections differ, the second one's row cannot come first. */
  lemma NotEarlier(rows: seq<Opportunity>, cap: int, q: seq<nat>, q': seq<nat>, k: nat)
    requires Selection(rows, cap, q) && Selection(rows, cap, q')
    requires k < |q'| && k <= |q| && q[..k] == q'[..k]
    ensures k < |q|
    ensures q[k] == q'[k] || Precedes(rows, q[k], q'[k])
  {
    hide KeyOf;
    var b := q'[k];
    forall m | 0 <= m < k ensures KeyOf(rows[q[m]]) != KeyOf(rows[b]) {
      assert q[..k][m] == q'[..k][m] && q'[m] == q[m];
    }
    if HasKey(rows, q, KeyOf(rows[b])) {
      var m :| 0 <= m < |q| && KeyOf(rows[q[m]]) == KeyOf(rows[b]);
      assert m >= k && BestOfKey(rows, q[m]) && BestOfKey(rows, b);
      PrecedesTotal(rows, q[m], b);
    }
  }

  lemma {:induction false} SelectionsAgree(rows: seq<Opportunity>, cap: int, q: seq<nat>, q': seq<nat>, k: nat)
    requires Selection(rows, cap, q) && Selection(rows, cap, q')
    requires k <= |q| && k <= |q'| && q[..k] == q'[..k]
    ensures q == q'
    decreases |q| - k
  {
    hide KeyOf, Precedes, Selection;
    if k < |q| || k < |q'| {
      if k < |q'| { NotEarlier(rows, cap, q, q', k); }
      if k < |q| { NotEarlier(rows, cap, q', q, k); }
      SameRow(rows, cap, q, q', k);
      assert q[..k + 1] == q[..k] + [q[k]] && q'[..k + 1] == q'[..k] + [q'[k]];
      SelectionsAgree(rows, cap, q, q', k + 1);
    } else {
      assert q[..k] == q && q'[..k] == q';
    }
  }

  lemma SameRow(rows: seq<Opportunity>, cap: int, q: seq<nat>, q': seq<nat>, k: nat)
    requires Selection(rows, cap, q) && Selection(rows, cap, q')
    requires k < |q| && k < |q'|
    requires q[k] == q'[k] || Precedes(rows, q[k], q'[k])
    requires q'[k] == q[k] || Precedes(rows, q'[k], q[k])
    ensures q[k] == q'[k]
  {
    PrecedesTotal(rows, q[k], q'[k]);
  }

  /** Every selection is the list that the loop returns. */
  lemma SelectionUnique(rows: seq<Opportunity>, cap: int, q: seq<nat>)
    requires Selection(rows, cap, q)
    ensures q == Kept(rows, cap)
  {
    DedupeSelects(rows, cap);
    SelectionsAgree(rows, cap, q, Kept(rows, cap), 0);
  }

  // ----- scores and keys in the record's own fields -----

  /** Higher confidence first, then more dollars, then more SOL; a missing amount counts as nothing. */
  predicate Outranks(a: Opportunity, b: Opportunity) {
    var ca := if a.confidence == None then 0.0 else a.confidence.value;
    var cb := if b.confidence == None then 0.0 else b.confidence.value;
    var ua := if a.payoutUsd == None then 0.0 else a.payoutUsd.value;
    var ub := if b.payoutUsd == None then 0.0 else b.payoutUsd.value;
    var sa := if a.payoutSol == None then 0.0 else a.payoutSol.value;
    var sb := if b.payoutSol == None then 0.0 else b.payoutSol.value;
    ca > cb || (ca == cb && ua > ub) || (ca == cb && ua == ub && sa > sb)
  }

  lemma OutranksExactly(a: Opportunity, b: Opportunity)
    ensures Outranks(a, b) <==> Above(ScoreOf(a), ScoreOf(b))
  {
  }

  /** Source and identifier in lower case with a colon between; a missing one is direct or unknown. */
  lemma KeyExactly(r: Opportunity)
    ensures
      var source := if r.source == None then "direct" else r.source.value;
      var id := if r.id == None then "unknown" else r.id.value;
      KeyOf(r) == Lower(source) + ":" + Lower(id)
  {
  }

  /**
   * No kept row is outranked by a later one, rows of equal rank stand as listed, and no row with the
   * key of a kept one outranks it or equals it from an earlier place.
   */
  lemma KeptAreRanked(rows: seq<Opportunity>, cap: int)
    ensures Indices(rows, Kept(rows, cap))
    ensures
      var q := Kept(rows, cap);
      && (forall i, j :: 0 <= i < j < |q| ==>
            Outranks(rows[q[i]], rows[q[j]]) || (!Outranks(rows[q[j]], rows[q[i]]) && q[i] < q[j]))
      && (forall i, j :: 0 <= i < |q| && 0 <= j < |rows| && j != q[i] && KeyOf(rows[j]) == KeyOf(rows[q[i]]) ==>
            Outranks(rows[q[i]], rows[j]) || (!Outranks(rows[j], rows[q[i]]) && q[i] < j))
  {
    DedupeSelects(rows, cap);
    var q := Kept(rows, cap);
    hide Kept, KeyOf, Above, ScoreOf, Outranks;
    forall i, j | 0 <= i < j < |q|
      ensures Outranks(rows[q[i]], rows[q[j]]) || (!Outranks(rows[q[j]], rows[q[i]]) && q[i] < q[j])
    {
      OutranksExactly(rows[q[i]], rows[q[j]]);
      OutranksExactly(rows[q[j]], rows[q[i]]);
    }
    forall i, j | 0 <= i < |q| && 0 <= j < |rows| && j != q[i] && KeyOf(rows[j]) == KeyOf(rows[q[i]])
      ensures Outranks(rows[q[i]], rows[j]) || (!Outranks(rows[j], rows[q[i]]) && q[i] < j)
    {
      OutranksExactly(rows[q[i]], rows[j]);
      OutranksExactly(rows[j], rows[q[i]]);
      assert BestOfKey(rows, q[i]);
    }
  }

  /** Applying it to its own result changes nothing. */
  lemma DedupeIdempotent(rows: seq<Opportunity>, cap: int)
    ensures Indices(rows, Kept(rows, cap))
    ensures
      var out := Pick(rows, Kept(rows, cap));
      Indices(out, Kept(out, cap)) && Pick(out, Kept(out, cap)) == out
  {
    DedupeSelects(rows, cap);
    var q := Kept(rows, cap);
    var out := Pick(rows, q);
    var id := seq(|out|, k requires 0 <= k => k as nat);
    forall i, j | 0 <= i < j < |out| ensures Precedes(out, i, j) {
      assert Precedes(rows, q[i], q[j]);
    }
    forall j | 0 <= j < |out| ensures HasKey(out, id, KeyOf(out[j])) {
      assert id[j] == j;
    }
    IdentitySelects(out, cap, id);
    SelectionUnique(out, cap, id);
  }

  lemma IdentitySelects(out: seq<Opportunity>, cap: int, id: seq<nat>)
    requires |out| <= Max(1, cap) && |id| == |out| && forall k :: 0 <= k < |id| ==> id[k] == k
    requires forall i, j :: 0 <= i < j < |out| ==> Precedes(out, i, j)
    requires forall i, j :: 0 <= i < j < |out| ==> KeyOf(out[i]) != KeyOf(out[j])
    requires forall j :: 0 <= j < |out| ==> HasKey(out, id, KeyOf(out[j]))
    ensures Selection(out, cap, id)
  {
    hide KeyOf, Precedes;
    forall i, j | 0 <= j < |out| && 0 <= i < |out| && j != i ensures KeyOf(out[j]) != KeyOf(out[i]) {
      assert i < j || j < i;
    }
  }
}
