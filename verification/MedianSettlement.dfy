/** Dispute settlement: the median of the oracle scores selects one of four payout tiers. */
module MedianSettlement {
  import opened Common

  datatype Split = Split(agentRefund: nat, providerPayment: nat)

  function Insert(x: int, s: seq<int>): seq<int> {
    if s == [] || x <= s[0] then [x] + s else [s[0]] + Insert(x, s[1..])
  }

  /** The numeric sort of the scores. */
  function Sort(s: seq<int>): seq<int> {
    if s == [] then [] else Insert(s[0], Sort(s[1..]))
  }

  /** The score at index floor(n / 2) of the sorted list; undefined without scores. */
  function Median(scores: seq<int>): Option<int> {
    var sorted := Sort(scores);
    if |sorted| / 2 < |sorted| then Some(sorted[|sorted| / 2]) else None
  }

  /** An undefined median fails every comparison and falls through to the last tier. */
  function Tier(median: Option<int>): Split {
    if median.None? then Split(100, 0)
    else if median.value >= 80 then Split(0, 100)
    else if median.value >= 65 then Split(35, 65)
    else if median.value >= 50 then Split(75, 25)
    else Split(100, 0)
  }

  function Settle(scores: seq<int>): Split {
    Tier(Median(scores))
  }

  // ----- what the sorted list knows about the scores -----

  /** How many scores lie below a bound. */
  function Below(s: seq<int>, bound: int): nat {
    if s == [] then 0 else Below(s[1..], bound) + if s[0] < bound then 1 else 0
  }

  function Within(s: seq<int>, lo: int, hi: int): nat {
    if s == [] then 0 else Within(s[1..], lo, hi) + if lo <= s[0] <= hi then 1 else 0
  }

  ghost predicate Sorted(s: seq<int>) {
    forall i, j :: 0 <= i < j < |s| ==> s[i] <= s[j]
  }

  lemma {:induction false} InsertBounded(x: int, s: seq<int>, low: int)
    requires low <= x && forall i :: 0 <= i < |s| ==> low <= s[i]
    ensures forall i :: 0 <= i < |Insert(x, s)| ==> low <= Insert(x, s)[i]
  {
    if s != [] && x > s[0] {
      InsertBounded(x, s[1..], low);
    }
  }

  lemma {:induction false} InsertSorted(x: int, s: seq<int>)
    requires Sorted(s)
    ensures Sorted(Insert(x, s))
  {
    if s != [] && x > s[0] {
      InsertSorted(x, s[1..]);
      InsertBounded(x, s[1..], s[0]);
    }
  }

  lemma {:induction false} InsertMultiset(x: int, s: seq<int>)
    ensures multiset(Insert(x, s)) == multiset(s) + multiset{x}
  {
    if s != [] && x > s[0] {
      InsertMultiset(x, s[1..]);
      assert s == [s[0]] + s[1..];
    }
  }

  lemma {:induction false} SortFacts(s: seq<int>)
    ensures Sorted(Sort(s)) && multiset(Sort(s)) == multiset(s)
    ensures |Sort(s)| == |s|
  {
    if s != [] {
      SortFacts(s[1..]);
      InsertSorted(s[0], Sort(s[1..]));
      InsertMultiset(s[0], Sort(s[1..]));
      assert s == [s[0]] + s[1..];
    }
    assert |multiset(Sort(s))| == |multiset(s)|;
  }

  lemma {:induction false} BelowInsert(x: int, s: seq<int>, bound: int)
    ensures Below(Insert(x, s), bound) == Below(s, bound) + if x < bound then 1 else 0
  {
    if s == [] || x <= s[0] {
      assert ([x] + s)[1..] == s;
    } else {
      BelowInsert(x, s[1..], bound);
      assert ([s[0]] + Insert(x, s[1..]))[1..] == Insert(x, s[1..]);
    }
  }

  lemma {:induction false} BelowSort(s: seq<int>, bound: int)
    ensures Below(Sort(s), bound) == Below(s, bound)
  {
    if s != [] {
      BelowSort(s[1..], bound);
      BelowInsert(s[0], Sort(s[1..]), bound);
    }
  }

  lemma {:induction false} BelowSorted(s: seq<int>, bound: int, k: nat)
    requires Sorted(s) && k < |s|
    ensures s[k] < bound <==> Below(s, bound) > k
  {
    if k > 0 {
      BelowSorted(s[1..], bound, k - 1);
      assert s[0] <= s[k];
    } else if s[0] >= bound {
      NoneBelow(s, bound);
    }
  }

  lemma {:induction false} NoneBelow(s: seq<int>, bound: int)
    requires forall i :: 0 <= i < |s| ==> s[i] >= bound
    ensures Below(s, bound) == 0
  {
    if s != [] {
      NoneBelow(s[1..], bound);
    }
  }

  /** The median in terms of the unsorted scores: it lies below a bound iff more than half do. */
  lemma MedianByCount(scores: seq<int>, bound: int)
    requires scores != []
    ensures Median(scores).Some?
    ensures Median(scores).value < bound <==> Below(scores, bound) > |scores| / 2
  {
    SortFacts(scores);
    BelowSort(scores, bound);
    BelowSorted(Sort(scores), bound, |scores| / 2);
  }

  // ----- properties of the settlement -----

  lemma SharesSum(scores: seq<int>)
    ensures Settle(scores).agentRefund + Settle(scores).providerPayment == 100
    ensures Settle(scores).providerPayment in {0, 25, 65, 100}
  {
  }

  /** Without scores the provider gets nothing. */
  lemma NoScores()
    ensures Median([]) == None && Settle([]).agentRefund == 100 && Settle([]).providerPayment == 0
  {
  }

  /** The payout read off the unsorted scores: a tier is reached unless more than half fall short of it. */
  lemma PayoutByCount(scores: seq<int>)
    requires scores != []
    ensures
      var pay, half := Settle(scores).providerPayment, |scores| / 2;
      && (pay == 100 <==> Below(scores, 80) <= half)
      && (pay >= 65 <==> Below(scores, 65) <= half)
      && (pay >= 25 <==> Below(scores, 50) <= half)
  {
    hide Median, Below;
    MedianByCount(scores, 80);
    MedianByCount(scores, 65);
    MedianByCount(scores, 50);
  }

  function Remove(s: seq<int>, k: nat): seq<int>
    requires k < |s|
  {
    s[..k] + s[k + 1..]
  }

  lemma RemoveMultiset(s: seq<int>, k: nat)
    requires k < |s|
    ensures multiset(Remove(s, k)) == multiset(s) - multiset{s[k]}
  {
    assert s == s[..k] + [s[k]] + s[k + 1..];
  }

  lemma {:induction false} RemoveBelow(s: seq<int>, k: nat, bound: int)
    requires k < |s|
    ensures Below(s, bound) == Below(Remove(s, k), bound) + if s[k] < bound then 1 else 0
    decreases k
  {
    if k == 0 {
      assert Remove(s, 0) == s[1..];
    } else {
      RemoveBelow(s[1..], k - 1, bound);
      assert Remove(s, k)[1..] == Remove(s[1..], k - 1);
    }
  }

  lemma {:induction false} BelowPermuted(a: seq<int>, b: seq<int>, bound: int)
    requires multiset(a) == multiset(b)
    ensures Below(a, bound) == Below(b, bound)
    decreases |a|
  {
    if a == [] {
      assert |multiset(b)| == 0;
    } else {
      assert a[0] in multiset(b);
      var k :| 0 <= k < |b| && b[k] == a[0];
      RemoveMultiset(a, 0);
      RemoveMultiset(b, k);
      RemoveBelow(a, 0, bound);
      RemoveBelow(b, k, bound);
      BelowPermuted(Remove(a, 0), Remove(b, k), bound);
    }
  }

  /** The order in which the oracles are listed does not matter. */
  lemma OrderDoesNotMatter(a: seq<int>, b: seq<int>)
    requires multiset(a) == multiset(b)
    ensures Median(a) == Median(b) && Settle(a) == Settle(b)
  {
    assert |a| == |multiset(a)| == |multiset(b)| == |b|;
    if a != [] {
      MedianByCount(a, Median(a).value);
      MedianByCount(b, Median(b).value);
      MedianByCount(b, Median(a).value);
      MedianByCount(a, Median(b).value);
      BelowPermuted(a, b, Median(a).value);
      BelowPermuted(a, b, Median(b).value);
    }
  }

  lemma {:induction false} WithinByBelow(s: seq<int>, lo: int, hi: int)
    requires lo <= hi
    ensures Within(s, lo, hi) == Below(s, hi + 1) - Below(s, lo)
    ensures Below(s, hi + 1) <= |s|
  {
    if s != [] {
      WithinByBelow(s[1..], lo, hi);
    }
  }

  lemma TierMonotone(a: Option<int>, b: Option<int>)
    requires a.Some? && b.Some? && a.value <= b.value
    ensures Tier(a).providerPayment <= Tier(b).providerPayment
  {
  }

  /** When more than half of the scores lie in a range, the others cannot move the outcome out of it. */
  lemma MinorityProof(scores: seq<int>, lo: int, hi: int)
    requires lo <= hi && 2 * Within(scores, lo, hi) > |scores|
    ensures Median(scores).Some? && lo <= Median(scores).value <= hi
    ensures Tier(Some(lo)).providerPayment <= Settle(scores).providerPayment <= Tier(Some(hi)).providerPayment
  {
    WithinByBelow(scores, lo, hi);
    MedianByCount(scores, lo);
    MedianByCount(scores, hi + 1);
    TierMonotone(Some(lo), Median(scores));
    TierMonotone(Median(scores), Some(hi));
  }

  /** Exactly half is not enough: two scores, one of them in range, settle outside it. */
  lemma HalfIsNotEnough(scores: seq<int>)
    requires scores == [40, 90]
    ensures 2 * Within(scores, 40, 40) == |scores|
    ensures Median(scores) == Some(90) && Settle(scores).providerPayment == 100
  {
    assert scores[1..] == [90] && scores[1..][1..] == [];
    assert Sort([90]) == [90];
    assert Sort(scores) == [40, 90];
  }

  lemma {:induction false} BelowMonotone(a: seq<int>, b: seq<int>, bound: int)
    requires |a| == |b| && forall i :: 0 <= i < |a| ==> a[i] <= b[i]
    ensures Below(b, bound) <= Below(a, bound)
  {
    if a != [] {
      BelowMonotone(a[1..], b[1..], bound);
    }
  }

  /** Raising scores, one or several, never lowers the median or the provider's share. */
  lemma RaisingNeverLowers(a: seq<int>, b: seq<int>)
    requires |a| == |b| && forall i :: 0 <= i < |a| ==> a[i] <= b[i]
    ensures Settle(a).providerPayment <= Settle(b).providerPayment
    ensures a != [] ==> Median(a).Some? && Median(b).Some? && Median(a).value <= Median(b).value
  {
    if a == [] {
      assert a == b;
    } else {
      var m := Median(b).value + 1;
      MedianByCount(b, m);
      MedianByCount(a, m);
      BelowMonotone(a, b, m);
      TierMonotone(Median(a), Median(b));
    }
  }
}
