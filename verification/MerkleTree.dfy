/**
 * The tree that the path folding stands for: every leaf of a complete binary tree, folded with the
 * roots of its sibling subtrees along the binary digits of its index, gives the root of the tree.
 */
module MerkleTree {
  import opened Numerals
  import opened BigEndian
  import opened MerkleFold

  function Size(d: nat): (n: nat)
    ensures n >= 1
  {
    if d == 0 then 1 else Size(d - 1) + Size(d - 1)
  }

  /** The root over 2^d leaves: the hash of the root of the left half and the root of the right half. */
  function TreeRoot(h: Hash, leaves: seq<nat>, d: nat): nat
    requires |leaves| == Size(d)
  {
    if d == 0 then leaves[0]
    else h(TreeRoot(h, leaves[..Size(d - 1)], d - 1), TreeRoot(h, leaves[Size(d - 1)..], d - 1))
  }

  predicate Binary(bits: seq<nat>) {
    forall k :: 0 <= k < |bits| ==> bits[k] == 0 || bits[k] == 1
  }

  /** The number with these binary digits, lowest first. */
  function Index(bits: seq<nat>): (i: nat)
    requires Binary(bits)
    ensures i < Size(|bits|)
  {
    if bits == [] then 0
    else Index(bits[..|bits| - 1]) + if bits[|bits| - 1] == 1 then Size(|bits| - 1) else 0
  }

  /** The half that holds the leaves whose highest digit is this one. */
  function Half(leaves: seq<nat>, d: nat, bit: nat): (half: seq<nat>)
    requires d > 0 && |leaves| == Size(d)
    ensures |half| == Size(d - 1)
  {
    if bit == 0 then leaves[..Size(d - 1)] else leaves[Size(d - 1)..]
  }

  /** The roots of the subtrees beside the way from the leaf to the root, lowest first. */
  function Siblings(h: Hash, leaves: seq<nat>, bits: seq<nat>): (s: seq<nat>)
    requires Binary(bits) && |leaves| == Size(|bits|)
    ensures |s| == |bits|
  {
    if bits == [] then []
    else
      var d, top := |bits|, bits[|bits| - 1];
      Siblings(h, Half(leaves, d, top), bits[..d - 1]) + [TreeRoot(h, Half(leaves, d, 1 - top), d - 1)]
  }

  /** The bytes of a leaf and of the siblings on its way. */
  ghost predicate PathOf(h: Hash, leaves: seq<nat>, leaf: seq<nat>, path: seq<seq<nat>>, bits: seq<nat>) {
    && Binary(bits) && |leaves| == Size(|bits|) && |path| == |bits|
    && Value(256, leaf) == leaves[Index(bits)]
    && forall k :: 0 <= k < |path| ==> Value(256, path[k]) == Siblings(h, leaves, bits)[k]
  }

  lemma {:induction false} FoldPrefix(h: Hash, leaf: seq<nat>, path: seq<seq<nat>>, bits: seq<nat>, n: nat, k: nat)
    requires k <= n <= |path| == |bits|
    ensures Fold(h, leaf, path[..n], bits[..n], k) == Fold(h, leaf, path, bits, k)
    decreases k
  {
    if k > 0 {
      FoldPrefix(h, leaf, path, bits, n, k - 1);
    }
  }

  lemma HalfAt(leaves: seq<nat>, d: nat, bit: nat, i: nat)
    requires d > 0 && |leaves| == Size(d) && (bit == 0 || bit == 1) && i < Size(d - 1)
    ensures Size(d) == Size(d - 1) + Size(d - 1)
    ensures Half(leaves, d, bit)[i] == leaves[i + if bit == 1 then Size(d - 1) else 0]
  {
  }

  lemma LeafInHalf(leaves: seq<nat>, bits: seq<nat>)
    requires Binary(bits) && |leaves| == Size(|bits|) && bits != []
    ensures
      var d := |bits|;
      Binary(bits[..d - 1]) && Half(leaves, d, bits[d - 1])[Index(bits[..d - 1])] == leaves[Index(bits)]
  {
    hide Size, Half;
    var d := |bits|;
    HalfAt(leaves, d, bits[d - 1], Index(bits[..d - 1]));
  }

  lemma SiblingsSnoc(h: Hash, leaves: seq<nat>, bits: seq<nat>)
    requires Binary(bits) && |leaves| == Size(|bits|) && bits != []
    ensures
      var d, top := |bits|, bits[|bits| - 1];
      && Binary(bits[..d - 1])
      && Siblings(h, leaves, bits)
         == Siblings(h, Half(leaves, d, top), bits[..d - 1]) + [TreeRoot(h, Half(leaves, d, 1 - top), d - 1)]
  {
    hide TreeRoot, Half, Size, Index;
  }

  /** Without its highest digit, the leaf lies at the same way in its half. */
  lemma PathBelow(h: Hash, leaves: seq<nat>, leaf: seq<nat>, path: seq<seq<nat>>, bits: seq<nat>)
    requires PathOf(h, leaves, leaf, path, bits) && bits != []
    ensures
      var d := |bits|;
      && |leaves| == Size(d) && (bits[d - 1] == 0 || bits[d - 1] == 1) && |path| == d
      && PathOf(h, Half(leaves, d, bits[d - 1]), leaf, path[..d - 1], bits[..d - 1])
      && Value(256, path[d - 1]) == TreeRoot(h, Half(leaves, d, 1 - bits[d - 1]), d - 1)
  {
    LeafInHalf(leaves, bits);
    SiblingsSnoc(h, leaves, bits);
    hide Value, TreeRoot, Half, Siblings, Index, Size;
    var d, top := |bits|, bits[|bits| - 1];
    var init := Siblings(h, Half(leaves, d, top), bits[..d - 1]);
    forall k | 0 <= k < d - 1 ensures Value(256, path[..d - 1][k]) == init[k] {
      assert path[..d - 1][k] == path[k] && Siblings(h, leaves, bits)[k] == init[k];
    }
    assert Siblings(h, leaves, bits)[d - 1] == TreeRoot(h, Half(leaves, d, 1 - top), d - 1);
  }

  /** The root is the hash of the two halves, on the side that the digit says. */
  lemma RootOfHalves(h: Hash, leaves: seq<nat>, d: nat, top: nat)
    requires d > 0 && |leaves| == Size(d) && (top == 0 || top == 1)
    ensures Combine(h, TreeRoot(h, Half(leaves, d, top), d - 1), TreeRoot(h, Half(leaves, d, 1 - top), d - 1), top)
         == TreeRoot(h, leaves, d)
  {
  }

  lemma FoldTop(h: Hash, leaf: seq<nat>, path: seq<seq<nat>>, bits: seq<nat>)
    requires |path| == |bits| > 0
    ensures
      var d := |bits|;
      Fold(h, leaf, path, bits, d)
      == Combine(h, Fold(h, leaf, path[..d - 1], bits[..d - 1], d - 1), Value(256, path[d - 1]), bits[d - 1])
  {
    hide Combine, Value;
    FoldPrefix(h, leaf, path, bits, |bits| - 1, |bits| - 1);
  }

  lemma FoldOfLeaf(h: Hash, leaves: seq<nat>, leaf: seq<nat>, path: seq<seq<nat>>, bits: seq<nat>)
    requires PathOf(h, leaves, leaf, path, bits)
    ensures |leaves| == Size(|bits|) && |path| == |bits|
    ensures bits == [] ==> Fold(h, leaf, path, bits, 0) == TreeRoot(h, leaves, 0)
  {
  }

  lemma {:induction false} FoldIsRoot(h: Hash, leaves: seq<nat>, leaf: seq<nat>, path: seq<seq<nat>>, bits: seq<nat>)
    requires PathOf(h, leaves, leaf, path, bits)
    ensures |leaves| == Size(|bits|) && |path| == |bits|
    ensures Fold(h, leaf, path, bits, |bits|) == TreeRoot(h, leaves, |bits|)
    decreases |bits|
  {
    FoldOfLeaf(h, leaves, leaf, path, bits);
    if bits != [] {
      PathBelow(h, leaves, leaf, path, bits);
      hide *;
      var d := |bits|;
      FoldIsRoot(h, Half(leaves, d, bits[d - 1]), leaf, path[..d - 1], bits[..d - 1]);
      FoldTop(h, leaf, path, bits);
      RootOfHalves(h, leaves, d, bits[d - 1]);
    }
  }

  /** Completeness: any leaf of the tree, folded along its index, gives the bytes of the tree root. */
  lemma FoldReachesRoot(h: Hash, leaves: seq<nat>, leaf: seq<nat>, path: seq<seq<nat>>, bits: seq<nat>)
    requires PathOf(h, leaves, leaf, path, bits)
    ensures |leaves| == Size(|bits|) && |path| == |bits|
    ensures Root(h, leaf, path, bits) == Fixed(256, 32, TreeRoot(h, leaves, |bits|))
  {
    FoldIsRoot(h, leaves, leaf, path, bits);
  }

  // ----- every leaf has a path -----

  lemma RootBounded(h: Hash, leaves: seq<nat>, d: nat)
    requires |leaves| == Size(d) && Bounded(h) && forall n <- leaves :: n < Bound()
    ensures TreeRoot(h, leaves, d) < Bound()
  {
    hide Bound;
    assert d == 0 ==> leaves[0] in leaves;
  }

  lemma {:induction false} SiblingsBounded(h: Hash, leaves: seq<nat>, bits: seq<nat>)
    requires Binary(bits) && |leaves| == Size(|bits|) && Bounded(h) && forall n <- leaves :: n < Bound()
    ensures forall k :: 0 <= k < |bits| ==> Siblings(h, leaves, bits)[k] < Bound()
    decreases |bits|
  {
    hide Bound, TreeRoot, Bounded;
    if bits != [] {
      var d, top := |bits|, bits[|bits| - 1];
      assert forall n :: n in Half(leaves, d, 0) || n in Half(leaves, d, 1) ==> n in leaves;
      assert top == 0 || top == 1;
      SiblingsBounded(h, Half(leaves, d, top), bits[..d - 1]);
      RootBounded(h, Half(leaves, d, 1 - top), d - 1);
    }
  }

  lemma {:induction false} DigitsOfIndex(i: nat, d: nat) returns (bits: seq<nat>)
    requires i < Size(d)
    ensures |bits| == d && Binary(bits) && Index(bits) == i
    decreases d
  {
    if d == 0 {
      return [];
    }
    var top := if i < Size(d - 1) then 0 else 1;
    var init := DigitsOfIndex(if top == 0 then i else i - Size(d - 1), d - 1);
    bits := init + [top];
    assert bits[..d - 1] == init;
  }

  lemma EncodeAll(ns: seq<nat>) returns (path: seq<seq<nat>>)
    requires forall k :: 0 <= k < |ns| ==> ns[k] < Bound()
    ensures |path| == |ns|
    ensures forall k :: 0 <= k < |ns| ==> Value(256, path[k]) == ns[k] && Bytes(path[k]) && |path[k]| == 32
  {
    hide Bound, Fixed, Value;
    path := seq(|ns|, k requires 0 <= k < |ns| => Fixed(256, 32, ns[k]));
    forall k | 0 <= k < |ns| ensures Value(256, path[k]) == ns[k] && Bytes(path[k]) && |path[k]| == 32 {
      EncodersAgree(ns[k]);
      FixedFacts(256, 32, ns[k]);
    }
  }

  /** For every leaf of a tree there is such an opening, of 32 bytes a level. */
  lemma EveryLeafOpens(h: Hash, leaves: seq<nat>, d: nat, i: nat)
      returns (leaf: seq<nat>, path: seq<seq<nat>>, bits: seq<nat>)
    requires |leaves| == Size(d) && i < Size(d) && Bounded(h) && forall n <- leaves :: n < Bound()
    ensures |bits| == d && PathOf(h, leaves, leaf, path, bits) && Opening(leaf, path) && Index(bits) == i
    ensures Root(h, leaf, path, bits) == Fixed(256, 32, TreeRoot(h, leaves, d))
  {
    hide Bound, Fixed, Value, TreeRoot;
    bits := DigitsOfIndex(i, d);
    SiblingsBounded(h, leaves, bits);
    assert leaves[i] in leaves;
    path := EncodeAll(Siblings(h, leaves, bits));
    var one := EncodeAll([leaves[i]]);
    leaf := one[0];
    FoldReachesRoot(h, leaves, leaf, path, bits);
  }
}
