/**
 * Merkle path folding: a commitment is hashed with one sibling per level, on the side its index bit
 * says, up to a 32-byte root.  The two-input hash is a parameter.
 */
module MerkleFold {
  import opened Numerals
  import opened BigEndian

  type Hash = (nat, nat) -> nat

  /** The pair that is hashed at one level: bit 0 puts the current node on the left. */
  function Node(current: nat, sibling: nat, bit: nat): (nat, nat) {
    if bit == 0 then (current, sibling) else (sibling, current)
  }

  function Combine(h: Hash, current: nat, sibling: nat, bit: nat): nat {
    h(Node(current, sibling, bit).0, Node(current, sibling, bit).1)
  }

  /** The node after the first k levels. */
  function Fold(h: Hash, leaf: seq<nat>, path: seq<seq<nat>>, bits: seq<nat>, k: nat): nat
    requires k <= |path| == |bits|
  {
    if k == 0 then Value(256, leaf)
    else Combine(h, Fold(h, leaf, path, bits, k - 1), Value(256, path[k - 1]), bits[k - 1])
  }

  function Root(h: Hash, leaf: seq<nat>, path: seq<seq<nat>>, bits: seq<nat>): seq<nat>
    requires |path| == |bits|
  {
    Fixed(256, 32, Fold(h, leaf, path, bits, |path|))
  }

  /** The fold of the proof generator, from commitment bytes to root bytes. */
  method MerkleRoot(h: Hash, commitment: seq<nat>, path: seq<seq<nat>>, bits: seq<nat>) returns (root: array<nat>)
    requires Bytes(commitment) && |path| == |bits| && forall p <- path :: Bytes(p)
    ensures fresh(root) && root[..] == Root(h, commitment, path, bits)
  {
    var currentHash := BytesToBigint(commitment);
    for i := 0 to |path|
      invariant currentHash == Fold(h, commitment, path, bits, i)
    {
      assert path[i] in path;
      var sibling := BytesToBigint(path[i]);
      if bits[i] == 0 {
        currentHash := h(currentHash, sibling);
      } else {
        currentHash := h(sibling, currentHash);
      }
    }
    root := BigintToBytes32(currentHash);
  }

  // ----- binding -----

  /** Two different pairs with one hash, met at the same level of two openings. */
  predicate CollisionAt(h: Hash, leaf: seq<nat>, path: seq<seq<nat>>, leaf': seq<nat>, path': seq<seq<nat>>,
                        bits: seq<nat>, k: nat)
    requires k < |path| == |path'| == |bits|
  {
    var a := Node(Fold(h, leaf, path, bits, k), Value(256, path[k]), bits[k]);
    var b := Node(Fold(h, leaf', path', bits, k), Value(256, path'[k]), bits[k]);
    a != b && h(a.0, a.1) == h(b.0, b.1)
  }

  /** A commitment of 32 bytes, a path of 32-byte siblings, and a hash that stays below 2^256. */
  ghost predicate Opening(leaf: seq<nat>, path: seq<seq<nat>>) {
    && Bytes(leaf) && |leaf| == 32
    && forall i :: 0 <= i < |path| ==> Bytes(path[i]) && |path[i]| == 32
  }

  ghost predicate Bounded(h: Hash) {
    forall a, b :: h(a, b) < Bound()
  }

  lemma ValueInjective(a: seq<nat>, b: seq<nat>)
    requires Bytes(a) && Bytes(b) && |a| == |b| == 32
    requires Value(256, a) == Value(256, b)
    ensures a == b
  {
    hide Value, Fixed, Bound;
    DecodeThenEncode(a);
    DecodeThenEncode(b);
  }

  /** Equal nodes at level k mean equal openings below it, or a collision met on the way. */
  lemma {:induction false} EqualNodes(h: Hash, leaf: seq<nat>, path: seq<seq<nat>>,
                                      leaf': seq<nat>, path': seq<seq<nat>>, bits: seq<nat>, k: nat)
    requires k <= |path| == |path'| == |bits|
    requires Opening(leaf, path) && Opening(leaf', path')
    requires Fold(h, leaf, path, bits, k) == Fold(h, leaf', path', bits, k)
    requires forall i :: 0 <= i < k ==> !CollisionAt(h, leaf, path, leaf', path', bits, i)
    ensures leaf == leaf' && path[..k] == path'[..k]
  {
    if k == 0 {
      ValueInjective(leaf, leaf');
    } else {
      assert !CollisionAt(h, leaf, path, leaf', path', bits, k - 1);
      ValueInjective(path[k - 1], path'[k - 1]);
      EqualNodes(h, leaf, path, leaf', path', bits, k - 1);
      assert path[..k] == path[..k - 1] + [path[k - 1]];
      assert path'[..k] == path'[..k - 1] + [path'[k - 1]];
    }
  }

  /**
   * Binding at every depth: two openings along the same index bits with the same root bytes agree in
   * the leaf and in every sibling, or some level of the two openings exhibits a hash collision.
   */
  lemma PathBinding(h: Hash, leaf: seq<nat>, path: seq<seq<nat>>,
                    leaf': seq<nat>, path': seq<seq<nat>>, bits: seq<nat>)
    requires |path| == |path'| == |bits|
    requires Opening(leaf, path) && Opening(leaf', path') && Bounded(h)
    requires Root(h, leaf, path, bits) == Root(h, leaf', path', bits)
    ensures (leaf == leaf' && path == path')
         || exists k :: 0 <= k < |path| && CollisionAt(h, leaf, path, leaf', path', bits, k)
  {
    var n := |path|;
    NodeFits(h, leaf, path, bits, n);
    NodeFits(h, leaf', path', bits, n);
    RootNode(h, leaf, path, bits);
    RootNode(h, leaf', path', bits);
    if forall k :: 0 <= k < n ==> !CollisionAt(h, leaf, path, leaf', path', bits, k) {
      EqualNodes(h, leaf, path, leaf', path', bits, n);
      assert path[..n] == path && path'[..n] == path';
    }
  }

  lemma NodeFits(h: Hash, leaf: seq<nat>, path: seq<seq<nat>>, bits: seq<nat>, k: nat)
    requires k <= |path| == |bits| && Opening(leaf, path) && Bounded(h)
    ensures Fold(h, leaf, path, bits, k) < Bound()
  {
    hide Bound, Value;
    if k == 0 {
      DecodeThenEncode(leaf);
    }
  }

  /** The root bytes determine the top node. */
  lemma RootNode(h: Hash, leaf: seq<nat>, path: seq<seq<nat>>, bits: seq<nat>)
    requires |path| == |bits| && Fold(h, leaf, path, bits, |path|) < Bound()
    ensures Value(256, Root(h, leaf, path, bits)) == Fold(h, leaf, path, bits, |path|)
  {
    hide Bound, Value, Fixed;
    EncodersAgree(Fold(h, leaf, path, bits, |path|));
  }
}
