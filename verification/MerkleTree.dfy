/**
 Merkle trees over leaf hashes: layers, roots and collisions.

 The two library hashes the trees are built from are parameters: `Hasher`
 carries the pair-combining function and the hash of the empty tree.
 Facts that hold of a cryptographic hash only are stated for every hasher as
 "... or here is a collision".
 */
module MerkleTree {
  datatype Hash256 = Hash256(bytes: seq<bv8>)

  datatype Hasher = Hasher(combine: (Hash256, Hash256) -> Hash256, empty: Hash256)

  /** Sibling hash, and whether the sibling is the right operand. */
  datatype Step = Step(sibling: Hash256, isRight: bool)

  datatype MerkleProof = MerkleProof(leaf: Hash256, siblings: seq<Step>, root: Hash256)

  /** Two different pairs of hashes. */
  datatype Collision = Collision(left: Hash256, right: Hash256, left': Hash256, right': Hash256)

  ghost predicate Collides(h: Hasher, c: Collision) {
    && (c.left, c.right) != (c.left', c.right')
    && h.combine(c.left, c.right) == h.combine(c.left', c.right')
  }

  // ---------------------------------------------------------------------
  // Layers
  // ---------------------------------------------------------------------

  function HalfUp(n: nat): nat {
    (n + 1) / 2
  }

  /** The hash above elements 2i and 2i + 1; an unpaired last element is paired with itself. */
  function Parent(h: Hasher, layer: seq<Hash256>, i: nat): Hash256
    requires i < HalfUp(|layer|)
  {
    h.combine(layer[2 * i], layer[if 2 * i + 1 < |layer| then 2 * i + 1 else 2 * i])
  }

  /** The layer above `layer`. */
  function NextLayer(h: Hasher, layer: seq<Hash256>): (next: seq<Hash256>)
    ensures |next| == HalfUp(|layer|)
    ensures forall i :: 0 <= i < HalfUp(|layer|) ==> next[i] == Parent(h, layer, i)
  {
    seq(HalfUp(|layer|), i requires 0 <= i < HalfUp(|layer|) => Parent(h, layer, i))
  }

  /** All layers from `layer` to the root. */
  function Layers(h: Hasher, layer: seq<Hash256>): (layers: seq<seq<Hash256>>)
    requires layer != []
    ensures layers != [] && layers[0] == layer
    decreases |layer|
  {
    if |layer| == 1 then [layer] else [layer] + Layers(h, NextLayer(h, layer))
  }

  function RootOf(h: Hasher, layer: seq<Hash256>): Hash256
    requires layer != []
    decreases |layer|
  {
    if |layer| == 1 then layer[0] else RootOf(h, NextLayer(h, layer))
  }

  /** The bottom layer of a tree; the empty tree has the hash of "empty" there. */
  function Bottom(h: Hasher, leaves: seq<Hash256>): (layer: seq<Hash256>)
    ensures layer != []
  {
    if leaves == [] then [h.empty] else leaves
  }

  /** The layers of the tree over `leaves`. */
  function TreeLayers(h: Hasher, leaves: seq<Hash256>): (layers: seq<seq<Hash256>>)
    ensures layers != []
  {
    Layers(h, Bottom(h, leaves))
  }

  function TreeRoot(h: Hasher, leaves: seq<Hash256>): Hash256 {
    RootOf(h, Bottom(h, leaves))
  }

  /** Number of layers above the leaves of a tree with `n` leaves. */
  function Depth(n: nat): nat
    requires n > 0
    decreases n
  {
    if n == 1 then 0 else 1 + Depth(HalfUp(n))
  }

  function Pow2(d: nat): (p: nat)
    ensures p > 0
  {
    if d == 0 then 1 else 2 * Pow2(d - 1)
  }
}
