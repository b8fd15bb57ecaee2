/** Inclusion proofs: what a proof is, the verifier, and what a verifying proof shows. */
module MerkleProofs {
  import opened Wrappers
  import opened MerkleTree

  function SiblingPath(h: Hasher, layer: seq<Hash256>, idx: nat): seq<Step>
    requires idx < |layer|
    decreases |layer|
  {
    if |layer| == 1 then []
    else
      var siblingIdx := if idx % 2 == 0 then idx + 1 else idx - 1;
      [Step(if siblingIdx < |layer| then layer[siblingIdx] else layer[idx], idx % 2 == 0)]
        + SiblingPath(h, NextLayer(h, layer), idx / 2)
  }

  function InclusionProof(h: Hasher, leaves: seq<Hash256>, leafIndex: nat): Option<MerkleProof> {
    var bottom := Bottom(h, leaves);
    if leafIndex >= |bottom| then None
    else Some(MerkleProof(bottom[leafIndex], SiblingPath(h, bottom, leafIndex), TreeRoot(h, leaves)))
  }

  function Climb(h: Hasher, current: Hash256, siblings: seq<Step>): Hash256
    decreases |siblings|
  {
    if siblings == [] then current
    else
      var s := siblings[0];
      Climb(h, if s.isRight then h.combine(current, s.sibling) else h.combine(s.sibling, current), siblings[1..])
  }

  predicate Verifies(h: Hasher, proof: MerkleProof) {
    Climb(h, proof.leaf, proof.siblings) == proof.root
  }

  method VerifyProof(h: Hasher, proof: MerkleProof) returns (ok: bool)
    ensures ok == Verifies(h, proof)
  {
    var current := proof.leaf;
    for k := 0 to |proof.siblings|
      invariant Climb(h, current, proof.siblings[k..]) == Climb(h, proof.leaf, proof.siblings)
    {
      var s := proof.siblings[k];
      assert proof.siblings[k..][1..] == proof.siblings[k + 1..];
      current := if s.isRight then h.combine(current, s.sibling) else h.combine(s.sibling, current);
    }
    ok := current == proof.root;
  }

  /** The k-th binary digit. */
  function Bit(n: nat, k: nat): nat {
    if k == 0 then n % 2 else Bit(n / 2, k - 1)
  }

  lemma {:induction false} SiblingPathClimbsToRoot(h: Hasher, layer: seq<Hash256>, idx: nat)
    requires idx < |layer|
    ensures Climb(h, layer[idx], SiblingPath(h, layer, idx)) == RootOf(h, layer)
    decreases |layer|
  {
    if |layer| > 1 {
      var path := SiblingPath(h, layer, idx);
      assert path[1..] == SiblingPath(h, NextLayer(h, layer), idx / 2);
      SiblingPathClimbsToRoot(h, NextLayer(h, layer), idx / 2);
    }
  }

  lemma {:induction false} SiblingPathShape(h: Hasher, layer: seq<Hash256>, idx: nat)
    requires idx < |layer|
    ensures |SiblingPath(h, layer, idx)| == Depth(|layer|)
    ensures forall k :: 0 <= k < Depth(|layer|) ==>
      SiblingPath(h, layer, idx)[k].isRight == (Bit(idx, k) == 0)
    decreases |layer|
  {
    if |layer| > 1 {
      var path := SiblingPath(h, layer, idx);
      var up := SiblingPath(h, NextLayer(h, layer), idx / 2);
      SiblingPathShape(h, NextLayer(h, layer), idx / 2);
      forall k | 0 <= k < |path|
        ensures path[k].isRight == (Bit(idx, k) == 0)
      {
        if k > 0 {
          assert path[k] == up[k - 1];
        }
      }
    }
  }

  lemma {:induction false} DepthBounds(n: nat)
    requires n > 0
    ensures n <= Pow2(Depth(n))
    ensures n > 1 ==> Pow2(Depth(n) - 1) < n
    decreases n
  {
    if n > 1 {
      DepthBounds(HalfUp(n));
    }
  }

  /**
   Completeness and shape: the proof of every leaf verifies, its directions
   are the binary digits of the leaf's index, and its length is the least d
   with 2^d at least the number of leaves.
   */
  lemma {:induction false} ProofComplete(h: Hasher, leaves: seq<Hash256>, i: nat)
    requires i < |leaves|
    ensures InclusionProof(h, leaves, i).Some?
    ensures var p := InclusionProof(h, leaves, i).value;
      && p.leaf == leaves[i] && p.root == TreeRoot(h, leaves)
      && Verifies(h, p)
      && (forall k :: 0 <= k < |p.siblings| ==> p.siblings[k].isRight == (Bit(i, k) == 0))
      && |leaves| <= Pow2(|p.siblings|)
      && (|leaves| > 1 ==> |p.siblings| > 0 && Pow2(|p.siblings| - 1) < |leaves|)
  {
    SiblingPathClimbsToRoot(h, leaves, i);
    SiblingPathShape(h, leaves, i);
    DepthBounds(|leaves|);
  }

  /** A proof exists exactly for the leaf indices; the empty tree shows one leaf, the hash of "empty". */
  lemma {:induction false} ProofExists(h: Hasher, leaves: seq<Hash256>, i: nat)
    ensures InclusionProof(h, leaves, i).Some? <==> i < |leaves| || (leaves == [] && i == 0)
    ensures InclusionProof(h, leaves, i).Some? ==> Verifies(h, InclusionProof(h, leaves, i).value)
  {
    var bottom := Bottom(h, leaves);
    if i < |bottom| {
      SiblingPathClimbsToRoot(h, bottom, i);
    }
  }

  ghost predicate SameDirections(s: seq<Step>, t: seq<Step>) {
    |s| == |t| && forall k :: 0 <= k < |s| ==> s[k].isRight == t[k].isRight
  }

  lemma {:induction false} ClimbBinding(h: Hasher, x: Hash256, s: seq<Step>, y: Hash256, t: seq<Step>)
    returns (c: Collision)
    requires SameDirections(s, t)
    requires Climb(h, x, s) == Climb(h, y, t)
    ensures (x == y && s == t) || Collides(h, c)
    decreases |s|
  {
    if s == [] {
      c := Collision(x, x, x, x);
    } else {
      var p, q := s[0], t[0];
      var x' := if p.isRight then h.combine(x, p.sibling) else h.combine(p.sibling, x);
      var y' := if q.isRight then h.combine(y, q.sibling) else h.combine(q.sibling, y);
      c := ClimbBinding(h, x', s[1..], y', t[1..]);
      if x' == y' && s[1..] == t[1..] {
        c := if p.isRight then Collision(x, p.sibling, y, q.sibling) else Collision(p.sibling, x, q.sibling, y);
        assert s == [p] + s[1..] && t == [q] + t[1..];
      }
    }
  }

  /** Two verifying proofs with one root and one set of directions agree, or yield a collision. */
  lemma {:induction false} ProofBinding(h: Hasher, p: MerkleProof, q: MerkleProof) returns (c: Collision)
    requires Verifies(h, p) && Verifies(h, q)
    requires p.root == q.root && SameDirections(p.siblings, q.siblings)
    ensures (p.leaf == q.leaf && p.siblings == q.siblings) || Collides(h, c)
  {
    c := ClimbBinding(h, p.leaf, p.siblings, q.leaf, q.siblings);
  }

  /**
   Soundness: a verifying proof against the root of a tree, whose directions
   spell the index i with as many steps as the tree is deep, proves the leaf
   that stands at i, or yields a collision.
   */
  lemma {:induction false} ProofSound(h: Hasher, leaves: seq<Hash256>, i: nat, p: MerkleProof) returns (c: Collision)
    requires i < |leaves|
    requires Verifies(h, p) && p.root == TreeRoot(h, leaves)
    requires |p.siblings| == Depth(|leaves|)
    requires forall k :: 0 <= k < |p.siblings| ==> p.siblings[k].isRight == (Bit(i, k) == 0)
    ensures p.leaf == leaves[i] || Collides(h, c)
  {
    ProofComplete(h, leaves, i);
    SiblingPathShape(h, leaves, i);
    c := ProofBinding(h, p, InclusionProof(h, leaves, i).value);
  }
}
