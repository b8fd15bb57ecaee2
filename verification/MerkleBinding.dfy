/**
 What a Merkle root binds: an independent definition of the root, and leaf
 lists recovered from it up to a collision.
 */
module MerkleBinding {
  import opened MerkleTree

  // ---------------------------------------------------------------------
  // An independent definition of the root: a perfect binary tree, split in
  // halves from the top, over the leaves padded to a power of two
  // ---------------------------------------------------------------------

  /** The root of a perfect tree of depth `d`, defined by halving. */
  ghost function PerfectRoot(h: Hasher, d: nat, xs: seq<Hash256>): Hash256
    requires |xs| == Pow2(d)
    decreases d
  {
    if d == 0 then xs[0]
    else
      var half := Pow2(d - 1);
      h.combine(PerfectRoot(h, d - 1, xs[..half]), PerfectRoot(h, d - 1, xs[half..]))
  }

  /** The leaf that stands at position `j` of the padded bottom layer. */
  ghost function PadIndex(n: nat, j: nat): (i: nat)
    requires 0 < n && j < Pow2(Depth(n))
    ensures i < n
    decreases n
  {
    if n == 1 then 0
    else
      var up := PadIndex(HalfUp(n), j / 2);
      if 2 * up + j % 2 < n then 2 * up + j % 2 else 2 * up
  }

  ghost function Padded(xs: seq<Hash256>): (p: seq<Hash256>)
    requires xs != []
    ensures |p| == Pow2(Depth(|xs|))
  {
    seq(Pow2(Depth(|xs|)), j requires 0 <= j < Pow2(Depth(|xs|)) => xs[PadIndex(|xs|, j)])
  }

  /** A perfect tree can be reduced pair by pair from the bottom. */
  lemma {:induction false} PerfectRootOfNextLayer(h: Hasher, d: nat, xs: seq<Hash256>)
    requires d > 0 && |xs| == Pow2(d)
    ensures |NextLayer(h, xs)| == Pow2(d - 1)
    ensures PerfectRoot(h, d, xs) == PerfectRoot(h, d - 1, NextLayer(h, xs))
    decreases d
  {
    if d > 1 {
      var half := Pow2(d - 1);
      PerfectRootOfNextLayer(h, d - 1, xs[..half]);
      PerfectRootOfNextLayer(h, d - 1, xs[half..]);
      var up := NextLayer(h, xs);
      assert up[..Pow2(d - 2)] == NextLayer(h, xs[..half]);
      assert up[Pow2(d - 2)..] == NextLayer(h, xs[half..]);
    }
  }

  /** Padding commutes with reducing one layer. */
  lemma {:induction false} PaddedNextLayer(h: Hasher, xs: seq<Hash256>)
    requires |xs| > 1
    ensures NextLayer(h, Padded(xs)) == Padded(NextLayer(h, xs))
  {
    var p, up := Padded(xs), NextLayer(h, xs);
    forall i | 0 <= i < Pow2(Depth(|up|))
      ensures NextLayer(h, p)[i] == Padded(up)[i]
    {
      assert (2 * i) / 2 == i && (2 * i + 1) / 2 == i && (2 * i) % 2 == 0 && (2 * i + 1) % 2 == 1;
    }
  }

  /** The layered root is the root of the perfect tree over the padded leaves. */
  lemma {:induction false} RootIsPerfectRoot(h: Hasher, xs: seq<Hash256>)
    requires xs != []
    ensures RootOf(h, xs) == PerfectRoot(h, Depth(|xs|), Padded(xs))
    decreases |xs|
  {
    if |xs| > 1 {
      PaddedNextLayer(h, xs);
      PerfectRootOfNextLayer(h, Depth(|xs|), Padded(xs));
      RootIsPerfectRoot(h, NextLayer(h, xs));
    }
  }

  // ---------------------------------------------------------------------
  // Binding
  // ---------------------------------------------------------------------

  lemma {:induction false} PerfectBinding(h: Hasher, d: nat, xs: seq<Hash256>, ys: seq<Hash256>) returns (c: Collision)
    requires |xs| == |ys| == Pow2(d)
    requires PerfectRoot(h, d, xs) == PerfectRoot(h, d, ys)
    ensures xs == ys || Collides(h, c)
    decreases d
  {
    if d == 0 {
      assert xs == [xs[0]] && ys == [ys[0]];
      c := Collision(xs[0], xs[0], xs[0], xs[0]);
    } else {
      var half := Pow2(d - 1);
      var l, r := PerfectRoot(h, d - 1, xs[..half]), PerfectRoot(h, d - 1, xs[half..]);
      var l', r' := PerfectRoot(h, d - 1, ys[..half]), PerfectRoot(h, d - 1, ys[half..]);
      if (l, r) != (l', r') {
        c := Collision(l, r, l', r');
      } else {
        c := PerfectBinding(h, d - 1, xs[..half], ys[..half]);
        if xs[..half] == ys[..half] {
          c := PerfectBinding(h, d - 1, xs[half..], ys[half..]);
          assert xs == xs[..half] + xs[half..] && ys == ys[..half] + ys[half..];
        }
      }
    }
  }

  /** A place of the padded layer that shows leaf `i`. */
  ghost function Slot(n: nat, i: nat): (j: nat)
    requires i < n
    ensures j < Pow2(Depth(n)) && PadIndex(n, j) == i
    decreases n
  {
    if n == 1 then 0
    else
      var j := 2 * Slot(HalfUp(n), i / 2) + i % 2;
      assert j / 2 == Slot(HalfUp(n), i / 2) && j % 2 == i % 2;
      j
  }

  /** Trees of one depth have one root exactly when their padded leaf layers agree, up to a collision. */
  lemma {:induction false} SameDepthAgree(h: Hasher, xs: seq<Hash256>, ys: seq<Hash256>) returns (c: Collision)
    requires xs != [] && ys != [] && Depth(|xs|) == Depth(|ys|)
    ensures Padded(xs) == Padded(ys) ==> RootOf(h, xs) == RootOf(h, ys)
    ensures RootOf(h, xs) == RootOf(h, ys) ==> Padded(xs) == Padded(ys) || Collides(h, c)
  {
    RootIsPerfectRoot(h, xs);
    RootIsPerfectRoot(h, ys);
    c := Collision(xs[0], xs[0], xs[0], xs[0]);
    if RootOf(h, xs) == RootOf(h, ys) {
      c := PerfectBinding(h, Depth(|xs|), Padded(xs), Padded(ys));
    }
  }

  /**
   The layer from which the tree over `xs` has at most `d` layers above it:
   `xs` itself, or a layer of inner hashes.
   */
  function LayerAt(h: Hasher, xs: seq<Hash256>, d: nat): (layer: seq<Hash256>)
    requires xs != []
    ensures layer != []
    ensures Depth(|layer|) == if Depth(|xs|) <= d then Depth(|xs|) else d
    ensures Depth(|xs|) > d ==> |layer| < |xs|
    decreases |xs|
  {
    if Depth(|xs|) <= d then xs else LayerAt(h, NextLayer(h, xs), d)
  }

  lemma {:induction false} LayerKeepsRoot(h: Hasher, xs: seq<Hash256>, d: nat)
    requires xs != []
    ensures RootOf(h, LayerAt(h, xs, d)) == RootOf(h, xs)
    decreases |xs|
  {
    if Depth(|xs|) > d {
      LayerKeepsRoot(h, NextLayer(h, xs), d);
    }
  }

  /** Two trees cut down to the depth of the shallower one have the same padded bottom layer. */
  ghost predicate SameLayer(h: Hasher, xs: seq<Hash256>, ys: seq<Hash256>) {
    var a, b := Bottom(h, xs), Bottom(h, ys);
    var d := if Depth(|a|) <= Depth(|b|) then Depth(|a|) else Depth(|b|);
    Padded(LayerAt(h, a, d)) == Padded(LayerAt(h, b, d))
  }

  /**
   What a root binds, for leaf lists of any two lengths: the roots agree
   exactly when the layers at the depth of the shallower tree do, up to a
   collision that the lemma hands back. A deeper tree passes for a shallower
   one whose leaves are its inner hashes.
   */
  lemma {:induction false} RootsAgree(h: Hasher, xs: seq<Hash256>, ys: seq<Hash256>) returns (c: Collision)
    ensures SameLayer(h, xs, ys) ==> TreeRoot(h, xs) == TreeRoot(h, ys)
    ensures TreeRoot(h, xs) == TreeRoot(h, ys) ==> SameLayer(h, xs, ys) || Collides(h, c)
  {
    var a, b := Bottom(h, xs), Bottom(h, ys);
    var d := if Depth(|a|) <= Depth(|b|) then Depth(|a|) else Depth(|b|);
    LayerKeepsRoot(h, a, d);
    LayerKeepsRoot(h, b, d);
    c := SameDepthAgree(h, LayerAt(h, a, d), LayerAt(h, b, d));
  }

  /** Binding: leaf lists of one length with one root are equal, or a collision is found. */
  lemma {:induction false} Binding(h: Hasher, xs: seq<Hash256>, ys: seq<Hash256>) returns (c: Collision)
    requires |xs| == |ys| > 0
    requires RootOf(h, xs) == RootOf(h, ys)
    ensures xs == ys || Collides(h, c)
  {
    c := SameDepthAgree(h, xs, ys);
    if Padded(xs) == Padded(ys) {
      forall i | 0 <= i < |xs|
        ensures xs[i] == ys[i]
      {
        var j := Slot(|xs|, i);
        assert Padded(xs)[j] == xs[i] && Padded(ys)[j] == ys[i];
      }
    }
  }

  /** The trees of no leaf and of one: the hash of "empty", and the leaf itself. */
  lemma {:induction false} SmallTrees(h: Hasher, leaf: Hash256)
    ensures TreeRoot(h, []) == h.empty && TreeRoot(h, [leaf]) == leaf
  {
  }

  /** An inner hash passes for a leaf: the pair is hashed without a tag, so two leaves and their hash have one root. */
  lemma {:induction false} InnerHashAsLeaf(h: Hasher, a: Hash256, b: Hash256)
    ensures TreeRoot(h, [a, b]) == TreeRoot(h, [h.combine(a, b)])
  {
    assert NextLayer(h, [a, b]) == [h.combine(a, b)];
  }

  /** Every layer above the leaves is the leaf list of another tree with the same root. */
  lemma {:induction false} LayersAsLeaves(h: Hasher, xs: seq<Hash256>, d: nat)
    requires xs != [] && d < Depth(|xs|)
    ensures TreeRoot(h, LayerAt(h, xs, d)) == TreeRoot(h, xs)
    ensures |LayerAt(h, xs, d)| < |xs|
  {
    LayerKeepsRoot(h, xs, d);
  }

  /**
   Padding hides a repetition: an odd list and the same list with its last
   leaf repeated have one root under every hasher.
   */
  lemma {:induction false} RepeatedLastLeaf(h: Hasher, xs: seq<Hash256>)
    requires |xs| % 2 == 1 && |xs| > 1
    ensures TreeRoot(h, xs) == TreeRoot(h, xs + [xs[|xs| - 1]])
    ensures xs != xs + [xs[|xs| - 1]]
  {
    var ys := xs + [xs[|xs| - 1]];
    assert NextLayer(h, xs) == NextLayer(h, ys);
  }
}
