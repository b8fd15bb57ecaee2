/** The loops: the layered builder, the proof generator and the in-place reducer. */
module MerkleBuilder {
  import opened Wrappers
  import opened MerkleTree
  import opened MerkleProofs

  // ---------------------------------------------------------------------
  // Building
  // ---------------------------------------------------------------------

  lemma {:induction false} LayersShape(h: Hasher, layer: seq<Hash256>)
    requires layer != []
    ensures |Layers(h, layer)| == Depth(|layer|) + 1
    ensures Layers(h, layer)[Depth(|layer|)] == [RootOf(h, layer)]
    decreases |layer|
  {
    if |layer| > 1 {
      LayersShape(h, NextLayer(h, layer));
    } else {
      assert layer == [layer[0]];
    }
  }

  /** Dropping the bottom layer leaves the layers above it. */
  lemma {:induction false} LayersAbove(h: Hasher, layers: seq<seq<Hash256>>)
    requires |layers| > 1 && layers[0] != [] && layers == Layers(h, layers[0])
    ensures |layers[0]| > 1 && layers[1] == NextLayer(h, layers[0])
    ensures layers[1..] == Layers(h, layers[1])
  {
  }

  method BuildNextLayer(h: Hasher, current: seq<Hash256>) returns (next: seq<Hash256>)
    ensures next == NextLayer(h, current)
  {
    next := [];
    var i := 0;
    while i < |current|
      invariant i % 2 == 0 && i <= |current| + 1
      invariant |next| == i / 2
      invariant next == NextLayer(h, current)[..i / 2]
    {
      var left := current[i];
      var right := if i + 1 < |current| then current[i + 1] else left;
      assert NextLayer(h, current)[i / 2] == h.combine(left, right);
      next := next + [h.combine(left, right)];
      i := i + 2;
    }
  }

  lemma {:induction false} PushLayer(h: Hasher, layers: seq<seq<Hash256>>, next: seq<Hash256>)
    requires layers != [] && |layers[|layers| - 1]| > 1 && next == NextLayer(h, layers[|layers| - 1])
    ensures (layers + [next])[..|layers|] + Layers(h, next)
         == layers[..|layers| - 1] + Layers(h, layers[|layers| - 1])
  {
    var last := layers[|layers| - 1];
    assert layers == layers[..|layers| - 1] + [last];
    assert (layers + [next])[..|layers|] == layers;
    assert Layers(h, last) == [last] + Layers(h, next);
  }

  lemma {:induction false} Shift(done: seq<Step>, step: Step, rest: seq<Step>)
    ensures done + ([step] + rest) == (done + [step]) + rest
  {
  }

  /** The loop of the proof generator: one sibling a layer, halving the index. */
  method CollectSiblings(h: Hasher, layers: seq<seq<Hash256>>, leafIndex: nat) returns (siblings: seq<Step>)
    requires layers != [] && leafIndex < |layers[0]| && layers == Layers(h, layers[0])
    ensures siblings == SiblingPath(h, layers[0], leafIndex)
  {
    siblings := [];
    var idx: nat := leafIndex;
    LayersShape(h, layers[0]);
    assert layers[0..] == layers;
    for k := 0 to |layers| - 1
      invariant idx < |layers[k]|
      invariant layers[k..] == Layers(h, layers[k])
      invariant siblings + SiblingPath(h, layers[k], idx) == SiblingPath(h, layers[0], leafIndex)
    {
      LayersAbove(h, layers[k..]);
      assert layers[k..][1..] == layers[k + 1..];
      var layer := layers[k];
      var siblingIdx := if idx % 2 == 0 then idx + 1 else idx - 1;
      var step := Step(if siblingIdx < |layer| then layer[siblingIdx] else layer[idx], idx % 2 == 0);
      Shift(siblings, step, SiblingPath(h, layers[k + 1], idx / 2));
      siblings := siblings + [step];
      idx := idx / 2;
    }
    assert |layers[|layers| - 1]| == 1 && siblings + [] == siblings;
  }

  class Tree {
    const hasher: Hasher
    /** The leaves the tree was built from. */
    ghost const leaves: seq<Hash256>
    var layers: seq<seq<Hash256>>

    ghost predicate Valid()
      reads this
    {
      layers == TreeLayers(hasher, leaves)
    }

    constructor FromHashes(h: Hasher, hashes: seq<Hash256>)
      ensures Valid() && hasher == h && leaves == hashes
    {
      hasher, leaves := h, hashes;
      layers := [];
      new;
      if hashes == [] {
        layers := [[hasher.empty]];
        return;
      }
      layers := [hashes];
      while |layers[|layers| - 1]| != 1
        invariant layers != [] && layers[|layers| - 1] != []
        invariant layers[..|layers| - 1] + Layers(hasher, layers[|layers| - 1]) == Layers(hasher, hashes)
        decreases |layers[|layers| - 1]|
      {
        var next := BuildNextLayer(hasher, layers[|layers| - 1]);
        PushLayer(hasher, layers, next);
        layers := layers + [next];
      }
      assert layers == layers[..|layers| - 1] + [layers[|layers| - 1]];
    }

    method Root() returns (root: Hash256)
      requires Valid()
      ensures root == TreeRoot(hasher, leaves)
    {
      LayersShape(hasher, Bottom(hasher, leaves));
      root := layers[|layers| - 1][0];
    }

    method Proof(leafIndex: nat) returns (proof: Option<MerkleProof>)
      requires Valid()
      ensures proof == InclusionProof(hasher, leaves, leafIndex)
    {
      if leafIndex >= |layers[0]| {
        return None;
      }
      assert layers == Layers(hasher, layers[0]);
      var siblings := CollectSiblings(hasher, layers, leafIndex);
      var root := Root();
      proof := Some(MerkleProof(layers[0][leafIndex], siblings, root));
    }
  }

  // ---------------------------------------------------------------------
  // The in-place reducer
  // ---------------------------------------------------------------------

  /** A growable vector: the first `len` cells of `data` are live. */
  class HashBuffer {
    var data: array<Hash256>
    var len: nat

    ghost predicate Valid()
      reads this
    {
      len <= data.Length
    }

    ghost function Contents(): seq<Hash256>
      requires Valid()
      reads this, data
    {
      data[..len]
    }

    constructor (hashes: seq<Hash256>)
      ensures Valid() && fresh(data) && Contents() == hashes
    {
      data := new Hash256[|hashes|](i requires 0 <= i < |hashes| => hashes[i]);
      len := |hashes|;
    }
  }

  /** Overwrites the front of the level it is reading with the level above. */
  method ReduceLevel(h: Hasher, data: array<Hash256>, width: nat)
    requires 1 < width <= data.Length
    modifies data
    ensures data[..HalfUp(width)] == NextLayer(h, old(data[..width]))
  {
    ghost var layer := data[..width];
    for writeIndex := 0 to HalfUp(width)
      invariant data[..writeIndex] == NextLayer(h, layer)[..writeIndex]
      invariant forall k :: writeIndex <= k < width ==> data[k] == layer[k]
    {
      var leftIndex := writeIndex * 2;
      var rightIndex := if leftIndex + 1 < width - 1 then leftIndex + 1 else width - 1;
      assert NextLayer(h, layer)[writeIndex] == h.combine(data[leftIndex], data[rightIndex]);
      data[writeIndex] := h.combine(data[leftIndex], data[rightIndex]);
    }
  }

  /** Reduces the buffer in place, level by level, and truncates it. */
  method RootFromHashesInPlace(h: Hasher, hashes: HashBuffer) returns (root: Hash256)
    requires hashes.Valid()
    modifies hashes`len, hashes.data
    ensures hashes.Valid() && hashes.data == old(hashes.data)
    ensures root == TreeRoot(h, old(hashes.Contents()))
    ensures hashes.Contents() == if old(hashes.len) == 0 then [] else [root]
  {
    if hashes.len == 0 {
      return h.empty;
    }
    ghost var leaves := hashes.Contents();
    while hashes.len > 1
      invariant 0 < hashes.len <= hashes.data.Length && hashes.data == old(hashes.data)
      invariant RootOf(h, hashes.data[..hashes.len]) == RootOf(h, leaves)
    {
      ReduceLevel(h, hashes.data, hashes.len);
      hashes.len := HalfUp(hashes.len);
    }
    root := hashes.data[0];
    assert hashes.data[..1] == [hashes.data[0]];
  }
}
