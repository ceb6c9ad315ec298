/** The Merkle tree of the anchoring service: construction, proof generation, stand-alone verification. */
module MerkleTrees {
  import opened Foundations
  import opened MerkleLevels

  function PairHash(h: Hash): (Bytes, Bytes) -> Bytes {
    (left: Bytes, right: Bytes) => h(left + right)
  }

  function HashLeaf(h: Hash, leaf: string): Digest {
    h(Utf8(leaf))
  }

  function HashLeaves(h: Hash, leaves: seq<string>): (hashed: seq<Bytes>)
    ensures |hashed| == |leaves|
  {
    seq(|leaves|, k requires 0 <= k < |leaves| => HashLeaf(h, leaves[k]))
  }

  function TreeRoot(h: Hash, leaves: seq<string>): Bytes
    requires |leaves| > 0
  {
    Root(PairHash(h), HashLeaves(h, leaves))
  }

  datatype MerkleProof = MerkleProof(
    leaf: string,
    leafHash: Bytes,
    proofHashes: seq<Bytes>,
    directions: seq<Direction>,
    root: Bytes)

  /** The proof that the tree over the given leaves issues for one position. */
  function ProofOf(h: Hash, leaves: seq<string>, index: nat): MerkleProof
    requires index < |leaves|
  {
    var hashed := HashLeaves(h, leaves);
    var levels := Levels(PairHash(h), hashed);
    LevelsWellShaped(PairHash(h), hashed);
    MerkleProof(leaves[index], hashed[index], ProofHashes(levels, index), Sides(index, Depth(|leaves|)),
                TreeRoot(h, leaves))
  }

  /** Siblings and directions are zipped strictly, so unequal lengths raise. */
  function Verdict(h: Hash, proof: MerkleProof): Result<bool> {
    if |proof.proofHashes| != |proof.directions| then Err(ValueError)
    else Ok(Climb(PairHash(h), proof.leafHash, proof.proofHashes, proof.directions) == proof.root)
  }

  class MerkleTree {
    const h: Hash
    var leaves: seq<string>
    var hashedLeaves: seq<Bytes>
    var levels: seq<seq<Bytes>>

    ghost predicate Valid()
      reads this
    {
      && |leaves| > 0
      && hashedLeaves == HashLeaves(h, leaves)
      && levels == Levels(PairHash(h), hashedLeaves)
    }

    constructor (h: Hash, leaves: seq<string>)
      requires |leaves| > 0
      ensures Valid() && this.h == h && this.leaves == leaves
    {
      this.h := h;
      this.leaves := leaves;
      hashedLeaves := HashLeaves(h, leaves);
      var built := Build(h, HashLeaves(h, leaves));
      levels := built;
    }

    /** The empty list raises instead of building a tree. */
    static method Create(h: Hash, leaves: seq<string>) returns (tree: Result<MerkleTree>)
      ensures leaves == [] ==> tree == Err(ValueError)
      ensures leaves != [] ==> tree.Ok? && fresh(tree.value) && tree.value.Valid()
      ensures leaves != [] ==> tree.value.h == h && tree.value.leaves == leaves
    {
      if leaves == [] {
        return Err(ValueError);
      }
      var t := new MerkleTree(h, leaves);
      return Ok(t);
    }

    static method Build(h: Hash, hashedLeaves: seq<Bytes>) returns (levels: seq<seq<Bytes>>)
      requires |hashedLeaves| > 0
      ensures levels == Levels(PairHash(h), hashedLeaves)
    {
      levels := [hashedLeaves];
      var current := levels[0];
      while |current| > 1
        invariant |current| > 0 && |levels| > 0
        invariant levels[|levels| - 1] == current
        invariant levels[..|levels| - 1] + Levels(PairHash(h), current) == Levels(PairHash(h), hashedLeaves)
        decreases |current|
      {
        var nextLevel := HashRow(h, current);
        assert (levels + [nextLevel])[..|levels|] == levels[..|levels| - 1] + [current];
        levels := levels + [nextLevel];
        current := nextLevel;
      }
      assert levels == levels[..|levels| - 1] + [current];
    }

    /** The inner loop of the builder: one level from the one below. */
    static method HashRow(h: Hash, current: seq<Bytes>) returns (nextLevel: seq<Bytes>)
      ensures nextLevel == NextLevel(PairHash(h), current)
    {
      nextLevel := [];
      var i := 0;
      while i < |current|
        invariant i % 2 == 0 && i <= |current| + 1 && |nextLevel| == i / 2
        invariant forall k :: 0 <= k < |nextLevel| ==> nextLevel[k] == h(current[2 * k] + Partner(current, 2 * k))
      {
        var left := current[i];
        var right := if i + 1 < |current| then current[i + 1] else current[i];
        nextLevel := nextLevel + [h(left + right)];
        i := i + 2;
      }
    }

    method GetRoot() returns (root: Bytes)
      requires Valid()
      ensures root == TreeRoot(h, leaves)
    {
      TopOfLevels(PairHash(h), hashedLeaves);
      root := levels[|levels| - 1][0];
    }

    method GetProof(index: int) returns (proof: Result<MerkleProof>)
      requires Valid()
      ensures !(0 <= index < |leaves|) ==> proof == Err(IndexError)
      ensures 0 <= index < |leaves| ==> proof == Ok(ProofOf(h, leaves, index))
    {
      if index < 0 || index >= |hashedLeaves| {
        return Err(IndexError);
      }
      LevelsWellShaped(PairHash(h), hashedLeaves);
      TopOfLevels(PairHash(h), hashedLeaves);
      var proofHashes, directions := CollectSiblings(levels, index);
      var root := GetRoot();
      return Ok(MerkleProof(leaves[index], hashedLeaves[index], proofHashes, directions, root));
    }

    /** The loop of GetProof: one sibling and one direction per level below the root. */
    static method CollectSiblings(levels: seq<seq<Bytes>>, index: nat)
      returns (proofHashes: seq<Bytes>, directions: seq<Direction>)
      requires WellShaped(levels) && index < |levels[0]|
      ensures proofHashes == ProofHashes(levels, index)
      ensures directions == Sides(index, |levels| - 1)
    {
      proofHashes, directions := [], [];
      var currentIndex: nat := index;
      assert levels[0..] == levels;
      for k := 0 to |levels| - 1
        invariant WellShaped(levels[k..]) && currentIndex < |levels[k]|
        invariant proofHashes + ProofHashes(levels[k..], currentIndex) == ProofHashes(levels, index)
        invariant directions + Sides(currentIndex, |levels| - 1 - k) == Sides(index, |levels| - 1)
      {
        var level := levels[k];
        UnrollLevel(levels, k, currentIndex);
        var siblingIndex: int, direction;
        if currentIndex % 2 == 0 {
          siblingIndex, direction := currentIndex + 1, RIGHT;
        } else {
          siblingIndex, direction := currentIndex - 1, LEFT;
        }
        var sibling := if siblingIndex < |level| then level[siblingIndex] else level[currentIndex];
        assert sibling == Sibling(level, currentIndex) && direction == Side(currentIndex);
        AppendOne(proofHashes, sibling, ProofHashes(levels[k + 1..], currentIndex / 2));
        AppendOne(directions, direction, Sides(currentIndex / 2, |levels| - 2 - k));
        proofHashes := proofHashes + [sibling];
        directions := directions + [direction];
        currentIndex := currentIndex / 2;
      }
    }

    static method VerifyProof(h: Hash, proof: MerkleProof) returns (verdict: Result<bool>)
      ensures verdict == Verdict(h, proof)
    {
      if |proof.proofHashes| != |proof.directions| {
        return Err(ValueError);
      }
      var computed := proof.leafHash;
      for k := 0 to |proof.proofHashes|
        invariant Climb(PairHash(h), computed, proof.proofHashes[k..], proof.directions[k..])
               == Climb(PairHash(h), proof.leafHash, proof.proofHashes, proof.directions)
      {
        var sibling, direction := proof.proofHashes[k], proof.directions[k];
        assert proof.proofHashes[k..][1..] == proof.proofHashes[k + 1..];
        assert proof.directions[k..][1..] == proof.directions[k + 1..];
        if direction == RIGHT {
          computed := h(computed + sibling);
        } else {
          computed := h(sibling + computed);
        }
      }
      return Ok(computed == proof.root);
    }
  }

  // ---------------------------------------------------------------------------------------------
  // Completeness of issued proofs
  // ---------------------------------------------------------------------------------------------

  /** Every issued proof verifies, for every non-empty list and every position, odd levels included. */
  lemma IssuedProofsVerify(h: Hash, leaves: seq<string>, index: nat)
    requires index < |leaves|
    ensures Verdict(h, ProofOf(h, leaves, index)) == Ok(true)
  {
    ClimbReachesRoot(PairHash(h), HashLeaves(h, leaves), index);
  }

  /**
   * Only the leaf hash is checked: an issued proof is accepted whatever leaf it names, and so is the proof
   * without any step that starts at the root itself.
   */
  lemma NamedLeafIsNotChecked(h: Hash, leaves: seq<string>, index: nat, other: string)
    requires index < |leaves|
    ensures Verdict(h, ProofOf(h, leaves, index).(leaf := other)) == Ok(true)
    ensures Verdict(h, MerkleProof(other, TreeRoot(h, leaves), [], [], TreeRoot(h, leaves))) == Ok(true)
  {
    IssuedProofsVerify(h, leaves, index);
  }

  /** The path of a proof: as many steps as the least d with 2^d >= leaf count, and the index in binary. */
  lemma IssuedPathShape(h: Hash, leaves: seq<string>, index: nat, d: nat)
    requires index < |leaves|
    ensures var proof := ProofOf(h, leaves, index);
      && |proof.proofHashes| == |proof.directions|
      && (|proof.directions| == d <==> |leaves| <= Pow2(d) && (d > 0 ==> Pow2(d - 1) < |leaves|))
      && IndexOf(proof.directions) == index
  {
    var n := |leaves|;
    ClimbReachesRoot(PairHash(h), HashLeaves(h, leaves), index);
    DepthIsLeast(n);
    SidesAreBinaryDigits(index, Depth(n));
    if n <= Pow2(d) && (d > 0 ==> Pow2(d - 1) < n) {
      DepthUnique(n, d);
    }
  }
}
