/**
 * The second Merkle tree of the repository, in the roll-up bundler: an odd last node is promoted unhashed
 * to the next level, and proofs carry no directions.
 */
module PromotedTrees {
  import opened Foundations
  import ML = MerkleLevels
  import MB = MerkleBinding

  function Parent<D>(pair: (D, D) -> D, level: seq<D>, i: nat): D
    requires i < |level|
  {
    if i + 1 < |level| then pair(level[i], level[i + 1]) else level[i]
  }

  function NextLevel<D>(pair: (D, D) -> D, level: seq<D>): (next: seq<D>)
    ensures |next| == (|level| + 1) / 2
  {
    seq((|level| + 1) / 2, k requires 0 <= k < (|level| + 1) / 2 => Parent(pair, level, 2 * k))
  }

  function Levels<D>(pair: (D, D) -> D, level: seq<D>): (levels: seq<seq<D>>)
    ensures |levels| > 0 && levels[0] == level
    decreases |level|
  {
    if |level| <= 1 then [level] else [level] + Levels(pair, NextLevel(pair, level))
  }

  function Root<D>(pair: (D, D) -> D, level: seq<D>): D
    requires |level| > 0
    decreases |level|
  {
    if |level| == 1 then level[0] else Root(pair, NextLevel(pair, level))
  }

  lemma {:induction false} TopOfLevels<D>(pair: (D, D) -> D, level: seq<D>)
    requires |level| > 0
    ensures var levels := Levels(pair, level); levels[|levels| - 1] == [Root(pair, level)]
    decreases |level|
  {
    if |level| > 1 {
      TopOfLevels(pair, NextLevel(pair, level));
    }
  }

  function PairIndex(i: nat): int {
    if i % 2 == 1 then i - 1 else i + 1
  }

  /** Sibling hashes from the leaves up; a promoted node contributes none. */
  function Proof<D>(pair: (D, D) -> D, level: seq<D>, i: nat): seq<D>
    requires i < |level|
    decreases |level|
  {
    if |level| == 1 then []
    else
      var rest := Proof(pair, NextLevel(pair, level), i / 2);
      if PairIndex(i) < |level| then [level[PairIndex(i)]] + rest else rest
  }

  /**
   * What a verifier has to do with such a proof: recompute the sides from the bits of the index and skip
   * the levels where the size says that the node was promoted. None when the proof has the wrong length.
   */
  function Refold<D>(pair: (D, D) -> D, node: D, proof: seq<D>, i: nat, size: nat): Option<D>
    decreases size
  {
    if size <= 1 then
      if proof == [] then Some(node) else None
    else if PairIndex(i) >= size then
      Refold(pair, node, proof, i / 2, (size + 1) / 2)
    else if proof == [] then
      None
    else
      var parent := if i % 2 == 1 then pair(proof[0], node) else pair(node, proof[0]);
      Refold(pair, parent, proof[1..], i / 2, (size + 1) / 2)
  }

  /** For every index, index and leaf count are enough to fold the direction-less proof back to the root. */
  lemma {:induction false} ProofRefoldsToRoot<D>(pair: (D, D) -> D, level: seq<D>, i: nat)
    requires i < |level|
    ensures Refold(pair, level[i], Proof(pair, level, i), i, |level|) == Some(Root(pair, level))
    decreases |level|
  {
    if |level| > 1 {
      var next := NextLevel(pair, level);
      ProofRefoldsToRoot(pair, next, i / 2);
      assert next[i / 2] == Parent(pair, level, 2 * (i / 2));
      if PairIndex(i) < |level| {
        assert Proof(pair, level, i)[1..] == Proof(pair, next, i / 2);
      } else {
        assert Proof(pair, level, i) == Proof(pair, next, i / 2);
      }
    }
  }

  class RollupTree {
    const hash: string -> string
    var leaves: seq<string>
    var tree: seq<seq<string>>

    function Pair(): (string, string) -> string {
      PairOf(hash)
    }

    ghost predicate Valid()
      reads this
    {
      tree == Levels(Pair(), leaves)
    }

    constructor (hash: string -> string, entries: seq<string>)
      ensures Valid() && this.hash == hash
      ensures leaves == HashAll(hash, entries)
    {
      this.hash := hash;
      leaves := seq(|entries|, k requires 0 <= k < |entries| => hash(entries[k]));
      tree := [];
      new;
      BuildTree();
    }

    method BuildTree()
      modifies this`tree
      ensures Valid()
    {
      tree := [leaves];
      var level := leaves;
      while |level| > 1
        invariant |tree| > 0 && tree[|tree| - 1] == level
        invariant tree[..|tree| - 1] + Levels(Pair(), level) == Levels(Pair(), leaves)
        decreases |level|
      {
        var nextLevel := Combine(level);
        assert (tree + [nextLevel])[..|tree|] == tree[..|tree| - 1] + [level];
        tree := tree + [nextLevel];
        level := nextLevel;
      }
      assert tree == tree[..|tree| - 1] + [level];
    }

    /** The inner loop of the builder. */
    method Combine(level: seq<string>) returns (nextLevel: seq<string>)
      ensures nextLevel == NextLevel(Pair(), level)
    {
      nextLevel := [];
      var i := 0;
      while i < |level|
        invariant i % 2 == 0 && i <= |level| + 1 && |nextLevel| == i / 2
        invariant forall k :: 0 <= k < |nextLevel| ==> nextLevel[k] == Parent(Pair(), level, 2 * k)
      {
        if i + 1 < |level| {
          nextLevel := nextLevel + [hash(level[i] + level[i + 1])];
        } else {
          nextLevel := nextLevel + [level[i]];
        }
        i := i + 2;
      }
    }

    /** The empty tree has the empty root. */
    method GetRoot() returns (root: string)
      requires Valid()
      ensures root == if leaves == [] then "" else Root(Pair(), leaves)
    {
      if |tree| == 0 || |tree[|tree| - 1]| == 0 {
        if leaves != [] {
          TopOfLevels(Pair(), leaves);
        }
        return "";
      }
      if leaves != [] {
        TopOfLevels(Pair(), leaves);
      }
      return tree[|tree| - 1][0];
    }

    /** An index out of range yields the empty proof instead of an error. */
    method GetProof(index: int) returns (proof: seq<string>)
      requires Valid()
      ensures proof == if 0 <= index < |leaves| then Proof(Pair(), leaves, index) else []
    {
      if index < 0 || index >= |leaves| {
        return [];
      }
      proof := Collect(Pair(), tree, index);
    }

    /** The loop of GetProof over the levels below the root. */
    static method Collect(ghost pair: (string, string) -> string, tree: seq<seq<string>>, index: nat)
      returns (proof: seq<string>)
      requires |tree| > 0 && tree == Levels(pair, tree[0]) && index < |tree[0]|
      ensures proof == Proof(pair, tree[0], index)
    {
      proof := [];
      var leafIndex: nat := index;
      assert tree[0..] == tree;
      for k := 0 to |tree| - 1
        invariant leafIndex < |tree[k]|
        invariant tree[k..] == Levels(pair, tree[k])
        invariant proof + Proof(pair, tree[k], leafIndex) == Proof(pair, tree[0], index)
      {
        var level := tree[k];
        UnrollProof(pair, tree, k, leafIndex);
        var isRight := leafIndex % 2 == 1;
        var pairIndex := if isRight then leafIndex - 1 else leafIndex + 1;
        ghost var rest := Proof(pair, tree[k + 1], leafIndex / 2);
        if pairIndex < |level| {
          ML.AppendOne(proof, level[pairIndex], rest);
          proof := proof + [level[pairIndex]];
        }
        leafIndex := leafIndex / 2;
      }
      LastOfLevels(pair, tree, |tree| - 1, leafIndex);
    }
  }

  /** One step of the walk over the levels. */
  lemma UnrollProof<D>(pair: (D, D) -> D, levels: seq<seq<D>>, k: nat, i: nat)
    requires k + 1 < |levels| && levels[k..] == Levels(pair, levels[k]) && i < |levels[k]|
    ensures levels[k + 1..] == Levels(pair, levels[k + 1]) && i / 2 < |levels[k + 1]|
    ensures var rest := Proof(pair, levels[k + 1], i / 2);
      Proof(pair, levels[k], i) == if PairIndex(i) < |levels[k]| then [levels[k][PairIndex(i)]] + rest else rest
  {
  }

  lemma LastOfLevels<D>(pair: (D, D) -> D, levels: seq<seq<D>>, k: nat, i: nat)
    requires k + 1 == |levels| && levels[k..] == Levels(pair, levels[k]) && i < |levels[k]|
    ensures Proof(pair, levels[k], i) == []
  {
  }

  // ---------------------------------------------------------------------------------------------
  // Soundness of direction-less proofs
  // ---------------------------------------------------------------------------------------------

  function PairOf(hash: string -> string): (string, string) -> string {
    (left: string, right: string) => hash(left + right)
  }

  /** The strings hashed to build the levels above a row. */
  ghost function LevelInputs(hash: string -> string, level: seq<string>): set<string>
    decreases |level|
  {
    if |level| <= 1 then {}
    else (set k | 0 <= k < |level| / 2 :: level[2 * k] + level[2 * k + 1]) + LevelInputs(hash, NextLevel(PairOf(hash), level))
  }

  /** The strings hashed while a proof is folded. */
  ghost function RefoldInputs(hash: string -> string, node: string, proof: seq<string>, i: nat, size: nat): set<string>
    decreases size
  {
    if size <= 1 then {}
    else if PairIndex(i) >= size then RefoldInputs(hash, node, proof, i / 2, (size + 1) / 2)
    else if proof == [] then {}
    else
      var input := Joined(i, node, proof[0]);
      {input} + RefoldInputs(hash, hash(input), proof[1..], i / 2, (size + 1) / 2)
  }

  /** Hexadecimal SHA-256 digests have 64 characters. */
  ghost predicate HexDigests(s: seq<string>) {
    forall k :: 0 <= k < |s| ==> |s[k]| == 64
  }

  /** The string hashed for a pair of neighbours. */
  lemma PairInput(hash: string -> string, level: seq<string>, k: nat) returns (y: string)
    requires 2 * k + 1 < |level|
    ensures y == level[2 * k] + level[2 * k + 1]
    ensures y in LevelInputs(hash, level) && NextLevel(PairOf(hash), level)[k] == hash(y)
  {
    y := level[2 * k] + level[2 * k + 1];
    assert NextLevel(PairOf(hash), level)[k] == Parent(PairOf(hash), level, 2 * k);
  }

  function Joined(i: nat, node: string, sibling: string): string {
    if i % 2 == 1 then sibling + node else node + sibling
  }

  lemma Unjoin(level: seq<string>, i: nat, node: string, sibling: string)
    requires i < |level| && PairIndex(i) < |level| && |node| == 64 && HexDigests(level)
    requires Joined(i, node, sibling) == level[2 * (i / 2)] + level[2 * (i / 2) + 1]
    ensures node == level[i] && sibling == level[PairIndex(i)]
  {
    var k := i / 2;
    if i % 2 == 1 {
      SplitConcat(sibling, node, level[2 * k], level[2 * k + 1]);
    } else {
      SplitConcat(node, sibling, level[2 * k], level[2 * k + 1]);
    }
  }

  lemma NextLevelHexDigests(hash: string -> string, level: seq<string>)
    requires HexDigests(level) && forall x :: |hash(x)| == 64
    ensures HexDigests(NextLevel(PairOf(hash), level))
  {
    var next := NextLevel(PairOf(hash), level);
    forall k | 0 <= k < |next| ensures |next[k]| == 64 {
      assert next[k] == Parent(PairOf(hash), level, 2 * k);
    }
  }

  /** A collision met above a level was met by the whole computations. */
  lemma CollisionAbove(hash: string -> string, level: seq<string>, i: nat, node: string, proof: seq<string>)
    requires |level| > 1 && (PairIndex(i) < |level| ==> proof != [])
    requires var next := NextLevel(PairOf(hash), level);
      var (up, rest) := if PairIndex(i) < |level| then (hash(Joined(i, node, proof[0])), proof[1..]) else (node, proof);
      Collision(hash, RefoldInputs(hash, up, rest, i / 2, |next|), LevelInputs(hash, next))
    ensures Collision(hash, RefoldInputs(hash, node, proof, i, |level|), LevelInputs(hash, level))
  {
    var next := NextLevel(PairOf(hash), level);
    var (up, rest) := if PairIndex(i) < |level| then (hash(Joined(i, node, proof[0])), proof[1..]) else (node, proof);
    CollisionMonotone(hash, RefoldInputs(hash, up, rest, i / 2, |next|), LevelInputs(hash, next),
                      RefoldInputs(hash, node, proof, i, |level|), LevelInputs(hash, level));
  }

  /** The proof lists the siblings on the way up from position i. */
  ghost predicate AreSiblings(hash: string -> string, level: seq<string>, i: nat, proof: seq<string>)
    requires i < |level|
    decreases |level|
  {
    if |level| == 1 then proof == []
    else if PairIndex(i) >= |level| then AreSiblings(hash, NextLevel(PairOf(hash), level), i / 2, proof)
    else proof != [] && proof[0] == level[PairIndex(i)]
         && AreSiblings(hash, NextLevel(PairOf(hash), level), i / 2, proof[1..])
  }

  lemma {:induction false} SiblingsAreProof(hash: string -> string, level: seq<string>, i: nat, proof: seq<string>)
    requires i < |level| && AreSiblings(hash, level, i, proof)
    ensures proof == Proof(PairOf(hash), level, i)
    decreases |level|
  {
    if |level| > 1 {
      if PairIndex(i) < |level| {
        SiblingsAreProof(hash, NextLevel(PairOf(hash), level), i / 2, proof[1..]);
        assert proof == [proof[0]] + proof[1..];
      } else {
        SiblingsAreProof(hash, NextLevel(PairOf(hash), level), i / 2, proof);
      }
    }
  }

  /** What holds for the parent carries over to a paired node. */
  lemma PairedBinds(hash: string -> string, level: seq<string>, i: nat, node: string, proof: seq<string>)
    requires 1 < |level| && i < |level| && PairIndex(i) < |level| && proof != []
    requires |node| == 64 && HexDigests(level)
    requires var next, input := NextLevel(PairOf(hash), level), Joined(i, node, proof[0]);
      || (hash(input) == next[i / 2] && AreSiblings(hash, next, i / 2, proof[1..]))
      || Collision(hash, RefoldInputs(hash, hash(input), proof[1..], i / 2, |next|), LevelInputs(hash, next))
    ensures (node == level[i] && AreSiblings(hash, level, i, proof))
         || Collision(hash, RefoldInputs(hash, node, proof, i, |level|), LevelInputs(hash, level))
  {
    var next, input := NextLevel(PairOf(hash), level), Joined(i, node, proof[0]);
    var y := PairInput(hash, level, i / 2);
    if Collision(hash, RefoldInputs(hash, hash(input), proof[1..], i / 2, |next|), LevelInputs(hash, next)) {
      CollisionAbove(hash, level, i, node, proof);
    } else if input != y {
      FoundCollision(hash, input, y, RefoldInputs(hash, node, proof, i, |level|), LevelInputs(hash, level));
    } else {
      Unjoin(level, i, node, proof[0]);
    }
  }

  lemma {:induction false} RefoldBinds(hash: string -> string, level: seq<string>, i: nat, node: string, proof: seq<string>)
    requires i < |level| && |node| == 64 && HexDigests(level) && forall x :: |hash(x)| == 64
    requires Refold(PairOf(hash), node, proof, i, |level|) == Some(Root(PairOf(hash), level))
    ensures (node == level[i] && AreSiblings(hash, level, i, proof))
         || Collision(hash, RefoldInputs(hash, node, proof, i, |level|), LevelInputs(hash, level))
    decreases |level|
  {
    if |level| > 1 {
      var next := NextLevel(PairOf(hash), level);
      NextLevelHexDigests(hash, level);
      if PairIndex(i) >= |level| {
        assert next[i / 2] == Parent(PairOf(hash), level, 2 * (i / 2)) == level[i];
        RefoldBinds(hash, next, i / 2, node, proof);
        if node != level[i] || !AreSiblings(hash, next, i / 2, proof) {
          CollisionAbove(hash, level, i, node, proof);
        }
      } else {
        RefoldBinds(hash, next, i / 2, hash(Joined(i, node, proof[0])), proof[1..]);
        PairedBinds(hash, level, i, node, proof);
      }
    }
  }

  /** A proof that folds to the root from a digest at position i is the issued proof of the leaf there. */
  lemma RefoldedProofIsTheIssuedOne(hash: string -> string, level: seq<string>, i: nat, node: string, proof: seq<string>)
    requires i < |level| && |node| == 64 && HexDigests(level) && forall x :: |hash(x)| == 64
    requires Refold(PairOf(hash), node, proof, i, |level|) == Some(Root(PairOf(hash), level))
    ensures (node == level[i] && proof == Proof(PairOf(hash), level, i))
         || Collision(hash, RefoldInputs(hash, node, proof, i, |level|), LevelInputs(hash, level))
  {
    RefoldBinds(hash, level, i, node, proof);
    if AreSiblings(hash, level, i, proof) {
      SiblingsAreProof(hash, level, i, proof);
    }
  }

  // ---------------------------------------------------------------------------------------------
  // Root binding
  // ---------------------------------------------------------------------------------------------

  function HashAll(hash: string -> string, entries: seq<string>): (leaves: seq<string>)
    ensures |leaves| == |entries|
  {
    seq(|entries|, k requires 0 <= k < |entries| => hash(entries[k]))
  }

  /** Every string hashed while the tree over the entries is built. */
  ghost function TreeInputs(hash: string -> string, entries: seq<string>): set<string> {
    (set k | 0 <= k < |entries| :: entries[k]) + LevelInputs(hash, HashAll(hash, entries))
  }

  lemma RefoldOneInput(hash: string -> string, node: string, sibling: string, rest: seq<string>, i: nat, size: nat)
    requires 1 < size && PairIndex(i) < size
    ensures var input := Joined(i, node, sibling);
      RefoldInputs(hash, node, [sibling] + rest, i, size)
      == {input} + RefoldInputs(hash, hash(input), rest, i / 2, (size + 1) / 2)
  {
    assert ([sibling] + rest)[1..] == rest;
  }

  lemma PairIsJoined(level: seq<string>, i: nat)
    requires i < |level| && PairIndex(i) < |level|
    ensures 2 * (i / 2) + 1 < |level|
    ensures Joined(i, level[i], level[PairIndex(i)]) == level[2 * (i / 2)] + level[2 * (i / 2) + 1]
  {
  }

  lemma PairedInputs(hash: string -> string, level: seq<string>, i: nat, rest: seq<string>) returns (y: string)
    requires i < |level| && PairIndex(i) < |level|
    ensures y in LevelInputs(hash, level)
    ensures RefoldInputs(hash, level[i], [level[PairIndex(i)]] + rest, i, |level|)
         == {y} + RefoldInputs(hash, NextLevel(PairOf(hash), level)[i / 2], rest, i / 2, (|level| + 1) / 2)
  {
    PairIsJoined(level, i);
    y := PairInput(hash, level, i / 2);
    RefoldOneInput(hash, level[i], level[PairIndex(i)], rest, i, |level|);
  }

  lemma InputsAbove(hash: string -> string, level: seq<string>)
    requires |level| > 1
    ensures LevelInputs(hash, NextLevel(PairOf(hash), level)) <= LevelInputs(hash, level)
  {
  }

  lemma ProofOfPaired<D>(pair: (D, D) -> D, level: seq<D>, i: nat)
    requires i < |level| && PairIndex(i) < |level|
    ensures Proof(pair, level, i) == [level[PairIndex(i)]] + Proof(pair, NextLevel(pair, level), i / 2)
  {
  }

  lemma IssuedInputsOfPromoted(hash: string -> string, level: seq<string>, i: nat)
    requires 1 < |level| && i < |level| && PairIndex(i) >= |level|
    ensures var next := NextLevel(PairOf(hash), level);
      RefoldInputs(hash, level[i], Proof(PairOf(hash), level, i), i, |level|)
      == RefoldInputs(hash, next[i / 2], Proof(PairOf(hash), next, i / 2), i / 2, |next|)
  {
    assert NextLevel(PairOf(hash), level)[i / 2] == Parent(PairOf(hash), level, 2 * (i / 2)) == level[i];
  }

  /** Folding an issued proof hashes only strings that the builder hashed. */
  lemma {:induction false} IssuedInputs(hash: string -> string, level: seq<string>, i: nat)
    requires i < |level|
    ensures RefoldInputs(hash, level[i], Proof(PairOf(hash), level, i), i, |level|) <= LevelInputs(hash, level)
    decreases |level|
  {
    if |level| > 1 {
      var next := NextLevel(PairOf(hash), level);
      IssuedInputs(hash, next, i / 2);
      InputsAbove(hash, level);
      if PairIndex(i) < |level| {
        ProofOfPaired(PairOf(hash), level, i);
        var y := PairedInputs(hash, level, i, Proof(PairOf(hash), next, i / 2));
      } else {
        IssuedInputsOfPromoted(hash, level, i);
      }
    }
  }

  /** Position i of two rows of one length with one root. */
  lemma PositionBinds(hash: string -> string, a: seq<string>, b: seq<string>, i: nat)
    requires i < |a| == |b| && HexDigests(a) && HexDigests(b) && forall x :: |hash(x)| == 64
    requires Root(PairOf(hash), a) == Root(PairOf(hash), b)
    ensures a[i] == b[i] || Collision(hash, LevelInputs(hash, a), LevelInputs(hash, b))
  {
    var proof := Proof(PairOf(hash), a, i);
    ProofRefoldsToRoot(PairOf(hash), a, i);
    RefoldedProofIsTheIssuedOne(hash, b, i, a[i], proof);
    IssuedInputs(hash, a, i);
    if a[i] != b[i] {
      CollisionMonotone(hash, RefoldInputs(hash, a[i], proof, i, |a|), LevelInputs(hash, b),
                        LevelInputs(hash, a), LevelInputs(hash, b));
    }
  }

  /** Root binding at equal length: one root, one list of entries. */
  lemma RootBinding(hash: string -> string, a: seq<string>, b: seq<string>)
    requires |a| == |b| > 0 && forall x :: |hash(x)| == 64
    requires Root(PairOf(hash), HashAll(hash, a)) == Root(PairOf(hash), HashAll(hash, b))
    ensures a == b || Collision(hash, TreeInputs(hash, a), TreeInputs(hash, b))
  {
    var s, t := HashAll(hash, a), HashAll(hash, b);
    if a != b {
      var i :| 0 <= i < |a| && a[i] != b[i];
      PositionBinds(hash, s, t, i);
      if s[i] == t[i] {
        FoundCollision(hash, a[i], b[i], TreeInputs(hash, a), TreeInputs(hash, b));
      } else {
        CollisionMonotone(hash, LevelInputs(hash, s), LevelInputs(hash, t), TreeInputs(hash, a), TreeInputs(hash, b));
      }
    }
  }

  // ---------------------------------------------------------------------------------------------
  // Against the tree that duplicates the odd node
  // ---------------------------------------------------------------------------------------------

  function Size(t: MB.Tree): nat {
    match t
    case Leaf(_) => 1
    case Node(l, r) => Size(l) + Size(r)
  }

  function TotalSize(ts: seq<MB.Tree>): nat {
    if ts == [] then 0 else Size(ts[0]) + TotalSize(ts[1..])
  }

  /** Promotion keeps the number of leaves of a level. */
  lemma {:induction false} NextLevelKeepsSize(ts: seq<MB.Tree>)
    ensures TotalSize(NextLevel(MB.Join(), ts)) == TotalSize(ts)
    decreases |ts|
  {
    var next := NextLevel(MB.Join(), ts);
    if |ts| == 1 {
      assert next == ts;
    } else if |ts| > 1 {
      NextLevelKeepsSize(ts[2..]);
      var rest := NextLevel(MB.Join(), ts[2..]);
      forall k | 0 <= k < |rest| ensures next[1..][k] == rest[k] {
        assert next[k + 1] == Parent(MB.Join(), ts, 2 * (k + 1));
        assert rest[k] == Parent(MB.Join(), ts[2..], 2 * k);
      }
      assert next[1..] == rest;
      assert next[0] == Parent(MB.Join(), ts, 2 * 0) == MB.Node(ts[0], ts[1]);
      assert ts[1..][1..] == ts[2..];
    }
  }

  lemma {:induction false} RootKeepsSize(ts: seq<MB.Tree>)
    requires |ts| > 0
    ensures Size(Root(MB.Join(), ts)) == TotalSize(ts)
    decreases |ts|
  {
    if |ts| == 1 {
      assert ts[1..] == [];
    } else {
      NextLevelKeepsSize(ts);
      RootKeepsSize(NextLevel(MB.Join(), ts));
    }
  }

  lemma {:induction false} LeavesCountOnce(s: seq<Bytes>)
    ensures TotalSize(MB.LeafNodes(s)) == |s|
  {
    if s != [] {
      LeavesCountOnce(s[1..]);
      assert MB.LeafNodes(s)[1..] == MB.LeafNodes(s[1..]);
    }
  }

  /** Duplication fills the tree up to a power of two. */
  lemma {:induction false} SubtreeSize(s: seq<Bytes>, d: nat)
    requires 0 < |s| <= ML.Pow2(d)
    ensures Size(ML.Subtree(MB.Join(), MB.LeafNodes(s), d)) == ML.Pow2(d)
    decreases d
  {
    if d > 0 {
      var half := ML.Pow2(d - 1);
      if |s| <= half {
        SubtreeSize(s, d - 1);
      } else {
        SubtreeSize(s[..half], d - 1);
        SubtreeSize(s[half..], d - 1);
        assert MB.LeafNodes(s)[..half] == MB.LeafNodes(s[..half]);
        assert MB.LeafNodes(s)[half..] == MB.LeafNodes(s[half..]);
      }
    }
  }

  /** On a power-of-two row no node is ever promoted or duplicated. */
  lemma {:induction false} SameOnPowersOfTwo<D>(pair: (D, D) -> D, s: seq<D>, d: nat)
    requires |s| == ML.Pow2(d)
    ensures Root(pair, s) == ML.Root(pair, s)
    decreases d
  {
    if d > 0 {
      var next, dup := NextLevel(pair, s), ML.NextLevel(pair, s);
      forall k | 0 <= k < |next| ensures next[k] == dup[k] {
        assert next[k] == Parent(pair, s, 2 * k);
        assert dup[k] == pair(s[2 * k], ML.Partner(s, 2 * k));
        assert 2 * k + 1 < |s|;
      }
      assert next == dup;
      SameOnPowersOfTwo(pair, next, d - 1);
    }
  }

  /** The two trees of the repository have one shape exactly when the leaf count is a power of two. */
  lemma SameShapeIffPowerOfTwo(s: seq<Bytes>)
    requires |s| > 0
    ensures Root(MB.Join(), MB.LeafNodes(s)) == ML.Root(MB.Join(), MB.LeafNodes(s))
       <==> exists d: nat :: |s| == ML.Pow2(d)
  {
    var ts := MB.LeafNodes(s);
    RootKeepsSize(ts);
    LeavesCountOnce(s);
    ML.RootIsSubtree(MB.Join(), ts);
    SubtreeSize(s, ML.Depth(|s|));
    if exists d: nat :: |s| == ML.Pow2(d) {
      var d: nat :| |s| == ML.Pow2(d);
      SameOnPowersOfTwo(MB.Join(), ts, d);
    } else {
      assert |s| != ML.Pow2(ML.Depth(|s|));
    }
  }
}
