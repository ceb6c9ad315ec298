/**
 * What a Merkle root commits to. No property of the hash is assumed: every result reads "or here are two
 * different strings, hashed in the two computations, with the same digest".
 */
module MerkleBinding {
  import opened Foundations
  import opened MerkleLevels
  import opened MerkleTrees

  // ---------------------------------------------------------------------------------------------
  // The strings that a computation hashes
  // ---------------------------------------------------------------------------------------------

  ghost function LeafInputs(leaves: seq<string>): set<Bytes> {
    set k | 0 <= k < |leaves| :: Utf8(leaves[k])
  }

  /** The strings hashed to get from one level to the next. */
  ghost function RowInputs(level: seq<Bytes>): set<Bytes> {
    set k | 0 <= k < (|level| + 1) / 2 :: level[2 * k] + Partner(level, 2 * k)
  }

  ghost function PairInputs(h: Hash, level: seq<Bytes>): set<Bytes>
    decreases |level|
  {
    if |level| <= 1 then {} else RowInputs(level) + PairInputs(h, NextLevel(PairHash(h), level))
  }

  /** Every string hashed while the tree over the leaves is built. */
  ghost function TreeInputs(h: Hash, leaves: seq<string>): set<Bytes> {
    LeafInputs(leaves) + PairInputs(h, HashLeaves(h, leaves))
  }

  /** Every string hashed while a proof is checked. */
  ghost function ClimbInputs(h: Hash, node: Bytes, hashes: seq<Bytes>, sides: seq<Direction>): set<Bytes>
    requires |hashes| == |sides|
    decreases |hashes|
  {
    if hashes == [] then {}
    else
      var input := if sides[0] == RIGHT then node + hashes[0] else hashes[0] + node;
      {input} + ClimbInputs(h, h(input), hashes[1..], sides[1..])
  }

  // ---------------------------------------------------------------------------------------------
  // Symbolic trees: what the builder computes before any hash is evaluated
  // ---------------------------------------------------------------------------------------------

  datatype Tree = Leaf(digest: Bytes) | Node(left: Tree, right: Tree)

  function Join(): (Tree, Tree) -> Tree {
    (left: Tree, right: Tree) => Node(left, right)
  }

  function LeafNodes(s: seq<Bytes>): (ts: seq<Tree>)
    ensures |ts| == |s|
  {
    seq(|s|, k requires 0 <= k < |s| => Leaf(s[k]))
  }

  function Eval(h: Hash, t: Tree): Bytes {
    match t
    case Leaf(digest) => digest
    case Node(l, r) => h(Eval(h, l) + Eval(h, r))
  }

  function EvalAll(h: Hash, ts: seq<Tree>): (s: seq<Bytes>)
    ensures |s| == |ts|
  {
    seq(|ts|, k requires 0 <= k < |ts| => Eval(h, ts[k]))
  }

  ghost function Inputs(h: Hash, t: Tree): set<Bytes> {
    match t
    case Leaf(_) => {}
    case Node(l, r) => {Eval(h, l) + Eval(h, r)} + Inputs(h, l) + Inputs(h, r)
  }

  function Fringe(t: Tree): seq<Bytes> {
    match t
    case Leaf(digest) => [digest]
    case Node(l, r) => Fringe(l) + Fringe(r)
  }

  ghost predicate Perfect(t: Tree, d: nat) {
    match t
    case Leaf(digest) => d == 0 && |digest| == 32
    case Node(l, r) => d > 0 && Perfect(l, d - 1) && Perfect(r, d - 1)
  }

  lemma NextLevelOfEval(h: Hash, ts: seq<Tree>)
    ensures EvalAll(h, NextLevel(Join(), ts)) == NextLevel(PairHash(h), EvalAll(h, ts))
  {
    var next, row := NextLevel(Join(), ts), EvalAll(h, ts);
    forall k | 0 <= k < |next| ensures Eval(h, next[k]) == NextLevel(PairHash(h), row)[k] {
      assert next[k] == Node(ts[2 * k], Partner(ts, 2 * k));
      assert Eval(h, Partner(ts, 2 * k)) == Partner(row, 2 * k);
    }
  }

  /** The builder's root is the value of the tree it builds symbolically. */
  lemma {:induction false} RootIsValueOfTree(h: Hash, ts: seq<Tree>)
    requires |ts| > 0
    ensures Root(PairHash(h), EvalAll(h, ts)) == Eval(h, Root(Join(), ts))
    decreases |ts|
  {
    if |ts| > 1 {
      NextLevelOfEval(h, ts);
      RootIsValueOfTree(h, NextLevel(Join(), ts));
    }
  }

  lemma InputsOfNextLevel(h: Hash, ts: seq<Tree>, s: set<Bytes>)
    requires forall k :: 0 <= k < |ts| ==> Inputs(h, ts[k]) <= s
    ensures var next := NextLevel(Join(), ts);
            forall k :: 0 <= k < |next| ==> Inputs(h, next[k]) <= s + RowInputs(EvalAll(h, ts))
  {
    var next, row := NextLevel(Join(), ts), EvalAll(h, ts);
    forall k | 0 <= k < |next| ensures Inputs(h, next[k]) <= s + RowInputs(row) {
      assert next[k] == Node(ts[2 * k], Partner(ts, 2 * k));
      assert Eval(h, ts[2 * k]) + Eval(h, Partner(ts, 2 * k)) == row[2 * k] + Partner(row, 2 * k);
      assert row[2 * k] + Partner(row, 2 * k) in RowInputs(row);
    }
  }

  /** Evaluating that tree hashes only strings that the builder hashes. */
  lemma {:induction false} InputsOfRoot(h: Hash, ts: seq<Tree>, s: set<Bytes>)
    requires |ts| > 0
    requires forall k :: 0 <= k < |ts| ==> Inputs(h, ts[k]) <= s
    ensures Inputs(h, Root(Join(), ts)) <= s + PairInputs(h, EvalAll(h, ts))
    decreases |ts|
  {
    if |ts| > 1 {
      InputsOfNextLevel(h, ts, s);
      NextLevelOfEval(h, ts);
      InputsOfRoot(h, NextLevel(Join(), ts), s + RowInputs(EvalAll(h, ts)));
    }
  }

  lemma {:induction false} SubtreeIsPerfect(s: seq<Bytes>, d: nat)
    requires 0 < |s| <= Pow2(d)
    requires forall k :: 0 <= k < |s| ==> |s[k]| == 32
    ensures var t := Subtree(Join(), LeafNodes(s), d); Perfect(t, d) && Fringe(t) == Full(s, d)
    decreases d
  {
    if d > 0 {
      var half := Pow2(d - 1);
      if |s| <= half {
        SubtreeIsPerfect(s, d - 1);
      } else {
        SubtreeIsPerfect(s[..half], d - 1);
        SubtreeIsPerfect(s[half..], d - 1);
        assert LeafNodes(s)[..half] == LeafNodes(s[..half]);
        assert LeafNodes(s)[half..] == LeafNodes(s[half..]);
      }
    }
  }

  function TreeOf(h: Hash, leaves: seq<string>): Tree
    requires |leaves| > 0
  {
    Root(Join(), LeafNodes(HashLeaves(h, leaves)))
  }

  /** The tree over n leaves is perfect of height Depth(n); its fringe is the filled-up row of leaf digests. */
  lemma TreeOfLeaves(h: Hash, leaves: seq<string>)
    requires |leaves| > 0
    ensures |leaves| <= Pow2(Depth(|leaves|))
    ensures Eval(h, TreeOf(h, leaves)) == TreeRoot(h, leaves)
    ensures Inputs(h, TreeOf(h, leaves)) <= PairInputs(h, HashLeaves(h, leaves))
    ensures Perfect(TreeOf(h, leaves), Depth(|leaves|))
    ensures Fringe(TreeOf(h, leaves)) == Full(HashLeaves(h, leaves), Depth(|leaves|))
  {
    var hashed := HashLeaves(h, leaves);
    var ts := LeafNodes(hashed);
    assert EvalAll(h, ts) == hashed;
    RootIsValueOfTree(h, ts);
    InputsOfRoot(h, ts, {});
    RootIsSubtree(Join(), ts);
    SubtreeIsPerfect(hashed, Depth(|leaves|));
  }

  // ---------------------------------------------------------------------------------------------
  // Binding of symbolic trees
  // ---------------------------------------------------------------------------------------------

  lemma ValueIsDigest(h: Hash, t: Tree, d: nat)
    requires Perfect(t, d)
    ensures |Eval(h, t)| == 32
  {
  }

  lemma ChildrenAgree(h: Hash, t: Tree, d: nat, u: Tree, e: nat)
    requires t.Node? && Perfect(t, d) && u.Node? && Perfect(u, e)
    requires Eval(h, t) == Eval(h, u)
    ensures (Eval(h, t.left) == Eval(h, u.left) && Eval(h, t.right) == Eval(h, u.right))
         || Collision(h, Inputs(h, t), Inputs(h, u))
  {
    var x, y := Eval(h, t.left) + Eval(h, t.right), Eval(h, u.left) + Eval(h, u.right);
    assert x in Inputs(h, t) && y in Inputs(h, u) && h(x) == h(y);
    if x == y {
      ValueIsDigest(h, t.left, d - 1);
      ValueIsDigest(h, u.left, e - 1);
      SplitConcat(Eval(h, t.left), Eval(h, t.right), Eval(h, u.left), Eval(h, u.right));
    }
  }

  lemma CollisionBelow(h: Hash, t: Tree, u: Tree)
    requires t.Node? && u.Node?
    requires || Collision(h, Inputs(h, t.left), Inputs(h, u.left))
             || Collision(h, Inputs(h, t.right), Inputs(h, u.right))
    ensures Collision(h, Inputs(h, t), Inputs(h, u))
  {
  }

  /** Two perfect trees of one height with equal roots are the same tree. */
  lemma {:induction false} TreeBinding(h: Hash, t: Tree, u: Tree, d: nat)
    requires Perfect(t, d) && Perfect(u, d) && Eval(h, t) == Eval(h, u)
    ensures t == u || Collision(h, Inputs(h, t), Inputs(h, u))
    decreases d
  {
    if d > 0 {
      ChildrenAgree(h, t, d, u, d);
      if !Collision(h, Inputs(h, t), Inputs(h, u)) {
        TreeBinding(h, t.left, u.left, d - 1);
        TreeBinding(h, t.right, u.right, d - 1);
        if t != u {
          CollisionBelow(h, t, u);
        }
      }
    }
  }

  /** The strings hashed for the pairs d levels below the root, from left to right. */
  ghost function PairRow(h: Hash, t: Tree, d: nat): seq<Bytes> {
    match t
    case Leaf(_) => []
    case Node(l, r) => if d == 0 then [Eval(h, l) + Eval(h, r)] else PairRow(h, l, d - 1) + PairRow(h, r, d - 1)
  }

  /** The digests of some strings. */
  ghost function Digests(h: Hash, row: seq<Bytes>): (digests: seq<Bytes>)
    ensures |digests| == |row|
  {
    seq(|row|, k requires 0 <= k < |row| => h(row[k]))
  }

  lemma DigestsOfConcat(h: Hash, s: seq<Bytes>, t: seq<Bytes>)
    ensures Digests(h, s + t) == Digests(h, s) + Digests(h, t)
  {
  }

  lemma {:induction false} PairRowShape(h: Hash, t: Tree, d: nat, e: nat)
    requires Perfect(t, e) && d < e
    ensures |PairRow(h, t, d)| == Pow2(d)
    ensures forall k :: 0 <= k < Pow2(d) ==> PairRow(h, t, d)[k] in Inputs(h, t) && |PairRow(h, t, d)[k]| == 64
  {
    if d == 0 {
      ValueIsDigest(h, t.left, e - 1);
      ValueIsDigest(h, t.right, e - 1);
    } else {
      PairRowShape(h, t.left, d - 1, e - 1);
      PairRowShape(h, t.right, d - 1, e - 1);
    }
  }

  /** A tree has the root of a strictly higher one exactly if its fringe digests the other's pairs at that height. */
  lemma {:induction false} LowerTreeBinding(h: Hash, t: Tree, d: nat, u: Tree, e: nat)
    requires Perfect(t, d) && Perfect(u, e) && d < e
    ensures Fringe(t) == Digests(h, PairRow(h, u, d)) ==> Eval(h, t) == Eval(h, u)
    ensures Eval(h, t) == Eval(h, u) ==>
      Fringe(t) == Digests(h, PairRow(h, u, d)) || Collision(h, Inputs(h, t), Inputs(h, u))
    decreases d
  {
    if d > 0 {
      var l, r := PairRow(h, u.left, d - 1), PairRow(h, u.right, d - 1);
      LowerTreeBinding(h, t.left, d - 1, u.left, e - 1);
      LowerTreeBinding(h, t.right, d - 1, u.right, e - 1);
      DigestsOfConcat(h, l, r);
      if Fringe(t) == Digests(h, l + r) {
        FringeLength(t.left, d - 1);
        PairRowShape(h, u.left, d - 1, e - 1);
        SplitConcat(Fringe(t.left), Fringe(t.right), Digests(h, l), Digests(h, r));
      } else if Eval(h, t) == Eval(h, u) && !Collision(h, Inputs(h, t), Inputs(h, u)) {
        ChildrenAgree(h, t, d, u, e);
        if Collision(h, Inputs(h, t.left), Inputs(h, u.left)) || Collision(h, Inputs(h, t.right), Inputs(h, u.right)) {
          CollisionBelow(h, t, u);
        }
      }
    } else {
      assert Digests(h, PairRow(h, u, 0)) == [Eval(h, u)];
    }
  }

  lemma {:induction false} FringeLength(t: Tree, d: nat)
    requires Perfect(t, d)
    ensures |Fringe(t)| == Pow2(d)
  {
    if d > 0 {
      FringeLength(t.left, d - 1);
      FringeLength(t.right, d - 1);
    }
  }

  /** The fringe of a perfect tree determines the tree. */
  lemma {:induction false} FringeInjective(t: Tree, u: Tree, d: nat)
    requires Perfect(t, d) && Perfect(u, d) && Fringe(t) == Fringe(u)
    ensures t == u
  {
    if d > 0 {
      FringeLength(t.left, d - 1);
      FringeLength(u.left, d - 1);
      assert Fringe(t.left) == Fringe(t)[..Pow2(d - 1)] && Fringe(u.left) == Fringe(u)[..Pow2(d - 1)];
      assert Fringe(t.right) == Fringe(t)[Pow2(d - 1)..] && Fringe(u.right) == Fringe(u)[Pow2(d - 1)..];
      FringeInjective(t.left, u.left, d - 1);
      FringeInjective(t.right, u.right, d - 1);
    }
  }

  // ---------------------------------------------------------------------------------------------
  // What the root of a list of leaves determines
  // ---------------------------------------------------------------------------------------------

  /** The leaves with every duplicated block written out. */
  function FullRow(leaves: seq<string>): (row: seq<string>)
    requires |leaves| > 0
    ensures |row| == Pow2(Depth(|leaves|))
  {
    DepthIsLeast(|leaves|);
    Full(leaves, Depth(|leaves|))
  }

  lemma {:induction false} Pow2Injective(d: nat, e: nat)
    requires Pow2(d) == Pow2(e)
    ensures d == e
  {
    if d > 0 && e > 0 {
      Pow2Injective(d - 1, e - 1);
    }
  }

  lemma {:induction false} FullElements<T>(s: seq<T>, d: nat, k: nat)
    requires 0 < |s| <= Pow2(d) && k < Pow2(d)
    ensures Full(s, d)[k] in s
    decreases d
  {
    if d > 0 {
      var half := Pow2(d - 1);
      if |s| <= half {
        FullElements(s, d - 1, if k < half then k else k - half);
      } else if k < half {
        FullElements(s[..half], d - 1, k);
      } else {
        FullElements(s[half..], d - 1, k - half);
      }
    }
  }

  function Encoded(row: seq<string>): (bytes: seq<Bytes>)
    ensures |bytes| == |row|
  {
    seq(|row|, k requires 0 <= k < |row| => Utf8(row[k]))
  }

  /** The fringe of a leaf list's tree is the digests of the filled-up row. */
  lemma FringeOfLeaves(h: Hash, a: seq<string>)
    requires |a| > 0
    ensures Fringe(TreeOf(h, a)) == Digests(h, Encoded(FullRow(a)))
  {
    TreeOfLeaves(h, a);
    var f: string -> Bytes := (leaf: string) => HashLeaf(h, leaf);
    FullOfMap(f, a, HashLeaves(h, a), Depth(|a|));
    var fringe, row := Fringe(TreeOf(h, a)), FullRow(a);
    forall k | 0 <= k < |row| ensures fringe[k] == Digests(h, Encoded(row))[k] {
      assert fringe[k] == f(row[k]);
    }
  }

  /** Rows of strings with equal digests: the same strings, or a collision. */
  lemma DigestsBind(h: Hash, s: seq<Bytes>, t: seq<Bytes>, a: set<Bytes>, b: set<Bytes>)
    requires Digests(h, s) == Digests(h, t)
    requires forall k :: 0 <= k < |s| ==> s[k] in a
    requires forall k :: 0 <= k < |t| ==> t[k] in b
    ensures s == t || Collision(h, a, b)
  {
    assert |s| == |Digests(h, s)| == |Digests(h, t)| == |t|;
    if s != t {
      var k :| 0 <= k < |s| && s[k] != t[k];
      assert h(s[k]) == Digests(h, s)[k] == Digests(h, t)[k] == h(t[k]);
      FoundCollision(h, s[k], t[k], a, b);
    }
  }

  lemma EncodedAreInputs(h: Hash, a: seq<string>)
    requires |a| > 0
    ensures forall k :: 0 <= k < |Encoded(FullRow(a))| ==> Encoded(FullRow(a))[k] in TreeInputs(h, a)
  {
    DepthIsLeast(|a|);
    forall k | 0 <= k < |FullRow(a)| ensures Encoded(FullRow(a))[k] in TreeInputs(h, a) {
      FullElements(a, Depth(|a|), k);
      var i :| 0 <= i < |a| && a[i] == FullRow(a)[k];
      assert Utf8(a[i]) in LeafInputs(a);
    }
  }

  lemma EncodedInjective(s: seq<string>, t: seq<string>)
    requires Encoded(s) == Encoded(t)
    ensures s == t
  {
    assert |s| == |Encoded(s)| == |Encoded(t)| == |t|;
    forall k | 0 <= k < |s| ensures s[k] == t[k] {
      assert Utf8(s[k]) == Encoded(s)[k] == Encoded(t)[k] == Utf8(t[k]);
      Utf8Injective(s[k], t[k]);
    }
  }

  /** Lists with one filled-up row have one root: duplication loses the rest. */
  lemma SameRowSameRoot(h: Hash, a: seq<string>, b: seq<string>)
    requires |a| > 0 && |b| > 0 && FullRow(a) == FullRow(b)
    ensures TreeRoot(h, a) == TreeRoot(h, b)
  {
    TreeOfLeaves(h, a);
    TreeOfLeaves(h, b);
    Pow2Injective(Depth(|a|), Depth(|b|));
    FringeOfLeaves(h, a);
    FringeOfLeaves(h, b);
    FringeInjective(TreeOf(h, a), TreeOf(h, b), Depth(|a|));
  }

  /** With trees of one height, equal roots mean equal filled-up rows. */
  lemma RootBindsRow(h: Hash, a: seq<string>, b: seq<string>)
    requires |a| > 0 && |b| > 0 && Depth(|a|) == Depth(|b|)
    requires TreeRoot(h, a) == TreeRoot(h, b)
    ensures FullRow(a) == FullRow(b) || Collision(h, TreeInputs(h, a), TreeInputs(h, b))
  {
    TreeOfLeaves(h, a);
    TreeOfLeaves(h, b);
    TreeBinding(h, TreeOf(h, a), TreeOf(h, b), Depth(|a|));
    if TreeOf(h, a) != TreeOf(h, b) {
      CollisionMonotone(h, Inputs(h, TreeOf(h, a)), Inputs(h, TreeOf(h, b)), TreeInputs(h, a), TreeInputs(h, b));
    } else {
      FringeOfLeaves(h, a);
      FringeOfLeaves(h, b);
      EncodedAreInputs(h, a);
      EncodedAreInputs(h, b);
      DigestsBind(h, Encoded(FullRow(a)), Encoded(FullRow(b)), TreeInputs(h, a), TreeInputs(h, b));
      if Encoded(FullRow(a)) == Encoded(FullRow(b)) {
        EncodedInjective(FullRow(a), FullRow(b));
      }
    }
  }

  /** Root binding at equal length: one root, one list. */
  lemma RootBinding(h: Hash, a: seq<string>, b: seq<string>)
    requires |a| == |b| > 0
    requires TreeRoot(h, a) == TreeRoot(h, b)
    ensures a == b || Collision(h, TreeInputs(h, a), TreeInputs(h, b))
  {
    RootBindsRow(h, a, b);
    DepthIsLeast(|a|);
    FullStartsWith(a, Depth(|a|));
    FullStartsWith(b, Depth(|b|));
  }

  /**
   * Leaves and pairs are hashed alike, so leaves can stand for pairs: the leaves of a, filled up, are
   * byte for byte the strings that some level of the higher tree over b hashes.
   */
  ghost predicate StandForPairs(h: Hash, a: seq<string>, b: seq<string>)
    requires |a| > 0 && |b| > 0
  {
    Depth(|a|) < Depth(|b|) && Encoded(FullRow(a)) == PairRow(h, TreeOf(h, b), Depth(|a|))
  }

  /** Two lists whose trees differ in height. */
  lemma OtherHeight(h: Hash, a: seq<string>, b: seq<string>)
    requires |a| > 0 && |b| > 0 && Depth(|a|) < Depth(|b|)
    ensures StandForPairs(h, a, b) ==> TreeRoot(h, a) == TreeRoot(h, b)
    ensures TreeRoot(h, a) == TreeRoot(h, b) ==>
      StandForPairs(h, a, b) || Collision(h, TreeInputs(h, a), TreeInputs(h, b))
  {
    TreeOfLeaves(h, a);
    TreeOfLeaves(h, b);
    var t, u, d := TreeOf(h, a), TreeOf(h, b), Depth(|a|);
    LowerTreeBinding(h, t, d, u, Depth(|b|));
    FringeOfLeaves(h, a);
    if Collision(h, Inputs(h, t), Inputs(h, u)) {
      CollisionMonotone(h, Inputs(h, t), Inputs(h, u), TreeInputs(h, a), TreeInputs(h, b));
    } else if TreeRoot(h, a) == TreeRoot(h, b) {
      PairRowShape(h, u, d, Depth(|b|));
      EncodedAreInputs(h, a);
      DigestsBind(h, Encoded(FullRow(a)), PairRow(h, u, d), TreeInputs(h, a), TreeInputs(h, b));
    }
  }

  lemma CollisionSymmetric(h: Hash, s: set<Bytes>, t: set<Bytes>)
    requires Collision(h, s, t)
    ensures Collision(h, t, s)
  {
  }

  /** The two ways in which different lists come to one root without a collision. */
  ghost predicate SameCommitment(h: Hash, a: seq<string>, b: seq<string>)
    requires |a| > 0 && |b| > 0
  {
    FullRow(a) == FullRow(b) || StandForPairs(h, a, b) || StandForPairs(h, b, a)
  }

  /**
   * The exact meaning of a root, for all non-empty lists: two of them have one root if and only if their
   * filled-up rows agree or the leaves of one stand for pairs of the other (or a collision is exhibited).
   */
  lemma RootsAgreeExactly(h: Hash, a: seq<string>, b: seq<string>)
    requires |a| > 0 && |b| > 0
    ensures SameCommitment(h, a, b) ==> TreeRoot(h, a) == TreeRoot(h, b)
    ensures TreeRoot(h, a) == TreeRoot(h, b) ==>
      SameCommitment(h, a, b) || Collision(h, TreeInputs(h, a), TreeInputs(h, b))
  {
    if FullRow(a) == FullRow(b) {
      SameRowSameRoot(h, a, b);
    } else if Depth(|a|) < Depth(|b|) {
      OtherHeight(h, a, b);
    } else if Depth(|b|) < Depth(|a|) {
      OtherHeight(h, b, a);
      if Collision(h, TreeInputs(h, b), TreeInputs(h, a)) {
        CollisionSymmetric(h, TreeInputs(h, b), TreeInputs(h, a));
      }
    } else if TreeRoot(h, a) == TreeRoot(h, b) {
      RootBindsRow(h, a, b);
    }
  }

  /** Leaves that stand for pairs are 64 bytes long, each hashed as a pair of the other tree. */
  lemma StandingForPairsTakes64Bytes(h: Hash, a: seq<string>, b: seq<string>)
    requires |a| > 0 && |b| > 0 && StandForPairs(h, a, b)
    ensures forall k :: 0 <= k < |a| ==> |Utf8(a[k])| == 64 && Utf8(a[k]) in PairInputs(h, HashLeaves(h, b))
  {
    TreeOfLeaves(h, b);
    var d := Depth(|a|);
    PairRowShape(h, TreeOf(h, b), d, Depth(|b|));
    DepthIsLeast(|a|);
    FullStartsWith(a, d);
    forall k | 0 <= k < |a| ensures |Utf8(a[k])| == 64 && Utf8(a[k]) in PairInputs(h, HashLeaves(h, b)) {
      assert Utf8(a[k]) == Encoded(FullRow(a))[k] == PairRow(h, TreeOf(h, b), d)[k];
    }
  }

  /** Without repeated leaves the root fixes the whole list, its length included, unless leaves stand for pairs. */
  lemma RootBindingDistinct(h: Hash, a: seq<string>, b: seq<string>)
    requires |a| > 0 && |b| > 0 && Distinct(a) && Distinct(b)
    requires TreeRoot(h, a) == TreeRoot(h, b)
    ensures a == b || StandForPairs(h, a, b) || StandForPairs(h, b, a)
         || Collision(h, TreeInputs(h, a), TreeInputs(h, b))
  {
    RootsAgreeExactly(h, a, b);
    if FullRow(a) == FullRow(b) {
      Pow2Injective(Depth(|a|), Depth(|b|));
      DepthIsLeast(|a|);
      DepthIsLeast(|b|);
      FullInjectiveOnDistinct(a, b, Depth(|a|));
    }
  }

  /** In particular: if in neither list every leaf is 64 bytes long. */
  lemma RootBindingWithoutPairSize(h: Hash, a: seq<string>, b: seq<string>, i: nat, j: nat)
    requires i < |a| && j < |b| && |Utf8(a[i])| != 64 && |Utf8(b[j])| != 64
    requires Distinct(a) && Distinct(b)
    requires TreeRoot(h, a) == TreeRoot(h, b)
    ensures a == b || Collision(h, TreeInputs(h, a), TreeInputs(h, b))
  {
    RootBindingDistinct(h, a, b);
    if StandForPairs(h, a, b) {
      StandingForPairsTakes64Bytes(h, a, b);
    } else if StandForPairs(h, b, a) {
      StandingForPairsTakes64Bytes(h, b, a);
    }
  }

  /** Repeating the last leaf of an odd list never changes the root: the length alone is not bound. */
  lemma RepeatedLastLeaf(h: Hash, a: seq<string>)
    requires |a| > 1 && |a| % 2 == 1
    ensures TreeRoot(h, a + [a[|a| - 1]]) == TreeRoot(h, a)
  {
    var b := a + [a[|a| - 1]];
    var s, t := HashLeaves(h, a), HashLeaves(h, b);
    var p := PairHash(h);
    forall k | 0 <= k < |NextLevel(p, s)| ensures NextLevel(p, t)[k] == NextLevel(p, s)[k] {
      assert NextLevel(p, s)[k] == p(s[2 * k], Partner(s, 2 * k));
      assert NextLevel(p, t)[k] == p(t[2 * k], Partner(t, 2 * k));
      assert Partner(t, 2 * k) == Partner(s, 2 * k);
    }
    assert NextLevel(p, t) == NextLevel(p, s);
  }

  /** A hash function whose digests are printable: of a 64-byte string, of "a", and of anything else. */
  function Printable(x: Bytes): Digest {
    if |x| == 64 then seq(32, _ => 49) else if x == [97] then seq(32, _ => 50) else seq(32, _ => 51)
  }

  lemma {:induction false} Utf8OfAscii(s: string)
    requires forall k :: 0 <= k < |s| ==> s[k] < 128 as char
    ensures |Utf8(s)| == |s| && forall k :: 0 <= k < |s| ==> Utf8(s)[k] == s[k] as byte
  {
    if s != [] {
      Utf8OfAscii(s[1..]);
    }
  }

  /** Standing for a pair takes no collision: some hash function has none, and still one root for two lists. */
  lemma LeafCanStandForPair() returns (h: Hash, a: seq<string>, b: seq<string>)
    ensures |a| == 1 && |b| == 2 && Distinct(b) && TreeRoot(h, a) == TreeRoot(h, b)
    ensures !Collision(h, TreeInputs(h, a), TreeInputs(h, b))
  {
    var c := seq(32, _ => '2') + seq(32, _ => '3');
    h, a, b := Printable, [c], ["a", "b"];
    Utf8OfAscii(c);
    Utf8OfAscii("a");
    Utf8OfAscii("b");
    assert Utf8("a") == [97] && Utf8("b") == [98];
    assert Utf8(c) == HashLeaf(h, "a") + HashLeaf(h, "b");
    var s := HashLeaves(h, b);
    var y := PairInput(h, s, 0);
    var top := NextLevel(PairHash(h), s);
    assert y == s[0] + s[1] && top[0 / 2] == h(y);
    assert TreeRoot(h, b) == Root(PairHash(h), top) == top[0];
    assert TreeRoot(h, a) == HashLeaves(h, a)[0];
    assert TreeInputs(h, a) == {Utf8(c)};
    assert TreeInputs(h, b) == {Utf8("a"), Utf8("b"), Utf8(c)} by {
      assert PairInputs(h, top) == {};
      assert RowInputs(s) == {s[2 * 0] + Partner(s, 2 * 0)};
      assert LeafInputs(b) == {Utf8(b[0]), Utf8(b[1])};
    }
    assert h(Utf8(c))[0] == 49 && h(Utf8("a"))[0] == 50 && h(Utf8("b"))[0] == 51;
  }

  // ---------------------------------------------------------------------------------------------
  // Soundness of accepted proofs
  // ---------------------------------------------------------------------------------------------

  function Joined(i: nat, node: Bytes, sibling: Bytes): Bytes {
    if Side(i) == RIGHT then node + sibling else sibling + node
  }

  /** The string hashed for the pair that position i belongs to. */
  lemma PairInput(h: Hash, level: seq<Bytes>, i: nat) returns (y: Bytes)
    requires |level| > 1 && i < |level|
    ensures y in PairInputs(h, level) && NextLevel(PairHash(h), level)[i / 2] == h(y)
    ensures y == Joined(i, level[i], Sibling(level, i))
  {
    var k := i / 2;
    y := level[2 * k] + Partner(level, 2 * k);
    assert y in RowInputs(level);
    assert i == 2 * k || i == 2 * k + 1;
    assert NextLevel(PairHash(h), level)[k] == PairHash(h)(level[2 * k], Partner(level, 2 * k));
  }

  lemma Unjoin(i: nat, node: Bytes, sibling: Bytes, node': Bytes, sibling': Bytes)
    requires Joined(i, node, sibling) == Joined(i, node', sibling') && |node| == |node'|
    ensures node == node' && sibling == sibling'
  {
    if Side(i) == RIGHT {
      SplitConcat(node, sibling, node', sibling');
    } else {
      SplitConcat(sibling, node, sibling', node');
    }
  }

  lemma NextLevelIsDigests(h: Hash, level: seq<Bytes>)
    ensures forall k :: 0 <= k < |NextLevel(PairHash(h), level)| ==> |NextLevel(PairHash(h), level)[k]| == 32
  {
    var next := NextLevel(PairHash(h), level);
    forall k | 0 <= k < |next| ensures |next[k]| == 32 {
      assert next[k] == h(level[2 * k] + Partner(level, 2 * k));
    }
  }

  /** Climbing by the binary digits of the position itself. */
  function ClimbAt(h: Hash, node: Bytes, hashes: seq<Bytes>, i: nat): Bytes
    decreases |hashes|
  {
    if hashes == [] then node else ClimbAt(h, h(Joined(i, node, hashes[0])), hashes[1..], i / 2)
  }

  ghost function ClimbInputsAt(h: Hash, node: Bytes, hashes: seq<Bytes>, i: nat): set<Bytes>
    decreases |hashes|
  {
    if hashes == [] then {}
    else {Joined(i, node, hashes[0])} + ClimbInputsAt(h, h(Joined(i, node, hashes[0])), hashes[1..], i / 2)
  }

  lemma {:induction false} ClimbBySides(h: Hash, node: Bytes, hashes: seq<Bytes>, i: nat)
    ensures Climb(PairHash(h), node, hashes, Sides(i, |hashes|)) == ClimbAt(h, node, hashes, i)
    ensures ClimbInputs(h, node, hashes, Sides(i, |hashes|)) == ClimbInputsAt(h, node, hashes, i)
    decreases |hashes|
  {
    if hashes != [] {
      var up := Sides(i / 2, |hashes| - 1);
      assert Sides(i, |hashes|) == [Side(i)] + up && ([Side(i)] + up)[1..] == up;
      ClimbBySides(h, h(Joined(i, node, hashes[0])), hashes[1..], i / 2);
    }
  }

  /** The hashes are the siblings on the way up from position i. */
  ghost predicate AreSiblings(h: Hash, level: seq<Bytes>, i: nat, hashes: seq<Bytes>)
    requires i < |level|
    decreases |level|
  {
    if |level| == 1 then hashes == []
    else hashes != [] && hashes[0] == Sibling(level, i)
         && AreSiblings(h, NextLevel(PairHash(h), level), i / 2, hashes[1..])
  }

  lemma {:induction false} SiblingsAreProofHashes(h: Hash, level: seq<Bytes>, i: nat, hashes: seq<Bytes>)
    requires i < |level| && AreSiblings(h, level, i, hashes)
    ensures WellShaped(Levels(PairHash(h), level)) && hashes == ProofHashes(Levels(PairHash(h), level), i)
    decreases |level|
  {
    LevelsWellShaped(PairHash(h), level);
    if |level| > 1 {
      SiblingsAreProofHashes(h, NextLevel(PairHash(h), level), i / 2, hashes[1..]);
      assert Levels(PairHash(h), level)[1..] == Levels(PairHash(h), NextLevel(PairHash(h), level));
      assert hashes == [hashes[0]] + hashes[1..];
    }
  }

  lemma CollisionAbove(h: Hash, level: seq<Bytes>, i: nat, node: Bytes, hashes: seq<Bytes>)
    requires |level| > 1 && i < |level| && hashes != []
    requires Collision(h, ClimbInputsAt(h, h(Joined(i, node, hashes[0])), hashes[1..], i / 2),
                       PairInputs(h, NextLevel(PairHash(h), level)))
    ensures Collision(h, ClimbInputsAt(h, node, hashes, i), PairInputs(h, level))
  {
    CollisionMonotone(h, ClimbInputsAt(h, h(Joined(i, node, hashes[0])), hashes[1..], i / 2),
                      PairInputs(h, NextLevel(PairHash(h), level)),
                      ClimbInputsAt(h, node, hashes, i), PairInputs(h, level));
  }

  lemma {:induction false} ClimbBinds(h: Hash, level: seq<Bytes>, i: nat, node: Bytes, hashes: seq<Bytes>)
    requires i < |level| && |node| == 32 && |hashes| == Depth(|level|)
    requires forall k :: 0 <= k < |level| ==> |level[k]| == 32
    requires ClimbAt(h, node, hashes, i) == Root(PairHash(h), level)
    ensures (node == level[i] && AreSiblings(h, level, i, hashes))
         || Collision(h, ClimbInputsAt(h, node, hashes, i), PairInputs(h, level))
    decreases |level|
  {
    if |level| > 1 {
      var next, input := NextLevel(PairHash(h), level), Joined(i, node, hashes[0]);
      NextLevelIsDigests(h, level);
      ClimbBinds(h, next, i / 2, h(input), hashes[1..]);
      var y := PairInput(h, level, i);
      if Collision(h, ClimbInputsAt(h, h(input), hashes[1..], i / 2), PairInputs(h, next)) {
        CollisionAbove(h, level, i, node, hashes);
      } else if input != y {
        FoundCollision(h, input, y, ClimbInputsAt(h, node, hashes, i), PairInputs(h, level));
      } else {
        Unjoin(i, node, hashes[0], level[i], Sibling(level, i));
      }
    }
  }

  /**
   * Soundness: an accepted proof that carries the tree's root and the directions of position i is the proof
   * the tree issues for i, in its leaf hash and in every sibling.
   */
  lemma AcceptedProofIsTheIssuedOne(h: Hash, leaves: seq<string>, i: nat, proof: MerkleProof)
    requires i < |leaves|
    requires |proof.leafHash| == 32
    requires proof.directions == ProofOf(h, leaves, i).directions && proof.root == TreeRoot(h, leaves)
    requires Verdict(h, proof) == Ok(true)
    ensures (proof.leafHash == HashLeaf(h, leaves[i]) && proof.proofHashes == ProofOf(h, leaves, i).proofHashes)
         || Collision(h, ClimbInputs(h, proof.leafHash, proof.proofHashes, proof.directions), TreeInputs(h, leaves))
  {
    var hashed := HashLeaves(h, leaves);
    DepthIsLeast(|leaves|);
    ClimbReachesRoot(PairHash(h), hashed, i);
    ClimbBySides(h, proof.leafHash, proof.proofHashes, i);
    ClimbBinds(h, hashed, i, proof.leafHash, proof.proofHashes);
    var climbed := ClimbInputs(h, proof.leafHash, proof.proofHashes, proof.directions);
    if Collision(h, climbed, PairInputs(h, hashed)) {
      CollisionMonotone(h, climbed, PairInputs(h, hashed), climbed, TreeInputs(h, leaves));
    } else {
      SiblingsAreProofHashes(h, hashed, i, proof.proofHashes);
    }
  }

  // ---------------------------------------------------------------------------------------------
  // Accepted proofs with any directions
  // ---------------------------------------------------------------------------------------------

  function Combined(node: Bytes, sibling: Bytes, side: Direction): Bytes {
    if side == RIGHT then node + sibling else sibling + node
  }

  /** The node reached from the top: the last direction of a proof is the one below the root. */
  function NodeAt(t: Tree, sides: seq<Direction>): Tree {
    if sides == [] || t.Leaf? then t
    else NodeAt(if sides[|sides| - 1] == RIGHT then t.left else t.right, sides[..|sides| - 1])
  }

  /** Climbing all but the last step, then the last one. */
  lemma {:induction false} ClimbLast(h: Hash, node: Bytes, hashes: seq<Bytes>, sides: seq<Direction>)
    requires |hashes| == |sides| > 0
    ensures var n := |hashes| - 1;
      var below := Climb(PairHash(h), node, hashes[..n], sides[..n]);
      var input := Combined(below, hashes[n], sides[n]);
      && Climb(PairHash(h), node, hashes, sides) == h(input)
      && ClimbInputs(h, node, hashes, sides) == ClimbInputs(h, node, hashes[..n], sides[..n]) + {input}
    decreases |hashes|
  {
    var n := |hashes| - 1;
    ClimbFirst(h, node, hashes, sides);
    if n > 0 {
      ClimbLast(h, h(Combined(node, hashes[0], sides[0])), hashes[1..], sides[1..]);
      ClimbFirst(h, node, hashes[..n], sides[..n]);
      assert hashes[1..][..n - 1] == hashes[..n][1..] && sides[1..][..n - 1] == sides[..n][1..];
    }
  }

  lemma ClimbFirst(h: Hash, node: Bytes, hashes: seq<Bytes>, sides: seq<Direction>)
    requires |hashes| == |sides| > 0
    ensures var input := Combined(node, hashes[0], sides[0]);
      && Climb(PairHash(h), node, hashes, sides) == Climb(PairHash(h), h(input), hashes[1..], sides[1..])
      && ClimbInputs(h, node, hashes, sides) == {input} + ClimbInputs(h, h(input), hashes[1..], sides[1..])
  {
  }

  lemma ClimbedIsDigest(h: Hash, node: Bytes, hashes: seq<Bytes>, sides: seq<Direction>)
    requires |hashes| == |sides| && |node| == 32
    ensures |Climb(PairHash(h), node, hashes, sides)| == 32
  {
    if hashes != [] {
      ClimbLast(h, node, hashes, sides);
    }
  }

  /** Whatever its siblings and directions, a proof that reaches a tree's root started at the tree's node there. */
  lemma {:induction false} ClimbFindsNode(
      h: Hash, t: Tree, d: nat, node: Bytes, hashes: seq<Bytes>, sides: seq<Direction>)
    requires Perfect(t, d) && |node| == 32 && |hashes| == |sides| <= d
    requires Climb(PairHash(h), node, hashes, sides) == Eval(h, t)
    ensures node == Eval(h, NodeAt(t, sides)) || Collision(h, ClimbInputs(h, node, hashes, sides), Inputs(h, t))
    decreases d
  {
    if hashes != [] {
      var n := |hashes| - 1;
      var below, x := Climb(PairHash(h), node, hashes[..n], sides[..n]), Eval(h, t.left) + Eval(h, t.right);
      var child := if sides[n] == RIGHT then t.left else t.right;
      var input := Combined(below, hashes[n], sides[n]);
      ClimbLast(h, node, hashes, sides);
      ClimbedIsDigest(h, node, hashes[..n], sides[..n]);
      ValueIsDigest(h, t.left, d - 1);
      ValueIsDigest(h, t.right, d - 1);
      if input != x {
        FoundCollision(h, input, x, ClimbInputs(h, node, hashes, sides), Inputs(h, t));
      } else {
        if sides[n] == RIGHT {
          SplitConcat(below, hashes[n], Eval(h, t.left), Eval(h, t.right));
        } else {
          SplitConcat(hashes[n], below, Eval(h, t.left), Eval(h, t.right));
        }
        ClimbFindsNode(h, child, d - 1, node, hashes[..n], sides[..n]);
        if node != Eval(h, NodeAt(child, sides[..n])) {
          CollisionMonotone(h, ClimbInputs(h, node, hashes[..n], sides[..n]), Inputs(h, child),
                            ClimbInputs(h, node, hashes, sides), Inputs(h, t));
        }
      }
    }
  }

  lemma {:induction false} IndexOfLast(sides: seq<Direction>)
    requires sides != []
    ensures var n := |sides| - 1;
      IndexOf(sides) == IndexOf(sides[..n]) + if sides[n] == LEFT then Pow2(n) else 0
    ensures IndexOf(sides) < Pow2(|sides|)
  {
    if |sides| > 1 {
      IndexOfLast(sides[1..]);
      assert sides[..|sides| - 1][1..] == sides[1..][..|sides| - 2];
    }
  }

  /** Directions down to a leaf read as binary digits are its position in the fringe. */
  lemma {:induction false} NodeAtIndex(t: Tree, d: nat, sides: seq<Direction>)
    requires Perfect(t, d) && |sides| == d
    ensures |Fringe(t)| == Pow2(d) && IndexOf(sides) < Pow2(d)
    ensures NodeAt(t, sides) == Leaf(Fringe(t)[IndexOf(sides)])
    decreases d
  {
    FringeLength(t, d);
    if d > 0 {
      FringeLength(t.left, d - 1);
      FringeLength(t.right, d - 1);
      IndexOfLast(sides);
      NodeAtIndex(if sides[d - 1] == RIGHT then t.left else t.right, d - 1, sides[..d - 1]);
    }
  }

  /**
   * Soundness for any directions. An accepted proof that carries the tree's root and no more steps than the
   * tree has levels starts from a node of the tree: the one its directions lead to from the top.
   */
  lemma AcceptedProofStartsAtANode(h: Hash, leaves: seq<string>, proof: MerkleProof)
    requires |leaves| > 0 && |proof.leafHash| == 32 && proof.root == TreeRoot(h, leaves)
    requires Verdict(h, proof) == Ok(true) && |proof.directions| <= Depth(|leaves|)
    ensures proof.leafHash == Eval(h, NodeAt(TreeOf(h, leaves), proof.directions))
         || Collision(h, ClimbInputs(h, proof.leafHash, proof.proofHashes, proof.directions), TreeInputs(h, leaves))
  {
    TreeOfLeaves(h, leaves);
    var t := TreeOf(h, leaves);
    ClimbFindsNode(h, t, Depth(|leaves|), proof.leafHash, proof.proofHashes, proof.directions);
    var climbed := ClimbInputs(h, proof.leafHash, proof.proofHashes, proof.directions);
    if Collision(h, climbed, Inputs(h, t)) {
      CollisionMonotone(h, climbed, Inputs(h, t), climbed, TreeInputs(h, leaves));
    }
  }

  /** With as many steps as levels it proves membership, of the leaf at the position its directions spell. */
  lemma AcceptedProofProvesMembership(h: Hash, leaves: seq<string>, proof: MerkleProof)
    requires |leaves| > 0 && |proof.leafHash| == 32 && proof.root == TreeRoot(h, leaves)
    requires Verdict(h, proof) == Ok(true) && |proof.directions| == Depth(|leaves|)
    ensures IndexOf(proof.directions) < |FullRow(leaves)| && FullRow(leaves)[IndexOf(proof.directions)] in leaves
    ensures proof.leafHash == HashLeaf(h, FullRow(leaves)[IndexOf(proof.directions)])
         || Collision(h, ClimbInputs(h, proof.leafHash, proof.proofHashes, proof.directions), TreeInputs(h, leaves))
  {
    var t, i := TreeOf(h, leaves), IndexOf(proof.directions);
    AcceptedProofStartsAtANode(h, leaves, proof);
    TreeOfLeaves(h, leaves);
    NodeAtIndex(t, Depth(|leaves|), proof.directions);
    FullElements(leaves, Depth(|leaves|), i);
    FringeOfLeaves(h, leaves);
    assert Fringe(t)[i] == Digests(h, Encoded(FullRow(leaves)))[i] == HashLeaf(h, FullRow(leaves)[i]);
  }

  /** Such a proof names the leaf it starts at exactly if its leaf hash is the hash of the leaf it names. */
  lemma NamedLeafExactly(h: Hash, leaves: seq<string>, proof: MerkleProof)
    requires |leaves| > 0 && |proof.leafHash| == 32 && proof.root == TreeRoot(h, leaves)
    requires Verdict(h, proof) == Ok(true) && |proof.directions| == Depth(|leaves|)
    ensures IndexOf(proof.directions) < |FullRow(leaves)|
    ensures (proof.leaf == FullRow(leaves)[IndexOf(proof.directions)] <==> proof.leafHash == HashLeaf(h, proof.leaf))
         || Collision(h, {Utf8(proof.leaf)} + ClimbInputs(h, proof.leafHash, proof.proofHashes, proof.directions),
                      TreeInputs(h, leaves))
  {
    AcceptedProofProvesMembership(h, leaves, proof);
    var leaf := FullRow(leaves)[IndexOf(proof.directions)];
    var climbed := ClimbInputs(h, proof.leafHash, proof.proofHashes, proof.directions);
    if proof.leafHash != HashLeaf(h, leaf) {
      CollisionMonotone(h, climbed, TreeInputs(h, leaves), {Utf8(proof.leaf)} + climbed, TreeInputs(h, leaves));
    } else if proof.leafHash == HashLeaf(h, proof.leaf) && proof.leaf != leaf {
      if Utf8(proof.leaf) == Utf8(leaf) {
        Utf8Injective(proof.leaf, leaf);
      }
      var k :| 0 <= k < |leaves| && leaves[k] == leaf;
      assert Utf8(leaves[k]) in LeafInputs(leaves);
      FoundCollision(h, Utf8(proof.leaf), Utf8(leaf), {Utf8(proof.leaf)} + climbed, TreeInputs(h, leaves));
    }
  }
}
