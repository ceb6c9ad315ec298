/**
 * The level-by-level construction of the Merkle tree as functions. The hash of a pair is a parameter, so
 * that one definition serves both byte digests and the symbolic trees that compare shapes.
 */
module MerkleLevels {
  datatype Direction = LEFT | RIGHT

  /** The right neighbour of position i, or the node itself where an odd level ends. */
  function Partner<D>(level: seq<D>, i: nat): D
    requires i < |level|
  {
    if i + 1 < |level| then level[i + 1] else level[i]
  }

  function NextLevel<D>(pair: (D, D) -> D, level: seq<D>): (next: seq<D>)
    ensures |next| == (|level| + 1) / 2
  {
    seq((|level| + 1) / 2, k requires 0 <= k < (|level| + 1) / 2 => pair(level[2 * k], Partner(level, 2 * k)))
  }

  function Levels<D>(pair: (D, D) -> D, level: seq<D>): (levels: seq<seq<D>>)
    requires |level| > 0
    ensures |levels| > 0 && levels[0] == level
    decreases |level|
  {
    if |level| == 1 then [level] else [level] + Levels(pair, NextLevel(pair, level))
  }

  function Root<D>(pair: (D, D) -> D, level: seq<D>): D
    requires |level| > 0
    decreases |level|
  {
    if |level| == 1 then level[0] else Root(pair, NextLevel(pair, level))
  }

  lemma {:induction false} TopOfLevels<D>(pair: (D, D) -> D, level: seq<D>)
    requires |level| > 0
    ensures var levels := Levels(pair, level);
            levels[|levels| - 1] == [Root(pair, level)] && |levels| == Depth(|level|) + 1
    decreases |level|
  {
    if |level| > 1 {
      TopOfLevels(pair, NextLevel(pair, level));
    }
  }

  function Sibling<D>(level: seq<D>, i: nat): D
    requires i < |level|
  {
    if i % 2 == 0 then Partner(level, i) else level[i - 1]
  }

  function Side(i: nat): Direction {
    if i % 2 == 0 then RIGHT else LEFT
  }

  /** Sibling hashes from the leaf level up, for the node at position i of the first level. */
  function ProofHashes<D>(levels: seq<seq<D>>, i: nat): (hashes: seq<D>)
    requires WellShaped(levels) && i < |levels[0]|
  {
    if |levels| == 1 then [] else [Sibling(levels[0], i)] + ProofHashes(levels[1..], i / 2)
  }

  /** The sides are the binary digits of the index, lowest first, with LEFT standing for 1. */
  function Sides(i: nat, depth: nat): (sides: seq<Direction>)
    ensures |sides| == depth
  {
    if depth == 0 then [] else [Side(i)] + Sides(i / 2, depth - 1)
  }

  ghost predicate WellShaped<D>(levels: seq<seq<D>>) {
    |levels| > 0 && |levels[0]| > 0 &&
    forall k :: 0 < k < |levels| ==> |levels[k]| == (|levels[k - 1]| + 1) / 2
  }

  lemma AppendOne<T>(s: seq<T>, x: T, rest: seq<T>)
    ensures s + ([x] + rest) == s + [x] + rest
  {
  }

  /** One step of the walk over the levels. */
  lemma UnrollLevel<D>(levels: seq<seq<D>>, k: nat, i: nat)
    requires k + 1 < |levels| && WellShaped(levels[k..]) && i < |levels[k]|
    ensures WellShaped(levels[k + 1..]) && i / 2 < |levels[k + 1]|
    ensures ProofHashes(levels[k..], i) == [Sibling(levels[k], i)] + ProofHashes(levels[k + 1..], i / 2)
  {
  }

  lemma {:induction false} LevelsWellShaped<D>(pair: (D, D) -> D, level: seq<D>)
    requires |level| > 0
    ensures WellShaped(Levels(pair, level))
    decreases |level|
  {
    if |level| > 1 {
      var next := NextLevel(pair, level);
      LevelsWellShaped(pair, next);
      var rest := Levels(pair, next);
      forall k | 0 < k < |[level] + rest|
        ensures |([level] + rest)[k]| == (|([level] + rest)[k - 1]| + 1) / 2
      {
        assert ([level] + rest)[k] == rest[k - 1];
        if k > 1 {
          assert ([level] + rest)[k - 1] == rest[k - 2];
        }
      }
    }
  }

  /** Hashing upwards from a node with the given siblings. */
  function Climb<D>(pair: (D, D) -> D, node: D, hashes: seq<D>, sides: seq<Direction>): D
    requires |hashes| == |sides|
    decreases |hashes|
  {
    if hashes == [] then node
    else
      var parent := if sides[0] == RIGHT then pair(node, hashes[0]) else pair(hashes[0], node);
      Climb(pair, parent, hashes[1..], sides[1..])
  }

  // ---------------------------------------------------------------------------------------------
  // Depth
  // ---------------------------------------------------------------------------------------------

  function Pow2(d: nat): (p: nat)
    ensures p >= 1
  {
    if d == 0 then 1 else 2 * Pow2(d - 1)
  }

  /** How often a row of n nodes is halved, rounding up, before one node is left. */
  function Depth(n: nat): nat {
    if n <= 1 then 0 else 1 + Depth((n + 1) / 2)
  }

  /** Depth(n) is the least d with 2^d >= n. */
  lemma {:induction false} DepthIsLeast(n: nat)
    requires n > 0
    ensures n <= Pow2(Depth(n))
    ensures Depth(n) > 0 ==> Pow2(Depth(n) - 1) < n
    decreases n
  {
    if n > 1 {
      DepthIsLeast((n + 1) / 2);
      if Depth(n) > 1 {
        assert Pow2(Depth(n) - 1) == 2 * Pow2(Depth(n) - 2);
      }
    }
  }

  lemma {:induction false} DepthUnique(n: nat, d: nat)
    requires n > 0
    requires n <= Pow2(d) && (d > 0 ==> Pow2(d - 1) < n)
    ensures Depth(n) == d
    decreases d
  {
    if d > 0 {
      if d > 1 {
        assert Pow2(d - 1) == 2 * Pow2(d - 2);
      }
      DepthUnique((n + 1) / 2, d - 1);
    }
  }

  /** Reading the sides back as binary digits gives the index again. */
  function IndexOf(sides: seq<Direction>): nat {
    if sides == [] then 0 else (if sides[0] == LEFT then 1 else 0) + 2 * IndexOf(sides[1..])
  }

  lemma {:induction false} SidesAreBinaryDigits(i: nat, depth: nat)
    requires i < Pow2(depth)
    ensures IndexOf(Sides(i, depth)) == i
  {
    if depth > 0 {
      SidesAreBinaryDigits(i / 2, depth - 1);
      assert Sides(i, depth)[1..] == Sides(i / 2, depth - 1);
    }
  }

  // ---------------------------------------------------------------------------------------------
  // The same tree, top down
  // ---------------------------------------------------------------------------------------------

  /**
   * The node over the row s at height d, top down: the row is split at 2^(d-1); where the right half is
   * missing the left one stands in for it.
   */
  function Subtree<D>(pair: (D, D) -> D, s: seq<D>, d: nat): D
    requires 0 < |s| <= Pow2(d)
  {
    if d == 0 then s[0]
    else
      var half := Pow2(d - 1);
      if |s| <= half then
        var x := Subtree(pair, s, d - 1);
        pair(x, x)
      else
        pair(Subtree(pair, s[..half], d - 1), Subtree(pair, s[half..], d - 1))
  }

  /** The row that the tree over s really hashes: s with every missing right half filled by a copy of the left. */
  function Full<T>(s: seq<T>, d: nat): (f: seq<T>)
    requires 0 < |s| <= Pow2(d)
    ensures |f| == Pow2(d)
  {
    if d == 0 then s
    else
      var half := Pow2(d - 1);
      if |s| <= half then Full(s, d - 1) + Full(s, d - 1)
      else Full(s[..half], d - 1) + Full(s[half..], d - 1)
  }

  lemma NextOfSplit<D>(pair: (D, D) -> D, s: seq<D>, half: nat)
    requires half % 2 == 0 && half <= |s|
    ensures NextLevel(pair, s)[..half / 2] == NextLevel(pair, s[..half])
    ensures NextLevel(pair, s)[half / 2..] == NextLevel(pair, s[half..])
  {
    var next, left, right := NextLevel(pair, s), NextLevel(pair, s[..half]), NextLevel(pair, s[half..]);
    forall k | 0 <= k < half / 2 ensures next[k] == left[k] {
      assert left[k] == pair(s[..half][2 * k], Partner(s[..half], 2 * k));
      assert next[k] == pair(s[2 * k], Partner(s, 2 * k));
      assert 2 * k + 1 < half;
      assert Partner(s[..half], 2 * k) == s[2 * k + 1] == Partner(s, 2 * k);
    }
    forall k | 0 <= k < |right| ensures next[half / 2 + k] == right[k] {
      assert right[k] == pair(s[half..][2 * k], Partner(s[half..], 2 * k));
      assert next[half / 2 + k] == pair(s[2 * (half / 2 + k)], Partner(s, 2 * (half / 2 + k)));
      assert 2 * (half / 2 + k) == half + 2 * k;
    }
    assert next[..half / 2] == left && next[half / 2..] == right;
  }

  lemma SubtreeOfPair<D>(pair: (D, D) -> D, s: seq<D>)
    requires 0 < |s| <= 2
    ensures Pow2(1) == 2 && Pow2(0) == 1
    ensures Subtree(pair, s, 1) == Subtree(pair, NextLevel(pair, s), 0)
  {
    assert Pow2(1) == 2 && Pow2(0) == 1;
    assert NextLevel(pair, s)[0] == pair(s[0], Partner(s, 0));
    assert |s| == 2 ==> s[..1][0] == s[0] && s[1..][0] == s[1];
  }

  /** One bottom-up level is one step down in height of the top-down tree. */
  lemma {:induction false} SubtreeOfNextLevel<D>(pair: (D, D) -> D, s: seq<D>, d: nat)
    requires d > 0 && 0 < |s| <= Pow2(d)
    ensures Subtree(pair, s, d) == Subtree(pair, NextLevel(pair, s), d - 1)
    decreases d
  {
    if d > 1 {
      var half := Pow2(d - 1);
      assert half == 2 * Pow2(d - 2);
      if |s| <= half {
        SubtreeOfNextLevel(pair, s, d - 1);
      } else {
        NextOfSplit(pair, s, half);
        SubtreeOfNextLevel(pair, s[..half], d - 1);
        SubtreeOfNextLevel(pair, s[half..], d - 1);
      }
    } else {
      SubtreeOfPair(pair, s);
    }
  }

  /** The level-by-level builder computes the top-down tree of least height. */
  lemma {:induction false} RootIsSubtree<D>(pair: (D, D) -> D, s: seq<D>)
    requires |s| > 0
    ensures |s| <= Pow2(Depth(|s|))
    ensures Root(pair, s) == Subtree(pair, s, Depth(|s|))
    decreases |s|
  {
    DepthIsLeast(|s|);
    if |s| > 1 {
      RootIsSubtree(pair, NextLevel(pair, s));
      SubtreeOfNextLevel(pair, s, Depth(|s|));
    }
  }

  lemma ParentOf<D>(pair: (D, D) -> D, level: seq<D>, i: nat)
    requires |level| > 1 && i < |level|
    ensures NextLevel(pair, level)[i / 2] ==
      if Side(i) == RIGHT then pair(level[i], Sibling(level, i)) else pair(Sibling(level, i), level[i])
  {
    var k := i / 2;
    assert NextLevel(pair, level)[k] == pair(level[2 * k], Partner(level, 2 * k));
    assert i == 2 * k || i == 2 * k + 1;
  }

  /** Completeness of proofs: climbing from any node with its own siblings reaches the root. */
  lemma {:induction false} ClimbReachesRoot<D>(pair: (D, D) -> D, level: seq<D>, i: nat)
    requires i < |level|
    ensures WellShaped(Levels(pair, level))
    ensures var hashes := ProofHashes(Levels(pair, level), i);
            |hashes| == Depth(|level|) &&
            Climb(pair, level[i], hashes, Sides(i, Depth(|level|))) == Root(pair, level)
    decreases |level|
  {
    LevelsWellShaped(pair, level);
    if |level| > 1 {
      var next := NextLevel(pair, level);
      ClimbReachesRoot(pair, next, i / 2);
      assert Levels(pair, level)[1..] == Levels(pair, next);
      var rest, up := ProofHashes(Levels(pair, next), i / 2), Sides(i / 2, Depth(|next|));
      var hashes, sides := [Sibling(level, i)] + rest, [Side(i)] + up;
      assert hashes[1..] == rest && sides[1..] == up;
      ParentOf(pair, level, i);
    }
  }

  // ---------------------------------------------------------------------------------------------
  // The filled-up row
  // ---------------------------------------------------------------------------------------------

  lemma {:induction false} FullAt<T>(s: seq<T>, d: nat, k: nat)
    requires 0 < |s| <= Pow2(d) && k < |s|
    ensures Full(s, d)[k] == s[k]
    decreases d
  {
    if d > 0 {
      var half := Pow2(d - 1);
      if |s| <= half {
        FullAt(s, d - 1, k);
      } else if k < half {
        FullAt(s[..half], d - 1, k);
      } else {
        FullAt(s[half..], d - 1, k - half);
      }
    }
  }

  lemma {:induction false} FullStartsWith<T>(s: seq<T>, d: nat)
    requires 0 < |s| <= Pow2(d)
    ensures |s| <= |Full(s, d)| && s <= Full(s, d)
  {
    forall k | 0 <= k < |s| ensures Full(s, d)[k] == s[k] {
      FullAt(s, d, k);
    }
  }

  ghost predicate Distinct<T(!new)>(s: seq<T>) {
    forall i, j :: 0 <= i < j < |s| ==> s[i] != s[j]
  }

  lemma HalvesOfFull<T>(s: seq<T>, d: nat)
    requires d > 0 && 0 < |s| <= Pow2(d)
    ensures var half := Pow2(d - 1);
      if |s| <= half then Full(s, d)[..half] == Full(s, d - 1)
      else Full(s, d)[..half] == Full(s[..half], d - 1) && Full(s, d)[half..] == Full(s[half..], d - 1)
  {
  }

  lemma FullRowIsFull<T>(s: seq<T>, d: nat)
    requires |s| == Pow2(d)
    ensures Full(s, d) == s
  {
  }

  /** Without repeated leaves the filled-up row determines the list, even its length. */
  lemma {:induction false} FullInjectiveOnDistinct<T(!new)>(s: seq<T>, t: seq<T>, d: nat)
    requires 0 < |s| <= Pow2(d) && 0 < |t| <= Pow2(d)
    requires Distinct(s) && Distinct(t)
    requires Full(s, d) == Full(t, d)
    ensures s == t
    decreases d
  {
    if d > 0 {
      var half := Pow2(d - 1);
      HalvesOfFull(s, d);
      HalvesOfFull(t, d);
      if |s| <= half < |t| {
        RepeatedHalf(s, t, d);
      } else if |t| <= half < |s| {
        RepeatedHalf(t, s, d);
      } else if |s| <= half {
        FullInjectiveOnDistinct(s, t, d - 1);
      } else {
        FullRowIsFull(s[..half], d - 1);
        FullRowIsFull(t[..half], d - 1);
        FullInjectiveOnDistinct(s[half..], t[half..], d - 1);
        assert s == s[..half] + s[half..] && t == t[..half] + t[half..];
      }
    }
  }

  lemma RepeatedHalf<T(!new)>(s: seq<T>, t: seq<T>, d: nat)
    requires d > 0 && 0 < |s| <= Pow2(d - 1) < |t| <= Pow2(d)
    requires Distinct(t)
    ensures Full(s, d) != Full(t, d)
  {
    var half := Pow2(d - 1);
    FullStartsWith(s, d - 1);
    FullStartsWith(t, d);
    var f, g := Full(s, d), Full(t, d);
    assert f[0] == f[half];
    assert g[0] == t[0] && g[half] == t[half];
  }

  /** Filling up commutes with hashing the leaves one by one. */
  lemma {:induction false} FullOfMap<S, T>(f: S -> T, s: seq<S>, t: seq<T>, d: nat)
    requires 0 < |s| <= Pow2(d) && |t| == |s|
    requires forall k :: 0 <= k < |s| ==> t[k] == f(s[k])
    ensures forall k :: 0 <= k < Pow2(d) ==> Full(t, d)[k] == f(Full(s, d)[k])
    decreases d
  {
    if d > 0 {
      var half := Pow2(d - 1);
      if |s| <= half {
        FullOfMap(f, s, t, d - 1);
      } else {
        FullOfMap(f, s[..half], t[..half], d - 1);
        FullOfMap(f, s[half..], t[half..], d - 1);
      }
    }
  }
}
