/**
 The transaction Merkle root: levels of pair hashes, an odd last node paired with itself. The loop
 computes the root of one balanced tree, and that root binds the list once its length is known.
 */
module TxMerkle {
  import opened Ledger

  type Digest = string

  /** SHA-256 of a transaction's encoding, and of two concatenated digests. */
  datatype Hashing = Hashing(leaf: Tx -> Digest, node: (Digest, Digest) -> Digest)

  const EmptyRoot: Digest := "0x0000000000000000000000000000000000000000000000000000000000000000"

  function Leaves(h: Hashing, txs: seq<Tx>): (ds: seq<Digest>)
    ensures |ds| == |txs| && forall i :: 0 <= i < |txs| ==> ds[i] == h.leaf(txs[i])
  {
    seq(|txs|, i requires 0 <= i < |txs| => h.leaf(txs[i]))
  }

  /** The next level up. */
  function Parents(h: Hashing, level: seq<Digest>): (up: seq<Digest>)
    ensures |up| == (|level| + 1) / 2
  {
    if level == [] then []
    else if |level| == 1 then [h.node(level[0], level[0])]
    else [h.node(level[0], level[1])] + Parents(h, level[2..])
  }

  function ClimbLevels(h: Hashing, level: seq<Digest>): Digest
    requires level != []
    decreases |level|
  {
    if |level| == 1 then level[0] else ClimbLevels(h, Parents(h, level))
  }

  function Root(h: Hashing, txs: seq<Tx>): Digest
  {
    if txs == [] then EmptyRoot else ClimbLevels(h, Leaves(h, txs))
  }

  lemma {:induction false} ParentsAppend(h: Hashing, a: seq<Digest>, b: seq<Digest>)
    requires |a| % 2 == 0
    ensures Parents(h, a + b) == Parents(h, a) + Parents(h, b)
    decreases |a|
  {
    if a == [] {
      assert a + b == b;
    } else {
      ParentsAppend(h, a[2..], b);
      assert (a + b)[2..] == a[2..] + b;
    }
  }

  method TxMerkleRoot(h: Hashing, txs: seq<Tx>) returns (root: Digest)
    ensures root == Root(h, txs)
  {
    if txs == [] {
      return EmptyRoot;
    }
    var level: seq<Digest> := [];
    for i := 0 to |txs|
      invariant |level| == i && forall j :: 0 <= j < i ==> level[j] == h.leaf(txs[j])
    {
      level := level + [h.leaf(txs[i])];
    }
    assert level == Leaves(h, txs);
    while |level| > 1
      invariant level != [] && Root(h, txs) == ClimbLevels(h, level)
      decreases |level|
    {
      level := HashPairs(h, level);
    }
    return level[0];
  }

  method HashPairs(h: Hashing, level: seq<Digest>) returns (next: seq<Digest>)
    ensures next == Parents(h, level)
  {
    next := [];
    var i := 0;
    while i < |level|
      invariant 0 <= i <= |level| + 1
      invariant Parents(h, level) == next + (if i < |level| then Parents(h, level[i..]) else [])
    {
      var left := level[i];
      var right := left;
      if i + 1 < |level| {
        right := level[i + 1];
        assert level[i..][2..] == level[i + 2..];
      }
      next := next + [h.node(left, right)];
      i := i + 2;
    }
  }

  // ---------------------------------------------------------------- the tree it is the root of

  function Pow2(n: nat): (p: nat)
    ensures p > 0
  {
    if n == 0 then 1 else 2 * Pow2(n - 1)
  }

  /** Least depth whose tree has room for `n` leaves. */
  function Depth(n: nat): (d: nat)
    requires n > 0
    ensures n <= Pow2(d)
  {
    if n == 1 then 0 else 1 + Depth((n + 1) / 2)
  }

  /** The balanced tree of the given depth; an absent right half repeats the left one. */
  function Subtree(h: Hashing, leaves: seq<Digest>, depth: nat): Digest
    requires 0 < |leaves| <= Pow2(depth)
    decreases depth
  {
    if depth == 0 then leaves[0] else
    var half := Pow2(depth - 1);
    if |leaves| <= half then
      var only := Subtree(h, leaves, depth - 1);
      h.node(only, only)
    else h.node(Subtree(h, leaves[..half], depth - 1), Subtree(h, leaves[half..], depth - 1))
  }

  lemma ParentsHalves(h: Hashing, leaves: seq<Digest>, depth: nat)
    requires depth > 0 && Pow2(depth) < |leaves|
    ensures var up, half := Parents(h, leaves), Pow2(depth - 1);
            half < |up| && up[..half] == Parents(h, leaves[..Pow2(depth)]) &&
              up[half..] == Parents(h, leaves[Pow2(depth)..])
  {
    var a, b := leaves[..Pow2(depth)], leaves[Pow2(depth)..];
    assert leaves == a + b && |a| == 2 * Pow2(depth - 1);
    ParentsAppend(h, a, b);
  }

  /** Hashing one level up is the same tree, one level shorter. */
  lemma {:induction false} OneLevelUp(h: Hashing, leaves: seq<Digest>, depth: nat)
    requires 0 < |leaves| <= Pow2(depth + 1)
    ensures 0 < |Parents(h, leaves)| <= Pow2(depth)
    ensures Subtree(h, leaves, depth + 1) == Subtree(h, Parents(h, leaves), depth)
    decreases depth
  {
    if depth == 0 {
      assert Pow2(1) == 2 && Pow2(0) == 1;
      assert |leaves| == 2 ==> leaves[..1] == [leaves[0]] && leaves[1..] == [leaves[1]];
    } else {
      var half := Pow2(depth);
      if |leaves| <= half {
        OneLevelUp(h, leaves, depth - 1);
      } else {
        ParentsHalves(h, leaves, depth);
        OneLevelUp(h, leaves[..half], depth - 1);
        OneLevelUp(h, leaves[half..], depth - 1);
        assert Pow2(depth) == 2 * Pow2(depth - 1);
      }
    }
  }

  /** The level-by-level loop computes the root of the balanced tree. */
  lemma {:induction false} RootIsTree(h: Hashing, level: seq<Digest>)
    requires level != []
    ensures ClimbLevels(h, level) == Subtree(h, level, Depth(|level|))
    decreases |level|
  {
    if |level| > 1 {
      RootIsTree(h, Parents(h, level));
      OneLevelUp(h, level, Depth((|level| + 1) / 2));
    }
  }

  // ---------------------------------------------------------------- binding

  ghost predicate CollisionFree(h: Hashing)
  {
    && (forall a: Tx, b: Tx :: h.leaf(a) == h.leaf(b) ==> a == b)
    && (forall a: Digest, b: Digest, c: Digest, d: Digest :: h.node(a, b) == h.node(c, d) ==> a == c && b == d)
  }

  /** The leaves of the tree with every absent right half filled in by its left one. */
  function Padded<T>(xs: seq<T>, depth: nat): (full: seq<T>)
    requires 0 < |xs| <= Pow2(depth)
    ensures |full| == Pow2(depth) && xs <= full
    decreases depth
  {
    if depth == 0 then xs else
    var half := Pow2(depth - 1);
    if |xs| <= half then Padded(xs, depth - 1) + Padded(xs, depth - 1)
    else
      assert xs == xs[..half] + xs[half..];
      Padded(xs[..half], depth - 1) + Padded(xs[half..], depth - 1)
  }

  /** The leaves below the two children of a root. */
  function Halves<T>(xs: seq<T>, depth: nat): (r: (seq<T>, seq<T>))
    requires depth > 0 && 0 < |xs| <= Pow2(depth)
    ensures 0 < |r.0| <= Pow2(depth - 1) && 0 < |r.1| <= Pow2(depth - 1)
    ensures Padded(xs, depth) == Padded(r.0, depth - 1) + Padded(r.1, depth - 1)
  {
    var half := Pow2(depth - 1);
    if |xs| <= half then (xs, xs) else (xs[..half], xs[half..])
  }

  lemma SubtreeHalves(h: Hashing, leaves: seq<Digest>, depth: nat)
    requires depth > 0 && 0 < |leaves| <= Pow2(depth)
    ensures var (l, r) := Halves(leaves, depth);
            Subtree(h, leaves, depth) == h.node(Subtree(h, l, depth - 1), Subtree(h, r, depth - 1))
  {
  }

  lemma NodesEqual(h: Hashing, a: Digest, b: Digest, c: Digest, d: Digest)
    requires CollisionFree(h)
    ensures h.node(a, b) == h.node(c, d) <==> a == c && b == d
  {
  }

  /** Two trees of one depth have one root exactly when they have the same filled-in leaves. */
  lemma {:induction false} TreesEqual(h: Hashing, a: seq<Digest>, b: seq<Digest>, depth: nat)
    requires CollisionFree(h) && 0 < |a| <= Pow2(depth) && 0 < |b| <= Pow2(depth)
    ensures Subtree(h, a, depth) == Subtree(h, b, depth) <==> Padded(a, depth) == Padded(b, depth)
    decreases depth, 1
  {
    if depth == 0 {
      assert a == [a[0]] && b == [b[0]];
    } else {
      TreesEqualBelow(h, a, b, depth);
    }
  }

  lemma {:induction false} TreesEqualBelow(h: Hashing, a: seq<Digest>, b: seq<Digest>, depth: nat)
    requires CollisionFree(h) && depth > 0 && 0 < |a| <= Pow2(depth) && 0 < |b| <= Pow2(depth)
    ensures Subtree(h, a, depth) == Subtree(h, b, depth) <==> Padded(a, depth) == Padded(b, depth)
    decreases depth, 0
  {
    var d, x, y := depth - 1, Halves(a, depth), Halves(b, depth);
    SubtreeHalves(h, a, depth);
    SubtreeHalves(h, b, depth);
    NodesEqual(h, Subtree(h, x.0, d), Subtree(h, x.1, d), Subtree(h, y.0, d), Subtree(h, y.1, d));
    TreesEqual(h, x.0, y.0, d);
    TreesEqual(h, x.1, y.1, d);
    SameHalves(Padded(x.0, d), Padded(x.1, d), Padded(y.0, d), Padded(y.1, d));
  }

  lemma SameHalves<T>(a: seq<T>, b: seq<T>, c: seq<T>, d: seq<T>)
    requires |a| == |c|
    ensures a + b == c + d <==> a == c && b == d
  {
    if a + b == c + d {
      assert a == (a + b)[..|a|] && b == (a + b)[|a|..] && c == (c + d)[..|c|] && d == (c + d)[|c|..];
    }
  }

  lemma LeavesOfHalves(h: Hashing, txs: seq<Tx>, depth: nat)
    requires depth > 0 && 0 < |txs| <= Pow2(depth)
    ensures Halves(Leaves(h, txs), depth) == (Leaves(h, Halves(txs, depth).0), Leaves(h, Halves(txs, depth).1))
  {
    var half := Pow2(depth - 1);
    if |txs| > half {
      assert Leaves(h, txs)[..half] == Leaves(h, txs[..half]) && Leaves(h, txs)[half..] == Leaves(h, txs[half..]);
    }
  }

  lemma LeavesAppend(h: Hashing, a: seq<Tx>, b: seq<Tx>)
    ensures Leaves(h, a + b) == Leaves(h, a) + Leaves(h, b)
  {
  }

  lemma {:induction false} PaddedLeaves(h: Hashing, txs: seq<Tx>, depth: nat)
    requires 0 < |txs| <= Pow2(depth)
    ensures Padded(Leaves(h, txs), depth) == Leaves(h, Padded(txs, depth))
    decreases depth
  {
    if depth > 0 {
      var x := Halves(txs, depth);
      PaddedLeaves(h, x.0, depth - 1);
      PaddedLeaves(h, x.1, depth - 1);
      LeavesOfHalves(h, txs, depth);
      LeavesAppend(h, Padded(x.0, depth - 1), Padded(x.1, depth - 1));
    }
  }

  /**
   What a root says: two lists whose trees are equally deep have one root exactly when they are the
   same list once absent right halves are filled in.
   */
  lemma RootsEqualExactly(h: Hashing, a: seq<Tx>, b: seq<Tx>)
    requires CollisionFree(h) && a != [] && b != [] && Depth(|a|) == Depth(|b|)
    ensures Root(h, a) == Root(h, b) <==> Padded(a, Depth(|a|)) == Padded(b, Depth(|a|))
  {
    var depth, la, lb := Depth(|a|), Leaves(h, a), Leaves(h, b);
    RootIsTree(h, la);
    RootIsTree(h, lb);
    TreesEqual(h, la, lb, depth);
    PaddedLeaves(h, a, depth);
    PaddedLeaves(h, b, depth);
    LeavesInjective(h, Padded(a, depth), Padded(b, depth));
  }

  lemma LeavesInjective(h: Hashing, a: seq<Tx>, b: seq<Tx>)
    requires CollisionFree(h) && |a| == |b|
    ensures Leaves(h, a) == Leaves(h, b) <==> a == b
  {
    if Leaves(h, a) == Leaves(h, b) {
      forall i | 0 <= i < |a| ensures a[i] == b[i] { assert Leaves(h, a)[i] == Leaves(h, b)[i]; }
    }
  }

  /** So equal roots and equal lengths mean equal transaction lists, order included. */
  lemma RootBinds(h: Hashing, a: seq<Tx>, b: seq<Tx>)
    requires CollisionFree(h) && |a| == |b| > 0 && Root(h, a) == Root(h, b)
    ensures a == b
  {
    RootsEqualExactly(h, a, b);
    var full := Padded(a, Depth(|a|));
    assert a == full[..|a|] && b == full[..|b|];
  }

  /** The lengths must be known: repeating the last of an odd number of transactions keeps the root. */
  lemma RepeatedLastKeepsRoot(h: Hashing, txs: seq<Tx>)
    requires |txs| % 2 == 1 && |txs| > 1
    ensures Root(h, txs + [txs[|txs| - 1]]) == Root(h, txs)
  {
    var n := |txs| - 1;
    var longer := Leaves(h, txs + [txs[n]]);
    var level := Leaves(h, txs);
    var x := level[n];
    ParentsAppend(h, level[..n], [x]);
    ParentsAppend(h, level[..n], [x, x]);
    assert level == level[..n] + [x] && longer == level[..n] + [x, x];
    assert [x, x][2..] == [];
    assert Parents(h, [x]) == [h.node(x, x)] == Parents(h, [x, x]);
    assert ClimbLevels(h, longer) == ClimbLevels(h, Parents(h, longer));
    assert ClimbLevels(h, level) == ClimbLevels(h, Parents(h, level));
  }
}
