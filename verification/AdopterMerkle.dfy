/**
 The adopter Merkle tree: sorted-pair hashing, proofs pushed onto every entry while the tree is built
 level by level, an odd last node carried up unhashed. Every proof it hands out verifies.
 */
module AdopterMerkle {
  import opened Common

  datatype Record = Record(operator: string, hardwareCommitment: string, nodeType: string)

  /** keccak256 of the bytes a lower-case hex string stands for, and the leaf of a record. */
  datatype Hashing = Hashing(keccak: string -> string, leafOf: Record -> string)

  const ZeroHash := "0x0000000000000000000000000000000000000000000000000000000000000000"

  /** The smaller hash goes first, letter case aside. */
  function HashPair(h: Hashing, a: string, b: string): string
  {
    var left := if StrLess(Lower(a), Lower(b)) then a else b;
    var right := if left == a then b else a;
    h.keccak(Lower(left) + Lower(right))
  }

  lemma HashPairCommutes(h: Hashing, a: string, b: string)
    ensures HashPair(h, a, b) == HashPair(h, b, a)
  {
    StrTotal(Lower(a), Lower(b));
    StrIrreflexive(Lower(a));
    if StrLess(Lower(a), Lower(b)) && StrLess(Lower(b), Lower(a)) {
      StrTransitive(Lower(a), Lower(b), Lower(a));
    }
  }

  function FoldProof(h: Hashing, leaf: string, proof: seq<string>): string
  {
    if proof == [] then leaf else HashPair(h, FoldProof(h, leaf, proof[..|proof| - 1]), proof[|proof| - 1])
  }

  predicate VerifyProof(h: Hashing, leaf: string, proof: seq<string>, root: string)
  {
    Lower(FoldProof(h, leaf, proof)) == Lower(root)
  }

  datatype Entry = Entry(record: Record, inputIndex: nat, leaf: string)

  datatype Tree = Tree(root: string, entries: seq<Entry>, proofs: seq<seq<string>>)

  function Entries(h: Hashing, records: seq<Record>): (es: seq<Entry>)
    ensures |es| == |records| && forall i :: 0 <= i < |es| ==> es[i] == Entry(records[i], i, h.leafOf(records[i]))
  {
    seq(|records|, i requires 0 <= i < |records| => Entry(records[i], i, h.leafOf(records[i])))
  }

  predicate EntryBefore(a: Entry, b: Entry) { StrLess(a.leaf, b.leaf) }

  ghost predicate DistinctLeaves(es: seq<Entry>)
  {
    forall i, j :: 0 <= i < j < |es| ==> es[i].leaf != es[j].leaf
  }

  lemma {:induction false} CountAtMostOne(es: seq<Entry>, e: Entry)
    requires forall i, j :: 0 <= i < j < |es| ==> es[i] != es[j]
    ensures multiset(es)[e] <= 1 && (multiset(es)[e] == 1 ==> e in es)
  {
    if es != [] {
      CountAtMostOne(es[1..], e);
      assert es == [es[0]] + es[1..];
    }
  }

  lemma CountTwice(es: seq<Entry>, i: nat, j: nat)
    requires i < j < |es| && es[i] == es[j]
    ensures multiset(es)[es[i]] >= 2
  {
    assert es == es[..j] + [es[j]] + es[j + 1..];
    assert es[i] in es[..j];
  }

  /** Whether leaves repeat does not depend on the order of the entries. */
  lemma DistinctLeavesPermute(a: seq<Entry>, b: seq<Entry>)
    requires multiset(a) == multiset(b) && DistinctLeaves(a)
    ensures DistinctLeaves(b)
  {
    forall i, j | 0 <= i < j < |b| ensures b[i].leaf != b[j].leaf {
      assert b[i] in multiset(b) && b[j] in multiset(b);
      var p :| 0 <= p < |a| && a[p] == b[i];
      var q :| 0 <= q < |a| && a[q] == b[j];
      if b[i] == b[j] {
        CountTwice(b, i, j);
        CountAtMostOne(a, b[i]);
      }
    }
  }

  // ---------------------------------------------------------------- levels

  datatype Node = Node(hash: string, indexes: seq<nat>)

  function Range(lo: nat, hi: nat): (r: seq<nat>)
    requires lo <= hi
    ensures |r| == hi - lo && forall i :: 0 <= i < |r| ==> r[i] == lo + i
  {
    seq(hi - lo, i requires 0 <= i < hi - lo => lo + i)
  }

  lemma RangeHolds(lo: nat, hi: nat)
    requires lo <= hi
    ensures forall k: nat :: k in Range(lo, hi) <==> lo <= k < hi
  {
    forall k: nat | lo <= k < hi ensures k in Range(lo, hi) { assert Range(lo, hi)[k - lo] == k; }
  }

  /** The nodes' entry indexes partition lo..hi, in order. */
  ghost predicate Tiles(nodes: seq<Node>, lo: nat, hi: nat)
    decreases |nodes|
  {
    if nodes == [] then lo == hi else
    var mid := lo + |nodes[0].indexes|;
    lo < mid && nodes[0].indexes == Range(lo, mid) && Tiles(nodes[1..], mid, hi)
  }

  /** Every partial proof folds from its leaf to the hash of the node the entry has reached. */
  ghost predicate FoldsTo(h: Hashing, leaves: seq<string>, proofs: seq<seq<string>>, node: Node)
  {
    forall k :: k in node.indexes ==> k < |leaves| && k < |proofs| && FoldProof(h, leaves[k], proofs[k]) == node.hash
  }

  ghost predicate AllFold(h: Hashing, leaves: seq<string>, proofs: seq<seq<string>>, nodes: seq<Node>, from: nat)
  {
    forall j :: from <= j < |nodes| ==> FoldsTo(h, leaves, proofs, nodes[j])
  }

  lemma {:induction false} TilesWithin(nodes: seq<Node>, lo: nat, hi: nat, j: nat, k: nat)
    requires Tiles(nodes, lo, hi) && j < |nodes| && k in nodes[j].indexes
    ensures lo <= k < hi
    decreases |nodes|
  {
    TilesOrdered(nodes, lo, hi);
    if j > 0 { TilesWithin(nodes[1..], lo + |nodes[0].indexes|, hi, j - 1, k); }
  }

  lemma {:induction false} TilesOrdered(nodes: seq<Node>, lo: nat, hi: nat)
    requires Tiles(nodes, lo, hi)
    ensures lo <= hi && (nodes != [] ==> lo + |nodes[0].indexes| <= hi)
    decreases |nodes|
  {
    if nodes != [] { TilesOrdered(nodes[1..], lo + |nodes[0].indexes|, hi); }
  }

  lemma {:induction false} TilesSnoc(nodes: seq<Node>, lo: nat, mid: nat, node: Node)
    requires Tiles(nodes, lo, mid) && node.indexes != [] && node.indexes == Range(mid, mid + |node.indexes|)
    ensures Tiles(nodes + [node], lo, mid + |node.indexes|)
    decreases |nodes|
  {
    if nodes == [] {
      assert nodes + [node] == [node] && [node][1..] == [];
    } else {
      TilesSnoc(nodes[1..], lo + |nodes[0].indexes|, mid, node);
      assert (nodes + [node])[1..] == nodes[1..] + [node];
    }
  }

  /** Nodes over indexes that were not touched still fold. */
  lemma Untouched(h: Hashing, leaves: seq<string>, before: seq<seq<string>>, after: seq<seq<string>>, nodes: seq<Node>,
                  from: nat, lo: nat, hi: nat)
    requires from <= |nodes| && AllFold(h, leaves, before, nodes, from) && Tiles(nodes[from..], lo, hi) &&
             |after| == |before|
    requires forall k :: lo <= k < hi && k < |before| ==> after[k] == before[k]
    ensures AllFold(h, leaves, after, nodes, from)
  {
    forall j | from <= j < |nodes| ensures FoldsTo(h, leaves, after, nodes[j]) {
      forall k | k in nodes[j].indexes ensures k < |leaves| && k < |after| &&
             FoldProof(h, leaves[k], after[k]) == nodes[j].hash {
        assert nodes[from..][j - from] == nodes[j];
        TilesWithin(nodes[from..], lo, hi, j - from, k);
        assert FoldsTo(h, leaves, before, nodes[j]);
      }
    }
  }

  lemma AlsoFolds(h: Hashing, leaves: seq<string>, proofs: seq<seq<string>>, nodes: seq<Node>, node: Node)
    requires AllFold(h, leaves, proofs, nodes, 0) && FoldsTo(h, leaves, proofs, node)
    ensures AllFold(h, leaves, proofs, nodes + [node], 0)
  {
  }

  /** Pushing each side's hash onto the other side's proofs folds both to the parent. */
  lemma Joined(h: Hashing, leaves: seq<string>, before: seq<seq<string>>, after: seq<seq<string>>, left: Node,
               right: Node)
    requires FoldsTo(h, leaves, before, left) && FoldsTo(h, leaves, before, right) && |after| == |before|
    requires forall k :: k in left.indexes ==> k < |before| && after[k] == before[k] + [right.hash]
    requires forall k :: k in right.indexes ==> k < |before| && after[k] == before[k] + [left.hash]
    ensures FoldsTo(h, leaves, after, Parent(h, left, right))
  {
    HashPairCommutes(h, left.hash, right.hash);
    forall k | k in left.indexes + right.indexes
      ensures k < |leaves| && k < |after| && FoldProof(h, leaves[k], after[k]) == HashPair(h, left.hash, right.hash)
    {
      var sibling := if k in left.indexes then right.hash else left.hash;
      assert (before[k] + [sibling])[..|before[k]|] == before[k];
    }
  }

  method PushAll(proofs: array<seq<string>>, indexes: seq<nat>, hash: string)
    requires forall i :: 0 <= i < |indexes| ==> indexes[i] < proofs.Length
    requires forall i, j :: 0 <= i < j < |indexes| ==> indexes[i] != indexes[j]
    modifies proofs
    ensures forall k :: 0 <= k < proofs.Length ==>
              proofs[k] == if k in indexes then old(proofs[k]) + [hash] else old(proofs[k])
  {
    for i := 0 to |indexes|
      invariant forall k :: 0 <= k < proofs.Length ==>
                  proofs[k] == if k in indexes[..i] then old(proofs[k]) + [hash] else old(proofs[k])
    {
      assert indexes[..i + 1] == indexes[..i] + [indexes[i]];
      proofs[indexes[i]] := proofs[indexes[i]] + [hash];
    }
    assert indexes[..|indexes|] == indexes;
  }

  /** One round of the level loop. */
  method NextLevel(h: Hashing, leaves: seq<string>, proofs: array<seq<string>>,
                   level: seq<Node>) returns (next: seq<Node>)
    requires proofs.Length == |leaves|
    requires Tiles(level, 0, |leaves|) && AllFold(h, leaves, proofs[..], level, 0)
    modifies proofs
    ensures |next| == (|level| + 1) / 2
    ensures Tiles(next, 0, |leaves|) && AllFold(h, leaves, proofs[..], next, 0)
  {
    next := [];
    var i := 0;
    ghost var mid: nat := 0;
    assert level[0..] == level;
    while i < |level|
      invariant 0 <= i <= |level| && (2 * |next| == i || (i == |level| && 2 * |next| == i + 1))
      invariant Tiles(next, 0, mid) && Tiles(level[i..], mid, |leaves|)
      invariant AllFold(h, leaves, proofs[..], next, 0) && AllFold(h, leaves, proofs[..], level, i)
    {
      if i + 1 == |level| {
        LastTile(next, level, i, mid, |leaves|);
        AlsoFolds(h, leaves, proofs[..], next, level[i]);
        next, i, mid := next + [level[i]], i + 1, |leaves|;
        continue;
      }
      mid := JoinPair(h, leaves, proofs, next, level, i, mid);
      next := next + [Parent(h, level[i], level[i + 1])];
      i := i + 2;
    }
  }

  function Parent(h: Hashing, left: Node, right: Node): Node
  {
    Node(HashPair(h, left.hash, right.hash), left.indexes + right.indexes)
  }

  /** Push the siblings of one pair; everything before and after the pair keeps folding. */
  method JoinPair(h: Hashing, leaves: seq<string>, proofs: array<seq<string>>, ghost done: seq<Node>, level: seq<Node>,
                  i: nat, ghost lo: nat)
    returns (ghost hi: nat)
    requires proofs.Length == |leaves| && i + 1 < |level|
    requires Tiles(done, 0, lo) && Tiles(level[i..], lo, |leaves|)
    requires AllFold(h, leaves, proofs[..], done, 0) && AllFold(h, leaves, proofs[..], level, i)
    modifies proofs
    ensures var parent := Parent(h, level[i], level[i + 1]);
            && Tiles(done + [parent], 0, hi) && Tiles(level[i + 2..], hi, |leaves|)
            && AllFold(h, leaves, proofs[..], done + [parent], 0) && AllFold(h, leaves, proofs[..], level, i + 2)
  {
    PairTiles(level, i, lo, |leaves|);
    ghost var mid := lo + |level[i].indexes|;
    hi := mid + |level[i + 1].indexes|;
    RangeHolds(lo, mid);
    RangeHolds(mid, hi);
    ghost var before := proofs[..];
    PushAll(proofs, level[i].indexes, level[i + 1].hash);
    PushAll(proofs, level[i + 1].indexes, level[i].hash);
    ParentTiles(h, done, level[i], level[i + 1], lo, mid, hi);
    PairJoined(h, leaves, before, proofs[..], done, level, i, lo, mid, hi);
  }

  lemma PairTiles(level: seq<Node>, i: nat, lo: nat, end: nat)
    requires i + 1 < |level| && Tiles(level[i..], lo, end)
    ensures var mid := lo + |level[i].indexes|;
            var hi := mid + |level[i + 1].indexes|;
            && lo < mid < hi <= end && level[i].indexes == Range(lo, mid) && level[i + 1].indexes == Range(mid, hi)
            && Tiles(level[i + 2..], hi, end)
  {
    assert level[i..][1..] == level[i + 1..] && level[i + 1..][1..] == level[i + 2..];
    TilesOrdered(level[i + 2..], lo + |level[i].indexes| + |level[i + 1].indexes|, end);
  }

  /** An odd last node moves up unchanged. */
  lemma LastTile(done: seq<Node>, level: seq<Node>, i: nat, lo: nat, end: nat)
    requires i + 1 == |level| && Tiles(done, 0, lo) && Tiles(level[i..], lo, end)
    ensures Tiles(done + [level[i]], 0, end) && Tiles(level[i + 1..], end, end)
  {
    assert level[i..][1..] == level[i + 1..] == [];
    TilesSnoc(done, 0, lo, level[i]);
  }

  lemma ParentTiles(h: Hashing, done: seq<Node>, left: Node, right: Node, lo: nat, mid: nat, hi: nat)
    requires lo < mid < hi && left.indexes == Range(lo, mid) && right.indexes == Range(mid, hi) && Tiles(done, 0, lo)
    ensures Tiles(done + [Parent(h, left, right)], 0, hi)
  {
    assert Parent(h, left, right).indexes == Range(lo, hi);
    TilesSnoc(done, 0, lo, Parent(h, left, right));
  }

  lemma PairJoined(h: Hashing, leaves: seq<string>, before: seq<seq<string>>, after: seq<seq<string>>, done: seq<Node>,
                   level: seq<Node>, i: nat, lo: nat, mid: nat, hi: nat)
    requires |before| == |after| == |leaves| && lo < mid < hi <= |leaves| && i + 1 < |level|
    requires Tiles(done, 0, lo) && Tiles(level[i + 2..], hi, |leaves|)
    requires level[i].indexes == Range(lo, mid) && level[i + 1].indexes == Range(mid, hi)
    requires AllFold(h, leaves, before, done, 0) && AllFold(h, leaves, before, level, i)
    requires forall k :: 0 <= k < |after| ==>
               after[k] == if lo <= k < mid then before[k] + [level[i + 1].hash] else if mid <= k < hi
                 then before[k] + [level[i].hash] else before[k]
    ensures AllFold(h, leaves, after, done + [Parent(h, level[i], level[i + 1])], 0) &&
            AllFold(h, leaves, after, level, i + 2)
  {
    RangeHolds(lo, mid);
    RangeHolds(mid, hi);
    Joined(h, leaves, before, after, level[i], level[i + 1]);
    assert done[0..] == done;
    Untouched(h, leaves, before, after, done, 0, 0, lo);
    Untouched(h, leaves, before, after, level, i + 2, hi, |leaves|);
  }

  lemma {:induction false} SingletonsTile(nodes: seq<Node>, lo: nat)
    requires forall i :: 0 <= i < |nodes| ==> nodes[i].indexes == [lo + i]
    ensures Tiles(nodes, lo, lo + |nodes|)
    decreases |nodes|
  {
    if nodes != [] {
      assert nodes[0].indexes == Range(lo, lo + 1);
      SingletonsTile(nodes[1..], lo + 1);
    }
  }

  /** Climb from the leaves to the root, collecting proofs. */
  method Climb(h: Hashing, leaves: seq<string>) returns (root: string, proofs: seq<seq<string>>)
    requires leaves != []
    ensures |proofs| == |leaves|
    ensures forall k :: 0 <= k < |leaves| ==> FoldProof(h, leaves[k], proofs[k]) == root
  {
    var pushed := new seq<string>[|leaves|](i => []);
    var level := seq(|leaves|, i requires 0 <= i < |leaves| => Node(leaves[i], [i]));
    SingletonsTile(level, 0);
    while |level| > 1
      invariant level != [] && Tiles(level, 0, |leaves|) && AllFold(h, leaves, pushed[..], level, 0)
      decreases |level|
    {
      level := NextLevel(h, leaves, pushed, level);
    }
    assert level[1..] == [];
    assert FoldsTo(h, leaves, pushed[..], level[0]);
    root, proofs := level[0].hash, pushed[..];
    forall k | 0 <= k < |leaves| ensures FoldProof(h, leaves[k], proofs[k]) == root {
      assert level[0].indexes[k] == k;
    }
  }

  method HasDuplicateLeaf(entries: seq<Entry>) returns (duplicate: bool)
    ensures duplicate <==> !DistinctLeaves(entries)
  {
    var seen := {};
    for i := 0 to |entries|
      invariant seen == set j | 0 <= j < i :: entries[j].leaf
      invariant DistinctLeaves(entries[..i])
    {
      if entries[i].leaf in seen {
        ghost var j :| 0 <= j < i && entries[j].leaf == entries[i].leaf;
        return true;
      }
      seen := seen + {entries[i].leaf};
    }
    assert entries[..|entries|] == entries;
    return false;
  }

  /** Refuses duplicate leaves; otherwise lists every record once, each with a proof that verifies. */
  method BuildTree(h: Hashing, records: seq<Record>) returns (tree: Option<Tree>)
    ensures tree.None? <==> !DistinctLeaves(Entries(h, records))
    ensures tree.Some? ==>
      && multiset(tree.value.entries) == multiset(Entries(h, records)) && |tree.value.entries| == |tree.value.proofs|
      && (records == [] ==> tree.value.root == ZeroHash)
      && forall i :: 0 <= i < |tree.value.entries| ==>
           VerifyProof(h, tree.value.entries[i].leaf, tree.value.proofs[i], tree.value.root)
  {
    if records == [] {
      return Some(Tree(ZeroHash, [], []));
    }
    var listed := Entries(h, records);
    var entries := SortBy(EntryBefore, listed);
    SortPermutes(EntryBefore, listed);
    var duplicate := HasDuplicateLeaf(entries);
    if duplicate {
      if DistinctLeaves(listed) { DistinctLeavesPermute(listed, entries); }
      return None;
    }
    DistinctLeavesPermute(entries, listed);
    var leaves := seq(|entries|, i requires 0 <= i < |entries| => entries[i].leaf);
    var root, proofs := Climb(h, leaves);
    return Some(Tree(root, entries, proofs));
  }
}
