/**
 Merkle trees kept in a linear array (blockchain/hash.go).

 With P leaf slots, P a power of two, slots 0..P-1 are the leaves and slot P+m is the parent of
 slots 2m and 2m+1; the root is the last of the 2P-1 slots.  The two-argument hash is an arbitrary
 function value, so every result below holds for every hash.
 */
module Merkle {
  import opened Options
  import opened Arithmetic
  import opened PowersOfTwo

  /** Parent of two slots: empty when the left child is empty, the left child doubled when only
      the right one is. */
  function Combine<H>(hash: (H, H) -> H, left: Option<H>, right: Option<H>): Option<H>
  {
    match (left, right)
    case (None, _) => None
    case (Some(l), None) => Some(hash(l, l))
    case (Some(l), Some(r)) => Some(hash(l, r))
  }

  function Combiner<H>(hash: (H, H) -> H): (Option<H>, Option<H>) -> Option<H>
  {
    (l, r) => Combine(hash, l, r)
  }

  ghost predicate IsParent<S>(combine: (S, S) -> S, slots: seq<S>, leafSlots: nat, m: nat)
    requires |slots| == 2 * leafSlots - 1 && m < leafSlots - 1
  {
    slots[leafSlots + m] == combine(slots[2 * m], slots[2 * m + 1])
  }

  /** Every interior slot is the parent of its two children. */
  ghost predicate IsTree<S>(combine: (S, S) -> S, slots: seq<S>, leafSlots: nat)
  {
    && leafSlots >= 1
    && |slots| == 2 * leafSlots - 1
    && forall m :: 0 <= m < leafSlots - 1 ==> IsParent(combine, slots, leafSlots, m)
  }

  // ---------------------------------------------------------------------------------------------
  // Levels of a linear array
  // ---------------------------------------------------------------------------------------------

  /** Halved k times: the number of slots of level k above P = leafSlots leaf slots, which starts at slot
      2P - 2w, and the place on that level of what is below. */
  function Width(leafSlots: nat, k: nat): nat
  {
    if k == 0 then leafSlots else Width(leafSlots, k - 1) / 2
  }

  /** Slot j of the level that has `width` slots. */
  function Slot(leafSlots: nat, width: nat, j: nat): (index: nat)
    requires 1 <= width <= leafSlots && j < width
    ensures index < 2 * leafSlots - 1
  {
    2 * leafSlots - 2 * width + j
  }

  lemma {:induction false} WidthIsPowerOfTwo(leafSlots: nat, k: nat)
    requires PowerOfTwo(leafSlots) && k <= FloorLog2(leafSlots)
    ensures PowerOfTwo(Width(leafSlots, k)) && 1 <= Width(leafSlots, k) <= leafSlots
    ensures FloorLog2(Width(leafSlots, k)) == FloorLog2(leafSlots) - k
  {
    if k > 0 { WidthIsPowerOfTwo(leafSlots, k - 1); }
  }

  /** A slot of one level is the parent of two neighbours in the level below. */
  lemma {:induction false} ParentSlot<S>(combine: (S, S) -> S, slots: seq<S>, leafSlots: nat, width: nat, j: nat)
    requires IsTree(combine, slots, leafSlots)
    requires 1 < width <= leafSlots && width % 2 == 0 && j < width / 2
    ensures slots[Slot(leafSlots, width / 2, j)]
         == combine(slots[Slot(leafSlots, width, 2 * j)], slots[Slot(leafSlots, width, 2 * j + 1)])
  {
    assert IsParent(combine, slots, leafSlots, leafSlots - width + j);
  }

  // ---------------------------------------------------------------------------------------------
  // The recursive Merkle root
  // ---------------------------------------------------------------------------------------------

  /** Pair up neighbours; an odd last node is paired with itself. */
  function PairUp<H>(hash: (H, H) -> H, hs: seq<H>): (up: seq<H>)
    ensures |up| == (|hs| + 1) / 2
  {
    if |hs| == 0 then []
    else if |hs| == 1 then [hash(hs[0], hs[0])]
    else [hash(hs[0], hs[1])] + PairUp(hash, hs[2..])
  }

  function Root<H>(hash: (H, H) -> H, hs: seq<H>): H
    requires |hs| >= 1
    decreases |hs|
  {
    if |hs| == 1 then hs[0] else Root(hash, PairUp(hash, hs))
  }

  function PairedUp<H>(hash: (H, H) -> H, hs: seq<H>, k: nat): seq<H>
  {
    if k == 0 then hs else PairUp(hash, PairedUp(hash, hs, k - 1))
  }

  /** n divided by 2^k, rounding up at every halving. */
  function HalvedUp(n: nat, k: nat): nat
  {
    if k == 0 then n else (HalvedUp(n, k - 1) + 1) / 2
  }

  lemma {:induction false} PairedUpLength<H>(hash: (H, H) -> H, hs: seq<H>, k: nat)
    ensures |PairedUp(hash, hs, k)| == HalvedUp(|hs|, k)
  {
    if k > 0 { PairedUpLength(hash, hs, k - 1); }
  }

  lemma {:induction false} HalveUp(n: nat, a: nat, b: nat, p: nat)
    requires a >= 1 && (a - 1) * p < n <= a * p && b == (a + 1) / 2
    ensures b >= 1 && (b - 1) * (2 * p) < n <= b * (2 * p)
  {
    MulMonotone(a, 2 * b, p);
    MulMonotone(2 * b - 2, a - 1, p);
    assert b * (2 * p) == (2 * b) * p;
    assert (b - 1) * (2 * p) == (2 * b - 2) * p;
  }

  /** Halving k times is one exact division by 2^k, rounded up. */
  lemma {:induction false} HalvedUpIsCeiling(n: nat, k: nat, p: nat)
    requires n >= 1 && p == Pow2(k)
    ensures HalvedUp(n, k) >= 1
    ensures (HalvedUp(n, k) - 1) * p < n <= HalvedUp(n, k) * p
  {
    if k > 0 {
      HalvedUpIsCeiling(n, k - 1, Pow2(k - 1));
      HalveUp(n, HalvedUp(n, k - 1), HalvedUp(n, k), Pow2(k - 1));
    }
  }

  lemma {:induction false} Below(n: nat, len: nat, j: nat, p: nat)
    requires len >= 1 && (len - 1) * p < n <= len * p
    ensures j < len <==> j * p < n
  {
    if j < len { MulMonotone(j, len - 1, p); } else { MulMonotone(len, j, p); }
  }

  lemma {:induction false} HalvedUpCovers(n: nat, k: nat, j: nat)
    requires n >= 1
    ensures j < HalvedUp(n, k) <==> j * Pow2(k) < n
  {
    var p := Pow2(k);
    HalvedUpIsCeiling(n, k, p);
    Below(n, HalvedUp(n, k), j, p);
  }

  lemma {:induction false} OneLeft(n: nat, k: nat)
    requires n >= 1 && k <= CeilLog2(n)
    ensures HalvedUp(n, k) >= 1
    ensures HalvedUp(n, k) == 1 <==> k == CeilLog2(n)
  {
    HalvedUpCovers(n, k, 0);
    HalvedUpCovers(n, k, 1);
    CeilLog2Bounds(n);
    if k < CeilLog2(n) { Pow2Monotone(k, CeilLog2(n) - 1); }
  }

  /** Pairing up keeps the root for as long as more than one node is left. */
  lemma {:induction false} RootOfPairedUp<H>(hash: (H, H) -> H, hs: seq<H>, k: nat)
    requires |hs| >= 1 && forall m: nat :: m < k ==> |PairedUp(hash, hs, m)| > 1
    ensures |PairedUp(hash, hs, k)| >= 1 && Root(hash, PairedUp(hash, hs, k)) == Root(hash, hs)
  {
    if k > 0 {
      RootOfPairedUp(hash, hs, k - 1);
      assert |PairedUp(hash, hs, k - 1)| > 1;
    }
  }

  lemma {:induction false} RootIsLastLeft<H>(hash: (H, H) -> H, hs: seq<H>, k: nat)
    requires |hs| >= 1 && k == CeilLog2(|hs|)
    ensures |PairedUp(hash, hs, k)| == 1 && PairedUp(hash, hs, k)[0] == Root(hash, hs)
  {
    forall m: nat | m <= k
      ensures |PairedUp(hash, hs, m)| >= 1 && (|PairedUp(hash, hs, m)| == 1 <==> m == k)
    {
      PairedUpLength(hash, hs, m);
      OneLeft(|hs|, m);
    }
    RootOfPairedUp(hash, hs, k);
  }

  // ---------------------------------------------------------------------------------------------
  // Transaction trees: empty slots beyond the transactions
  // ---------------------------------------------------------------------------------------------

  /** Entry j of a padded list: one of the hashes, or empty beyond them. */
  function EntryOr<H>(hs: seq<H>, j: nat): Option<H>
  {
    if j < |hs| then Some(hs[j]) else None
  }

  lemma {:induction false} ParentEntry<H>(hash: (H, H) -> H, hs: seq<H>, j: nat)
    ensures Combine(hash, EntryOr(hs, 2 * j), EntryOr(hs, 2 * j + 1)) == EntryOr(PairUp(hash, hs), j)
  {
    if j > 0 && |hs| > 1 {
      ParentEntry(hash, hs[2..], j - 1);
      assert EntryOr(hs[2..], 2 * (j - 1)) == EntryOr(hs, 2 * j);
      assert EntryOr(hs[2..], 2 * (j - 1) + 1) == EntryOr(hs, 2 * j + 1);
    }
  }

  /** The level that has `width` slots holds the given hashes, and nothing beyond them. */
  ghost predicate LevelHolds<H>(slots: seq<Option<H>>, leafSlots: nat, width: nat, hs: seq<H>)
  {
    && 1 <= width <= leafSlots && |slots| == 2 * leafSlots - 1
    && forall j: nat :: j < width ==> slots[Slot(leafSlots, width, j)] == EntryOr(hs, j)
  }

  lemma {:induction false} LevelAbove<H>(hash: (H, H) -> H, hs: seq<H>, slots: seq<Option<H>>, leafSlots: nat,
                                         width: nat)
    requires IsTree(Combiner(hash), slots, leafSlots)
    requires width > 1 && width % 2 == 0 && LevelHolds(slots, leafSlots, width, hs)
    ensures LevelHolds(slots, leafSlots, width / 2, PairUp(hash, hs))
  {
    forall j: nat | j < width / 2
      ensures slots[Slot(leafSlots, width / 2, j)] == EntryOr(PairUp(hash, hs), j)
    {
      ParentSlot(Combiner(hash), slots, leafSlots, width, j);
      ParentEntry(hash, hs, j);
    }
  }

  /** Level k holds the list after k rounds of pairing. */
  lemma {:induction false} LevelHoldsPairedUp<H>(hash: (H, H) -> H, txs: seq<H>, slots: seq<Option<H>>, leafSlots: nat,
                                                 k: nat)
    requires IsTree(Combiner(hash), slots, leafSlots) && LevelHolds(slots, leafSlots, leafSlots, txs)
    requires PowerOfTwo(leafSlots) && k <= FloorLog2(leafSlots)
    ensures LevelHolds(slots, leafSlots, Width(leafSlots, k), PairedUp(hash, txs, k))
  {
    if k > 0 {
      LevelHoldsPairedUp(hash, txs, slots, leafSlots, k - 1);
      WidthIsPowerOfTwo(leafSlots, k - 1);
      LevelAbove(hash, PairedUp(hash, txs, k - 1), slots, leafSlots, Width(leafSlots, k - 1));
    }
  }

  /** Slot j of level k is empty exactly when no transaction lies below it. */
  ghost predicate EmptyBeyond<H>(txs: seq<H>, slots: seq<Option<H>>, leafSlots: nat, k: nat, j: nat)
    requires |slots| == 2 * leafSlots - 1
  {
    1 <= Width(leafSlots, k) <= leafSlots && j < Width(leafSlots, k) ==>
      (slots[Slot(leafSlots, Width(leafSlots, k), j)].None? <==> j * Pow2(k) >= |txs|)
  }

  /** What the transaction tree holds: its size is the least possible, its empty slots are those
      with no transaction below, and its last slot is the recursive root of the transactions. */
  ghost predicate IsTransactionTree<H>(hash: (H, H) -> H, txs: seq<H>, slots: seq<Option<H>>)
    requires |txs| >= 1
  {
    var leafSlots := NextPowerOfTwo(|txs|);
    && |slots| == 2 * leafSlots - 1
    && |slots| >= 1 && slots[|slots| - 1] == Some(Root(hash, txs))
    && forall k: nat, j: nat :: k <= CeilLog2(|txs|) ==> EmptyBeyond(txs, slots, leafSlots, k, j)
  }

  lemma {:induction false} SlotOfTransactions<H>(hash: (H, H) -> H, txs: seq<H>, slots: seq<Option<H>>, leafSlots: nat,
                                                 k: nat, j: nat)
    requires IsTree(Combiner(hash), slots, leafSlots) && LevelHolds(slots, leafSlots, leafSlots, txs)
    requires |txs| >= 1 && PowerOfTwo(leafSlots) && k <= FloorLog2(leafSlots)
    ensures EmptyBeyond(txs, slots, leafSlots, k, j)
  {
    WidthIsPowerOfTwo(leafSlots, k);
    if j < Width(leafSlots, k) {
      LevelHoldsPairedUp(hash, txs, slots, leafSlots, k);
      PairedUpLength(hash, txs, k);
      HalvedUpCovers(|txs|, k, j);
    }
  }

  lemma {:induction false} LastSlot<H>(hash: (H, H) -> H, txs: seq<H>, slots: seq<Option<H>>, leafSlots: nat)
    requires IsTree(Combiner(hash), slots, leafSlots) && LevelHolds(slots, leafSlots, leafSlots, txs)
    requires |txs| >= 1 && PowerOfTwo(leafSlots) && FloorLog2(leafSlots) == CeilLog2(|txs|)
    ensures slots[|slots| - 1] == Some(Root(hash, txs))
  {
    var top := FloorLog2(leafSlots);
    WidthIsPowerOfTwo(leafSlots, top);
    LevelHoldsPairedUp(hash, txs, slots, leafSlots, top);
    assert slots[Slot(leafSlots, 1, 0)] == EntryOr(PairedUp(hash, txs, top), 0);
    RootIsLastLeft(hash, txs, top);
  }

  lemma {:induction false} TreeOfTransactions<H>(hash: (H, H) -> H, txs: seq<H>, slots: seq<Option<H>>)
    requires |txs| >= 1
    requires IsTree(Combiner(hash), slots, NextPowerOfTwo(|txs|))
    requires LevelHolds(slots, NextPowerOfTwo(|txs|), NextPowerOfTwo(|txs|), txs)
    ensures IsTransactionTree(hash, txs, slots)
  {
    NextPowerOfTwoIsLeast(|txs|);
    var leafSlots := NextPowerOfTwo(|txs|);
    LastSlot(hash, txs, slots, leafSlots);
    forall k: nat, j: nat | k <= CeilLog2(|txs|)
      ensures EmptyBeyond(txs, slots, leafSlots, k, j)
    {
      SlotOfTransactions(hash, txs, slots, leafSlots, k, j);
    }
  }

  // ---------------------------------------------------------------------------------------------
  // Builders
  // ---------------------------------------------------------------------------------------------

  /** The loop shared by the builders: fill the interior slots from the leaves upward. */
  method FillParents<H>(hash: (H, H) -> H, merkles: array<Option<H>>, leafSlots: nat)
    requires leafSlots >= 1 && merkles.Length == 2 * leafSlots - 1
    modifies merkles
    ensures IsTree(Combiner(hash), merkles[..], leafSlots)
    ensures merkles[..leafSlots] == old(merkles[..leafSlots])
  {
    var offset := leafSlots;
    var i := 0;
    while i < merkles.Length - 1
      invariant 0 <= i <= merkles.Length - 1 && i % 2 == 0 && offset == leafSlots + i / 2
      invariant merkles[..leafSlots] == old(merkles[..leafSlots])
      invariant forall m :: 0 <= m < i / 2 ==>
                  merkles[leafSlots + m] == Combine(hash, merkles[2 * m], merkles[2 * m + 1])
    {
      match (merkles[i], merkles[i + 1]) {
        case (None, _) => merkles[offset] := None;
        case (Some(l), None) => merkles[offset] := Some(hash(l, l));
        case (Some(l), Some(r)) => merkles[offset] := Some(hash(l, r));
      }
      offset := offset + 1;
      i := i + 2;
    }
    var slots := merkles[..];
    forall m | 0 <= m < leafSlots - 1
      ensures IsParent(Combiner(hash), slots, leafSlots, m)
    {
    }
  }

  method BuildMerkleTreeStore<H>(hash: (H, H) -> H, txs: seq<H>) returns (merkles: array<Option<H>>)
    ensures |txs| == 0 ==> merkles.Length == 0
    ensures |txs| >= 1 ==> IsTransactionTree(hash, txs, merkles[..])
  {
    if |txs| == 0 {
      merkles := new Option<H>[0];
      return;
    }
    PaddedSizeSuffices(|txs|);
    var nextPoT := NextPowerOfTwo(|txs|);
    merkles := new Option<H>[2 * nextPoT - 1](_ => None);
    for i := 0 to |txs|
      invariant forall j :: 0 <= j < i ==> merkles[j] == Some(txs[j])
      invariant forall j :: i <= j < merkles.Length ==> merkles[j] == None
    {
      merkles[i] := Some(txs[i]);
    }
    ghost var leaves := merkles[..nextPoT];
    FillParents(hash, merkles, nextPoT);
    assert forall j: nat :: j < nextPoT ==> merkles[..][j] == leaves[j] == EntryOr(txs, j);
    TreeOfTransactions(hash, txs, merkles[..]);
  }

  /** The root of a block's transactions, never missing; `zero` stands for the all-zero hash. */
  method CalcMerkleRoot<H>(hash: (H, H) -> H, zero: H, txs: seq<H>) returns (root: H)
    ensures root == if |txs| == 0 then zero else Root(hash, txs)
  {
    if |txs| == 0 {
      return zero;
    }
    var merkles := BuildMerkleTreeStore(hash, txs);
    root := merkles[merkles.Length - 1].value;
  }

  /** Leaf j of a tree with no empty slots: missing leaves are the hash of the empty string. */
  function LeafOr<H>(zero: H, leaves: seq<H>, j: nat): H
  {
    if j < |leaves| then leaves[j] else zero
  }

  /** A tree over `leafSlots` slots, all of them filled, whose leaves start with the given ones. */
  ghost predicate IsFullTree<H>(hash: (H, H) -> H, zero: H, leaves: seq<H>, tree: seq<H>, leafSlots: nat)
  {
    && IsTree(hash, tree, leafSlots)
    && forall j :: 0 <= j < leafSlots ==> tree[j] == LeafOr(zero, leaves, j)
  }

  method BuildMerkleTreeOfHashes<H>(hash: (H, H) -> H, zero: H, leaves: seq<H>, length: nat)
    returns (merkles: array<Option<H>>)
    requires length >= 1
    ensures IsTree(Combiner(hash), merkles[..], NextPowerOfTwo(length))
    ensures forall j :: 0 <= j < NextPowerOfTwo(length) ==> merkles[j] == Some(LeafOr(zero, leaves, j))
    ensures forall j :: 0 <= j < merkles.Length ==> merkles[j].Some?
  {
    PaddedSizeSuffices(length);
    var nextPoT := NextPowerOfTwo(length);
    merkles := new Option<H>[2 * nextPoT - 1](_ => None);
    var i := 0;
    while i < |leaves| && i < merkles.Length
      invariant 0 <= i <= merkles.Length
      invariant forall j :: 0 <= j < i ==> merkles[j] == Some(LeafOr(zero, leaves, j))
      invariant i <= |leaves|
    {
      merkles[i] := Some(leaves[i]);
      i := i + 1;
    }
    i := |leaves|;
    while i < merkles.Length
      invariant |leaves| <= i
      invariant forall j :: 0 <= j < i && j < merkles.Length ==> merkles[j] == Some(LeafOr(zero, leaves, j))
    {
      merkles[i] := Some(zero);
      i := i + 1;
    }
    assert forall j :: 0 <= j < nextPoT ==> merkles[..nextPoT][j] == Some(LeafOr(zero, leaves, j));
    FillParents(hash, merkles, nextPoT);
    assert forall j :: 0 <= j < nextPoT ==> merkles[j] == merkles[..nextPoT][j];
    NoEmptySlot(hash, merkles[..], nextPoT);
    assert forall j :: 0 <= j < merkles.Length ==> merkles[j] == merkles[..][j];
  }

  lemma {:induction false} NoEmptySlot<H>(hash: (H, H) -> H, slots: seq<Option<H>>, leafSlots: nat)
    requires IsTree(Combiner(hash), slots, leafSlots)
    requires forall j :: 0 <= j < leafSlots ==> slots[j].Some?
    ensures forall j :: 0 <= j < |slots| ==> slots[j].Some?
  {
    var n := leafSlots;
    while n < |slots|
      invariant leafSlots <= n <= |slots|
      invariant forall j :: 0 <= j < n ==> slots[j].Some?
    {
      var m := n - leafSlots;
      assert IsParent(Combiner(hash), slots, leafSlots, m);
      n := n + 1;
    }
  }

  method BuildMerkleTreeOfHashes2<H>(hash: (H, H) -> H, zero: H, leaves: seq<H>, length: nat)
    returns (tree: seq<H>)
    requires length >= 1
    ensures IsFullTree(hash, zero, leaves, tree, NextPowerOfTwo(length))
  {
    var merkleData := BuildMerkleTreeOfHashes(hash, zero, leaves, length);
    tree := [];
    for i := 0 to merkleData.Length
      invariant |tree| == i
      invariant forall j :: 0 <= j < i ==> merkleData[j] == Some(tree[j])
    {
      tree := tree + [merkleData[i].value];
    }
    var p := NextPowerOfTwo(length);
    forall m | 0 <= m < p - 1
      ensures IsParent(hash, tree, p, m)
    {
      assert IsParent(Combiner(hash), merkleData[..], p, m);
    }
  }

  // ---------------------------------------------------------------------------------------------
  // Authentication paths
  // ---------------------------------------------------------------------------------------------

  function Sibling(i: nat): nat
  {
    if i % 2 == 0 then i + 1 else i - 1
  }

  /** The siblings met on the way up from node i of the level that has `width` slots. */
  function PathFrom<H>(tree: seq<H>, leafSlots: nat, width: nat, i: nat): (path: seq<H>)
    requires |tree| == 2 * leafSlots - 1 && PowerOfTwo(width) && i < width <= leafSlots
    ensures |path| == FloorLog2(width)
    decreases width
  {
    if width == 1 then []
    else [tree[Slot(leafSlots, width, Sibling(i))]] + PathFrom(tree, leafSlots, width / 2, i / 2)
  }

  /** Recompute a root candidate from a leaf, its index and a path. */
  function FoldPath<H>(hash: (H, H) -> H, leaf: H, path: seq<H>, i: nat): H
    decreases |path|
  {
    if path == [] then leaf
    else FoldPath(hash, StepUp(hash, leaf, path[0], i), path[1..], i / 2)
  }

  /** A node of the level that has `width` slots. */
  function Node<H>(tree: seq<H>, leafSlots: nat, width: nat, i: nat): H
    requires |tree| == 2 * leafSlots - 1 && i < width <= leafSlots
  {
    tree[Slot(leafSlots, width, i)]
  }

  function StepUp<H>(hash: (H, H) -> H, node: H, sibling: H, i: nat): H
  {
    if i % 2 == 0 then hash(node, sibling) else hash(sibling, node)
  }

  lemma {:induction false} ParentOfNode<H>(hash: (H, H) -> H, tree: seq<H>, leafSlots: nat, width: nat, i: nat)
    requires IsTree(hash, tree, leafSlots)
    requires 1 < width <= leafSlots && width % 2 == 0 && i < width
    ensures Node(tree, leafSlots, width / 2, i / 2)
         == StepUp(hash, Node(tree, leafSlots, width, i), Node(tree, leafSlots, width, Sibling(i)), i)
  {
    ParentSlot(hash, tree, leafSlots, width, i / 2);
  }

  lemma {:induction false} PathVerifies<H>(hash: (H, H) -> H, tree: seq<H>, leafSlots: nat, width: nat, i: nat)
    requires IsTree(hash, tree, leafSlots) && PowerOfTwo(width) && i < width <= leafSlots
    ensures FoldPath(hash, Node(tree, leafSlots, width, i), PathFrom(tree, leafSlots, width, i), i) == tree[|tree| - 1]
    decreases width
  {
    if width > 1 {
      ParentOfNode(hash, tree, leafSlots, width, i);
      PathVerifies(hash, tree, leafSlots, width / 2, i / 2);
      assert PathFrom(tree, leafSlots, width, i)[1..] == PathFrom(tree, leafSlots, width / 2, i / 2);
    }
  }

  /** At step k on the way up the offered path and the tree part ways: folding has reached `x`, the tree
      has its own node there, the two pairs (node, sibling) differ, and they hash to the same parent.
      Width and place on that level are those of the start, halved k times. */
  ghost predicate CollidesAt<H>(hash: (H, H) -> H, tree: seq<H>, leafSlots: nat, width: nat, i: nat, node: H,
                                path: seq<H>, k: nat)
    requires |tree| == 2 * leafSlots - 1
  {
    var w, j := Width(width, k), Width(i, k);
    && k < |path| && j < w <= leafSlots && Sibling(j) < w
    && var x, y := FoldPath(hash, node, path[..k], i), path[k];
       var own, sibling := Node(tree, leafSlots, w, j), Node(tree, leafSlots, w, Sibling(j));
       StepUp(hash, x, y, j) == StepUp(hash, own, sibling, j) && (x != own || y != sibling)
  }

  /** Halving first and then k times is halving k + 1 times. */
  lemma {:induction false} WidthOfHalf(x: nat, k: nat)
    ensures Width(x / 2, k) == Width(x, k + 1)
  {
    if k > 0 { WidthOfHalf(x, k - 1); }
  }

  lemma {:induction false} CollidesAbove<H>(hash: (H, H) -> H, tree: seq<H>, leafSlots: nat, width: nat, i: nat,
                                            node: H, path: seq<H>, k: nat)
    requires |tree| == 2 * leafSlots - 1 && path != []
    requires CollidesAt(hash, tree, leafSlots, width / 2, i / 2, StepUp(hash, node, path[0], i), path[1..], k)
    ensures CollidesAt(hash, tree, leafSlots, width, i, node, path, k + 1)
  {
    WidthOfHalf(width, k);
    WidthOfHalf(i, k);
    assert path[..k + 1][1..] == path[1..][..k];
    assert path[..k + 1][0] == path[0];
  }

  /** Any other node or path of the right length that folds to the root collides with the tree at some
      step of its own. */
  lemma {:induction false} OtherPathCollides<H>(hash: (H, H) -> H, tree: seq<H>, leafSlots: nat, width: nat, i: nat,
                                                node: H, path: seq<H>) returns (k: nat)
    requires IsTree(hash, tree, leafSlots) && PowerOfTwo(width) && i < width <= leafSlots
    requires |path| == FloorLog2(width) && FoldPath(hash, node, path, i) == tree[|tree| - 1]
    requires node != Node(tree, leafSlots, width, i) || path != PathFrom(tree, leafSlots, width, i)
    ensures CollidesAt(hash, tree, leafSlots, width, i, node, path, k)
    decreases width
  {
    assert width > 1;
    ParentOfNode(hash, tree, leafSlots, width, i);
    var up, above := StepUp(hash, node, path[0], i), PathFrom(tree, leafSlots, width / 2, i / 2);
    assert path == [path[0]] + path[1..];
    if up == Node(tree, leafSlots, width / 2, i / 2) && path[1..] == above {
      k := 0;
      assert path[..0] == [];
    } else {
      k := OtherPathCollides(hash, tree, leafSlots, width / 2, i / 2, up, path[1..]);
      CollidesAbove(hash, tree, leafSlots, width, i, node, path, k);
      k := k + 1;
    }
  }

  lemma {:induction false} PathStep<H>(tree: seq<H>, leafSlots: nat, width: nat, i: nat)
    returns (half: nat, above: seq<H>)
    requires |tree| == 2 * leafSlots - 1 && PowerOfTwo(width) && i < width <= leafSlots && width > 1
    ensures width == 2 * half && PowerOfTwo(half) && i / 2 < half
    ensures above == PathFrom(tree, leafSlots, half, i / 2)
    ensures PathFrom(tree, leafSlots, width, i) == [tree[Slot(leafSlots, width, Sibling(i))]] + above
  {
    half := width / 2;
    above := PathFrom(tree, leafSlots, half, i / 2);
  }

  method GetMerklePathForCrossShard<H>(length: nat, tree: seq<H>, shardID: nat)
    returns (path: seq<H>, root: H)
    requires length >= 1 && |tree| == 2 * NextPowerOfTwo(length) - 1
    requires shardID < NextPowerOfTwo(length)
    ensures |path| == CeilLog2(length)
    ensures PowerOfTwo(NextPowerOfTwo(length))
    ensures path == PathFrom(tree, NextPowerOfTwo(length), NextPowerOfTwo(length), shardID)
    ensures root == tree[|tree| - 1]
  {
    NextPowerOfTwoIsLeast(length);
    path := CutPath(NextPowerOfTwo(length), tree, shardID);
    root := tree[|tree| - 1];
  }

  /** From the start of one level to the start of the next, which has half as many slots. */
  method NextLevel(nextPoT: nat, cursor: int, lastCursor: int, time: nat, ghost width: nat) returns (c: int, last: int)
    requires 1 < width <= nextPoT && width % 2 == 0 && cursor == 2 * nextPoT - 2 * width
    requires if time == 0 then width == nextPoT && lastCursor == 0 else lastCursor + 4 * width == 2 * nextPoT
    ensures c == 2 * nextPoT - width && last + 2 * width == 2 * nextPoT
  {
    if time == 0 {
      return cursor + nextPoT, lastCursor;
    }
    c, last := cursor + (cursor - lastCursor) / 2, cursor;
  }

  /** The moving cursor: it stands at the start of each level in turn. */
  method CutPath<H>(nextPoT: nat, tree: seq<H>, shardID: nat) returns (path: seq<H>)
    requires PowerOfTwo(nextPoT) && |tree| == 2 * nextPoT - 1 && shardID < nextPoT
    ensures path == PathFrom(tree, nextPoT, nextPoT, shardID)
  {
    ghost var width: nat := nextPoT;
    ghost var rest := PathFrom(tree, nextPoT, nextPoT, shardID);
    path := [];
    var cursor, lastCursor, i, time := 0, 0, shardID, 0;
    while cursor < |tree| - 2
      invariant PowerOfTwo(width) && 0 <= i < width <= nextPoT && time >= 0
      invariant cursor == 2 * nextPoT - 2 * width
      invariant if time == 0 then width == nextPoT && lastCursor == 0 else lastCursor + 4 * width == 2 * nextPoT
      invariant rest == PathFrom(tree, nextPoT, width, i)
      invariant path + rest == PathFrom(tree, nextPoT, nextPoT, shardID)
      decreases width
    {
      ghost var half, above := PathStep(tree, nextPoT, width, i);
      var sibling := if i % 2 == 0 then tree[cursor + i + 1] else tree[cursor + i - 1];
      assert sibling == tree[Slot(nextPoT, width, Sibling(i))];
      MoveFirst(path, sibling, above);
      path, rest := path + [sibling], above;
      i := i / 2;
      cursor, lastCursor := NextLevel(nextPoT, cursor, lastCursor, time, width);
      width := half;
      time := time + 1;
    }
  }

  lemma {:induction false} MoveFirst<H>(path: seq<H>, first: H, above: seq<H>)
    ensures path + ([first] + above) == (path + [first]) + above
  {
  }

  method VerifyMerkleRootFromMerklePath<H(==)>(hash: (H, H) -> H, leaf: H, path: seq<H>, root: H, shardID: nat)
    returns (ok: bool)
    ensures ok <==> FoldPath(hash, leaf, path, shardID) == root
  {
    var i, finalHash := shardID, leaf;
    for n := 0 to |path|
      invariant FoldPath(hash, finalHash, path[n..], i) == FoldPath(hash, leaf, path, shardID)
    {
      assert path[n..][1..] == path[n + 1..];
      if i % 2 == 0 {
        finalHash := hash(finalHash, path[n]);
      } else {
        finalHash := hash(path[n], finalHash);
      }
      i := i / 2;
    }
    ok := root == finalHash;
  }

  /** Build the tree over the per-shard hashes and cut out one shard's path: that path verifies for
      the shard's own hash, and whatever else of that length verifies collides with the tree at one of its
      own steps. */
  method GetMerklePathCrossShard<H(!new)>(hash: (H, H) -> H, zero: H, leaves: seq<H>, shards: nat, shardID: nat)
    returns (path: seq<H>, root: H, ghost tree: seq<H>)
    requires shards >= 1 && shardID < shards
    ensures IsFullTree(hash, zero, leaves, tree, NextPowerOfTwo(shards)) && root == tree[|tree| - 1]
    ensures |path| == CeilLog2(shards)
    ensures FoldPath(hash, LeafOr(zero, leaves, shardID), path, shardID) == root
    ensures forall leaf, p | |p| == |path| && FoldPath(hash, leaf, p, shardID) == root
                             && (leaf != LeafOr(zero, leaves, shardID) || p != path) ::
              CollidesSomewhere(hash, tree, NextPowerOfTwo(shards), shardID, leaf, p)
  {
    NextPowerOfTwoIsLeast(shards);
    var merkleTree := BuildMerkleTreeOfHashes2(hash, zero, leaves, shards);
    path, root := GetMerklePathForCrossShard(shards, merkleTree, shardID);
    tree := merkleTree;
    var leafSlots := NextPowerOfTwo(shards);
    PathVerifies(hash, tree, leafSlots, leafSlots, shardID);
    forall leaf, p | |p| == |path| && FoldPath(hash, leaf, p, shardID) == root
                     && (leaf != LeafOr(zero, leaves, shardID) || p != path)
      ensures CollidesSomewhere(hash, tree, leafSlots, shardID, leaf, p)
    {
      var k := OtherPathCollides(hash, tree, leafSlots, leafSlots, shardID, leaf, p);
    }
  }

  /** A leaf and a path that collide with the tree at a step of the path. */
  ghost predicate CollidesSomewhere<H>(hash: (H, H) -> H, tree: seq<H>, leafSlots: nat, i: nat, leaf: H, path: seq<H>)
    requires |tree| == 2 * leafSlots - 1
  {
    exists k: nat :: k < |path| && CollidesAt(hash, tree, leafSlots, leafSlots, i, leaf, path, k)
  }
}
