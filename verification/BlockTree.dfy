/** The tree of stored beacon blocks and ancestry in it. */
module BlockTree {

  type Hash = nat
  type ShardID = x: nat | x < 256
  type Pair = (ShardID, ShardID)

  /** One shard block as confirmed in a beacon block body. */
  datatype ShardState = ShardState(height: nat, hash: Hash, crossShard: seq<ShardID>)

  datatype Block = Block(hash: Hash, prevHash: Hash, height: nat, shardStates: map<ShardID, seq<ShardState>>)

  type Blocks = map<Hash, Block>

  /** Blocks are filed under their own hash and each one above genesis has its parent stored. */
  ghost predicate WellFormed(blocks: Blocks)
  {
    forall h {:trigger Linked(blocks, h)} :: h in blocks ==> Linked(blocks, h)
  }

  ghost predicate Linked(blocks: Blocks, h: Hash)
    requires h in blocks
  {
    var b := blocks[h];
    && b.hash == h && b.height >= 1
    && (b.height > 1 ==> b.prevHash in blocks && blocks[b.prevHash].height == b.height - 1)
  }

  /** The block at the given height on the way from h down to genesis. */
  ghost function AncestorAt(blocks: Blocks, h: Hash, height: nat): (a: Hash)
    requires WellFormed(blocks) && h in blocks && 1 <= height <= blocks[h].height
    ensures a in blocks && blocks[a].height == height
    decreases blocks[h].height
  {
    assert Linked(blocks, h);
    if blocks[h].height == height then h else AncestorAt(blocks, blocks[h].prevHash, height)
  }

  ghost predicate Descends(blocks: Blocks, h: Hash, a: Hash)
    requires WellFormed(blocks) && h in blocks && a in blocks
  {
    assert Linked(blocks, a);
    blocks[a].height <= blocks[h].height && AncestorAt(blocks, h, blocks[a].height) == a
  }

  lemma {:induction false} AncestorOfAncestor(blocks: Blocks, h: Hash, upper: nat, lower: nat)
    requires WellFormed(blocks) && h in blocks && 1 <= lower <= upper <= blocks[h].height
    ensures AncestorAt(blocks, AncestorAt(blocks, h, upper), lower) == AncestorAt(blocks, h, lower)
    decreases blocks[h].height
  {
    assert Linked(blocks, h);
    if blocks[h].height != upper {
      AncestorOfAncestor(blocks, blocks[h].prevHash, upper, lower);
    }
  }

  /** Storing further blocks changes no ancestry. */
  lemma {:induction false} AncestorStable(blocks: Blocks, more: Blocks, h: Hash, height: nat)
    requires WellFormed(blocks) && WellFormed(more) && h in blocks && 1 <= height <= blocks[h].height
    requires forall x :: x in blocks ==> x in more && more[x] == blocks[x]
    ensures AncestorAt(more, h, height) == AncestorAt(blocks, h, height)
    decreases blocks[h].height
  {
    assert Linked(blocks, h);
    if blocks[h].height != height {
      AncestorStable(blocks, more, blocks[h].prevHash, height);
    }
  }

  /** A new block that sits right on top of a stored one. */
  predicate Fits(blocks: Blocks, block: Block)
  {
    && block.hash !in blocks && block.prevHash in blocks
    && block.height == blocks[block.prevHash].height + 1
  }

  /** The tree with one more block. */
  ghost function WithBlock(blocks: Blocks, block: Block): (more: Blocks)
    requires WellFormed(blocks) && Fits(blocks, block)
    ensures WellFormed(more)
  {
    StoreBlock(blocks, block);
    blocks[block.hash := block]
  }

  lemma {:induction false} StoreBlock(blocks: Blocks, block: Block)
    requires WellFormed(blocks) && Fits(blocks, block)
    ensures WellFormed(blocks[block.hash := block])
  {
    var more := blocks[block.hash := block];
    assert Linked(blocks, block.prevHash);
    forall h | h in more
      ensures Linked(more, h)
    {
      if h != block.hash { assert Linked(blocks, h); }
    }
  }

  lemma {:induction false} DescendsStable(blocks: Blocks, more: Blocks, h: Hash, a: Hash)
    requires WellFormed(blocks) && WellFormed(more) && h in blocks && a in blocks
    requires forall x :: x in blocks ==> x in more && more[x] == blocks[x]
    ensures Descends(more, h, a) <==> Descends(blocks, h, a)
  {
    assert Linked(blocks, a);
    if blocks[a].height <= blocks[h].height { AncestorStable(blocks, more, h, blocks[a].height); }
  }
}
