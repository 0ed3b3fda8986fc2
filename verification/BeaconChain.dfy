/** The stored beacon chain as an object: its fields are the databases and views that change. */
module BeaconChain {
  import opened Options
  import opened BlockTree
  import opened CrossShardLinks
  import opened BeaconStore
  import opened CrossShardSenders

  datatype InsertResult = Stored | AlreadyStored | WrongView | NotExpectedHeight

  class Chain {
    var blocks: Blocks
    var index: map<nat, Hash>
    var final: Hash
    var best: Hash
    var links: LinkTable
    var cursors: map<Hash, Cursors>

    ghost function Snapshot(): State
      reads this
    {
      State(blocks, index, final, best, links, cursors)
    }

    /** Genesis is best and final at once, and the first entry of the index. */
    constructor (genesis: Block)
      requires genesis.height == 1
      ensures IsGenesis(Snapshot()) && blocks == map[genesis.hash := genesis]
    {
      blocks := map[genesis.hash := genesis];
      index := map[1 := genesis.hash];
      final, best := genesis.hash, genesis.hash;
      links := map[];
      cursors := map[genesis.hash := map[]];
      new;
      assert Linked(blocks, genesis.hash);
    }

    /** A stored block that is still a view: not below the final one. */
    ghost predicate IsView(h: Hash)
      reads this
    {
      final in blocks && h in blocks && blocks[h].height >= blocks[final].height
    }

    /** View by hash, hidden below the final view. */
    function ViewByHash(h: Hash): (view: Option<Block>)
      reads this
      requires final in blocks
      ensures view.Some? <==> h in blocks && blocks[h].height >= blocks[final].height
      ensures view.Some? ==> view.value == blocks[h]
    {
      if h in blocks && blocks[h].height >= blocks[final].height then Some(blocks[h]) else None
    }

    /** Confirm the cross-shard receivers of one shard's states, in order. */
    method ConfirmShard(block: Block, from: ShardID, states: seq<ShardState>, cursor: Cursors)
      returns (c: Cursors)
      modifies this`links
      ensures forall p: Pair :: StateOf(links, c, p)
                == Advance(StateOf(old(links), cursor, p), FromShard(block, from, states, |states|, p))
    {
      c := cursor;
      for i := 0 to |states|
        invariant forall p: Pair :: StateOf(links, c, p)
                    == Advance(StateOf(old(links), cursor, p), FromShard(block, from, states, i, p))
      {
        c := ConfirmState(block, from, states[i], c);
        forall p: Pair
          ensures StateOf(links, c, p)
               == Advance(StateOf(old(links), cursor, p), FromShard(block, from, states, i + 1, p))
        {
          AdvanceConcat(StateOf(old(links), cursor, p), FromShard(block, from, states, i, p),
                        FromState(block, from, states[i], |states[i].crossShard|, p));
          assert FromShard(block, from, states, i + 1, p) == FromShard(block, from, states, i, p)
                 + FromState(block, from, states[i], |states[i].crossShard|, p);
        }
      }
    }

    ghost function FromState(block: Block, from: ShardID, s: ShardState, n: nat, p: Pair): seq<NextCrossShardInfo>
      requires n <= |s.crossShard|
    {
      if p.0 == from && p.1 != from then SentBy(block, s, p.1, n) else []
    }

    method ConfirmState(block: Block, from: ShardID, s: ShardState, cursor: Cursors) returns (c: Cursors)
      modifies this`links
      ensures forall p: Pair :: StateOf(links, c, p)
                == Advance(StateOf(old(links), cursor, p), FromState(block, from, s, |s.crossShard|, p))
    {
      c := cursor;
      for j := 0 to |s.crossShard|
        invariant forall p: Pair :: StateOf(links, c, p)
                    == Advance(StateOf(old(links), cursor, p), FromState(block, from, s, j, p))
      {
        ghost var links0, c0 := links, c;
        var to := s.crossShard[j];
        if from != to {
          var pair := (from, to);
          var lastHeight := CursorOf(c, pair);
          var info := NextCrossShardInfo(s.height, s.hash, block.height, block.hash);
          if lastHeight !in LinksOf(links, pair) {
            links := links[pair := LinksOf(links, pair)[lastHeight := info]];
          }
          c := c[pair := s.height];
          assert StateOf(links, c, pair) == Confirm(StateOf(links0, c0, pair), info);
        }
        forall p: Pair
          ensures StateOf(links, c, p) == Advance(StateOf(old(links), cursor, p), FromState(block, from, s, j + 1, p))
        {
          var more := FromState(block, from, s, j + 1, p);
          if p == (from, to) && from != to {
            assert more[..|more| - 1] == FromState(block, from, s, j, p);
          } else {
            assert more == FromState(block, from, s, j, p);
            assert StateOf(links, c, p) == StateOf(links0, c0, p);
          }
        }
      }
    }

    /** Thread one finalized block into the lists; shards are visited in any order. */
    method ConfirmCrossShard(block: Block, cursor: Cursors) returns (c: Cursors)
      modifies this`links
      ensures forall p: Pair :: StateOf(links, c, p) == Advance(StateOf(old(links), cursor, p), Confirmed(block, p))
    {
      c := cursor;
      var todo := block.shardStates.Keys;
      while todo != {}
        invariant todo <= block.shardStates.Keys
        invariant forall p: Pair :: StateOf(links, c, p)
                    == Advance(StateOf(old(links), cursor, p), if p.0 in todo then [] else Confirmed(block, p))
        decreases todo
      {
        ghost var links0, c0, todo0 := links, c, todo;
        var from :| from in todo;
        c := ConfirmShard(block, from, block.shardStates[from], c);
        todo := todo - {from};
        forall p: Pair
          ensures StateOf(links, c, p)
               == Advance(StateOf(old(links), cursor, p), if p.0 in todo then [] else Confirmed(block, p))
        {
          assert StateOf(links, c, p) == Advance(StateOf(links0, c0, p),
                   FromShard(block, from, block.shardStates[from], |block.shardStates[from]|, p));
          assert StateOf(links0, c0, p)
              == Advance(StateOf(old(links), cursor, p), if p.0 in todo0 then [] else Confirmed(block, p));
        }
      }
    }

    /** The blocks on the chain of h above a height, newest first. */
    static ghost function NewestAbove(blocks: Blocks, h: Hash, low: nat): (newest: seq<Block>)
      requires WellFormed(blocks) && h in blocks && low >= 1
      decreases blocks[h].height - low
    {
      if blocks[h].height <= low then []
      else NewestAbove(blocks, h, low + 1) + [blocks[AncestorAt(blocks, h, low + 1)]]
    }

    static lemma {:induction false} NewestLength(blocks: Blocks, h: Hash, low: nat)
      requires WellFormed(blocks) && h in blocks && low >= 1
      ensures |NewestAbove(blocks, h, low)| == if blocks[h].height > low then blocks[h].height - low else 0
      decreases blocks[h].height - low
    {
      if blocks[h].height > low { NewestLength(blocks, h, low + 1); }
    }

    static lemma {:induction false} NewestAt(blocks: Blocks, h: Hash, low: nat, i: nat)
      requires WellFormed(blocks) && h in blocks && low >= 1 && i < blocks[h].height - low
      ensures i < |NewestAbove(blocks, h, low)|
      ensures NewestAbove(blocks, h, low)[i] == blocks[AncestorAt(blocks, h, blocks[h].height - i)]
      decreases blocks[h].height - low
    {
      NewestLength(blocks, h, low);
      NewestLength(blocks, h, low + 1);
      if i < blocks[h].height - low - 1 { NewestAt(blocks, h, low + 1, i); }
    }

    /** One step of the backward walk. */
    static lemma {:induction false} WalkStep(blocks: Blocks, h: Hash, height: nat)
      requires WellFormed(blocks) && h in blocks && 1 < height <= blocks[h].height
      ensures var a := AncestorAt(blocks, h, height);
              && blocks[a].hash == a && blocks[a].height == height
              && blocks[a].prevHash == AncestorAt(blocks, h, height - 1)
    {
      assert Linked(blocks, AncestorAt(blocks, h, height));
      ParentIsBelow(blocks, h, height);
    }

    /** Walk back from the new final block to the old one, filling the index.  The old final view has
        height 1 at least, so the walk stops there and never runs past genesis. */
    method StoreFinalized(newFinal: Hash) returns (finalized: seq<Block>)
      requires WellFormed(blocks) && final in blocks && newFinal in blocks && blocks[final].height >= 1
      modifies this`index
      ensures index == old(index) + IndexAbove(blocks, blocks[final].height, newFinal)
      ensures finalized == NewestAbove(blocks, newFinal, blocks[final].height)
    {
      finalized := [];
      if blocks[newFinal].height <= blocks[final].height {
        assert IndexAbove(blocks, blocks[final].height, newFinal) == map[];
        return;
      }
      var tree, low := blocks, blocks[final].height;
      var storeBlock := tree[newFinal];
      assert IndexAbove(tree, storeBlock.height, newFinal) == map[];
      while storeBlock.height > low
        invariant low <= storeBlock.height <= tree[newFinal].height
        invariant storeBlock == tree[AncestorAt(tree, newFinal, storeBlock.height)]
        invariant index == old(index) + IndexAbove(tree, storeBlock.height, newFinal)
        invariant finalized == NewestAbove(tree, newFinal, storeBlock.height)
        decreases storeBlock.height
      {
        WalkStep(tree, newFinal, storeBlock.height);
        index := index[storeBlock.height := storeBlock.hash];
        finalized := finalized + [storeBlock];
        storeBlock := tree[storeBlock.prevHash];
      }
    }

    method InsertBeaconBlock(block: Block, newFinal: Hash, newBest: Hash) returns (r: InsertResult)
      requires Valid(Snapshot())
      requires block.hash in blocks ==> blocks[block.hash] == block
      requires Accepts(Snapshot(), block) ==>
                 ViewsMove(WithBlock(blocks, block), final, newFinal, newBest)
      modifies this
      ensures r == Stored <==> old(Accepts(Snapshot(), block))
      ensures r == Stored ==> Inserted(old(Snapshot()), Snapshot(), block, newFinal, newBest)
      ensures r != Stored ==> Snapshot() == old(Snapshot())
      ensures r == AlreadyStored <==> old(IsView(block.hash))
      ensures r == WrongView <==> old(!IsView(block.hash) && !IsView(block.prevHash))
      ensures Valid(Snapshot())
    {
      if ViewByHash(block.hash).Some? {
        return AlreadyStored;
      }
      assert block.hash in blocks ==> Linked(blocks, block.hash);
      var preView := ViewByHash(block.prevHash);
      if preView.None? {
        return WrongView;
      }
      if block.height != preView.value.height + 1 {
        return NotExpectedHeight;
      }
      StoreAccepted(block, newFinal, newBest);
      r := Stored;
    }

    /** Store a block whose parent and height have been checked. */
    method StoreAccepted(block: Block, newFinal: Hash, newBest: Hash)
      requires Valid(Snapshot()) && Accepts(Snapshot(), block)
      requires ViewsMove(WithBlock(blocks, block), final, newFinal, newBest)
      modifies this
      ensures Inserted(old(Snapshot()), Snapshot(), block, newFinal, newBest)
      ensures Valid(Snapshot())
    {
      ghost var s := Snapshot();
      assert Linked(blocks, final);
      var cursor := cursors[block.prevHash];
      blocks := blocks[block.hash := block];
      var finalized := StoreFinalized(newFinal);
      cursor := ConfirmFinalized(finalized, newFinal, cursor);
      cursors := cursors[block.hash := cursor];
      if blocks[newFinal].height > blocks[final].height {
        final := newFinal;
      }
      best := newBest;
      InsertKeepsValid(s, Snapshot(), block, newFinal, newBest);
    }

    /** The lists have advanced by what the chain of h confirms above `low`. */
    static ghost predicate Threaded(before: LinkTable, cursor: Cursors, after: LinkTable, c: Cursors, blocks: Blocks,
                                    low: nat, h: Hash)
      requires WellFormed(blocks) && h in blocks && low >= 1
    {
      forall p: Pair :: StateOf(after, c, p) == Advance(StateOf(before, cursor, p), ConfirmedAbove(blocks, low, h, p))
    }

    static lemma {:induction false} ThreadedNext(before: LinkTable, cursor: Cursors, now: LinkTable, c: Cursors,
                                                 next: LinkTable, d: Cursors, blocks: Blocks, low: nat, h: Hash)
      requires WellFormed(blocks) && h in blocks && 1 <= low < blocks[h].height && blocks[h].prevHash in blocks
      requires Threaded(before, cursor, now, c, blocks, low, blocks[h].prevHash)
      requires forall p: Pair :: StateOf(next, d, p) == Advance(StateOf(now, c, p), Confirmed(blocks[h], p))
      ensures Threaded(before, cursor, next, d, blocks, low, h)
    {
      forall p: Pair
        ensures StateOf(next, d, p) == Advance(StateOf(before, cursor, p), ConfirmedAbove(blocks, low, h, p))
      {
        AdvanceConcat(StateOf(before, cursor, p), ConfirmedAbove(blocks, low, blocks[h].prevHash, p),
                      Confirmed(blocks[h], p));
      }
    }

    /** Thread the finalized blocks into the lists, oldest first. */
    method ConfirmFinalized(finalized: seq<Block>, newFinal: Hash, cursor: Cursors) returns (c: Cursors)
      requires WellFormed(blocks) && final in blocks && newFinal in blocks && blocks[final].height >= 1
      requires finalized == NewestAbove(blocks, newFinal, blocks[final].height)
      modifies this`links
      ensures Threaded(old(links), cursor, links, c, blocks, blocks[final].height, newFinal)
    {
      c := cursor;
      ghost var top, low := blocks[newFinal].height, blocks[final].height;
      NewestLength(blocks, newFinal, low);
      var i := |finalized|;
      if i == 0 {
        return;
      }
      while i > 0
        invariant 0 <= i <= |finalized|
        invariant Threaded(old(links), cursor, links, c, blocks, low, AncestorAt(blocks, newFinal, top - i))
      {
        i := i - 1;
        NewestAt(blocks, newFinal, low, i);
        ParentIsBelow(blocks, newFinal, top - i);
        ghost var links0, c0 := links, c;
        c := ConfirmCrossShard(finalized[i], c);
        ThreadedNext(old(links), cursor, links0, c0, links, c, blocks, low, AncestorAt(blocks, newFinal, top - i));
      }
    }

    static lemma {:induction false} ParentIsBelow(blocks: Blocks, h: Hash, height: nat)
      requires WellFormed(blocks) && h in blocks && 1 < height <= blocks[h].height
      ensures blocks[AncestorAt(blocks, h, height)].prevHash == AncestorAt(blocks, h, height - 1)
    {
      var upper := AncestorAt(blocks, h, height);
      assert Linked(blocks, upper);
      AncestorOfAncestor(blocks, h, height, height - 1);
      assert Linked(blocks, blocks[upper].prevHash);
    }

    /** Look-up by height: exactly the best view's ancestor, for every height from 1 to best. */
    method GetBeaconBlockHashByHeight(height: nat) returns (r: Option<Hash>)
      requires Valid(Snapshot())
      ensures r.Some? <==> 1 <= height <= blocks[best].height
      ensures r.Some? ==> r.value == AncestorAt(blocks, best, height)
    {
      var blkheight := blocks[best].height;
      var blkhash := best;
      assert Linked(blocks, best) && Linked(blocks, final);
      if height > blkheight {
        return None;
      }
      if height == blkheight {
        return Some(blkhash);
      }
      if height <= blocks[final].height {
        if height in index {
          AncestorOfAncestor(blocks, best, blocks[final].height, height);
          return Some(index[height]);
        }
        return None;
      }
      blkhash := blocks[best].prevHash;
      blkheight := blkheight - 1;
      while height < blkheight
        invariant 1 <= height <= blkheight <= blocks[best].height
        invariant blkhash in blocks && blkhash == AncestorAt(blocks, best, blkheight)
      {
        assert Linked(blocks, blkhash);
        ParentIsBelow(blocks, best, blkheight);
        var beaconBlock := blocks[blkhash];
        blkheight := blkheight - 1;
        blkhash := beaconBlock.prevHash;
      }
      r := Some(blkhash);
    }

    /** What comes after the i-th height of a list. */
    ghost predicate NextOn(es: seq<NextCrossShardInfo>, i: nat, next: Option<NextCrossShardInfo>)
      requires i <= |es|
    {
      next == if i < |es| then Some(es[i]) else None
    }

    /** The stored link of a height. At the i-th height of the list it is the list's next block, and
        at its end there is none. */
    method FetchNextCrossShard(from: ShardID, to: ShardID, height: nat) returns (next: Option<NextCrossShardInfo>)
      ensures next.Some? <==> height in LinksOf(links, (from, to))
      ensures next.Some? ==> next.value == LinksOf(links, (from, to))[height]
      ensures forall es, i: nat | Enumerates(LinksOf(links, (from, to)), es) && i <= |es| && NodeAt(es, i) == height ::
                NextOn(es, i, next)
    {
      var table := LinksOf(links, (from, to));
      next := if height in table then Some(table[height]) else None;
    }

    /** The loop of a receiving shard: from a height on the list it visits exactly the rest of the
        list, in order, and ends. */
    method CollectCrossShard(from: ShardID, to: ShardID, start: nat, ghost es: seq<NextCrossShardInfo>, ghost k: nat)
      returns (visited: seq<NextCrossShardInfo>, last: nat)
      requires Enumerates(LinksOf(links, (from, to)), es) && k <= |es| && NodeAt(es, k) == start
      ensures visited == es[k..] && last == Tail(es)
    {
      visited, last := [], start;
      ghost var i := k;
      while true
        invariant k <= i <= |es| && last == NodeAt(es, i) && visited == es[k..i]
        decreases |es| - i
      {
        var next := FetchNextCrossShard(from, to, last);
        assert NextOn(es, i, next);
        if next.None? {
          break;
        }
        last := next.value.nextHeight;
        visited := visited + [next.value];
        i := i + 1;
      }
    }

    /** Followed from height 0, an exact list yields what the finalized chain confirms for the pair. */
    method CollectAll(from: ShardID, to: ShardID) returns (visited: seq<NextCrossShardInfo>, last: nat)
      requires Valid(Snapshot()) && ListExact(Snapshot(), (from, to))
      ensures visited == AllConfirmed(Snapshot(), (from, to)) && last == Tail(visited)
    {
      visited, last := CollectCrossShard(from, to, 0, AllConfirmed(Snapshot(), (from, to)), 0);
    }

    /** The look-up before a cross-shard block is delivered: the beacon block a link names is loaded and
        searched for the shard height; what is found is the shard block of the link. */
    method FindConfirmed(from: ShardID, to: ShardID, info: NextCrossShardInfo) returns (hash: Option<Hash>)
      requires Valid(Snapshot()) && ConfirmedIn(blocks, final, (from, to), info)
      requires Ascending(StatesIn(blocks[info.confirmHash], from))
      ensures hash == Some(info.nextHash)
    {
      hash := None;
      var states := StatesIn(blocks[info.confirmHash], from);
      ghost var k :| 0 <= k < |states| && states[k].height == info.nextHeight && states[k].hash == info.nextHash
                     && to in states[k].crossShard;
      for i := 0 to |states|
        invariant i <= k
      {
        if states[i].height == info.nextHeight {
          return Some(states[i].hash);
        }
      }
    }
  }
}
