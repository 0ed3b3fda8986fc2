/**
 Whole runs of insertions: from what each inserted block says about its shards to what every
 cross-shard list holds at every moment.
 */
module CrossShardRuns {
  import opened BlockTree
  import opened CrossShardLinks
  import opened BeaconStore
  import opened CrossShardSenders
  import opened Lists
  import ShardSelection

  /** The last height of a shard confirmed on the chain of h, 0 when there is none. */
  ghost function LastConfirmed(blocks: Blocks, h: Hash, from: ShardID): nat
    requires WellFormed(blocks) && h in blocks
  {
    var states := ChainStates(blocks, h, from);
    if states == [] then 0 else states[|states| - 1].height
  }

  /** The states ascend from above the given height, and none names a receiver twice. */
  ghost predicate ContinuesFrom(last: nat, states: seq<ShardState>)
  {
    && (forall i :: 0 <= i < |states| ==> states[i].height > last)
    && (forall i, j :: 0 <= i < j < |states| ==> states[i].height < states[j].height)
    && ReceiversOnce(states)
  }

  /** What is assumed of an inserted block: it continues every shard of its parent's chain. */
  ghost predicate BlockContinues(blocks: Blocks, block: Block)
    requires WellFormed(blocks) && block.prevHash in blocks
  {
    forall from: ShardID :: ContinuesFrom(LastConfirmed(blocks, block.prevHash, from), StatesIn(block, from))
  }

  ghost predicate BlockContinuesAt(states: seq<State>, steps: seq<Insertion>, i: nat)
    requires IsRun(states, steps) && i < |steps|
  {
    RunKeepsIndex(states, steps, i);
    assert StepAt(states, steps, i);
    BlockContinues(states[i].blocks, steps[i].block)
  }

  ghost predicate BlocksContinue(states: seq<State>, steps: seq<Insertion>, n: nat)
    requires IsRun(states, steps) && n <= |steps|
  {
    forall i: nat :: i < n ==> BlockContinuesAt(states, steps, i)
  }

  // ---------------------------------------------------------------------------------------------
  // Produced blocks continue their shards
  // ---------------------------------------------------------------------------------------------

  /** The best shard height in the view of h: what genesis sets it to, then the last state of each
      block that has any for the shard. */
  ghost function BestShardHeight(blocks: Blocks, h: Hash, from: ShardID, atGenesis: ShardID -> nat): nat
    requires WellFormed(blocks) && h in blocks
    decreases blocks[h].height
  {
    assert Linked(blocks, h);
    if blocks[h].height <= 1 then atGenesis(from)
    else
      var states := StatesIn(blocks[h], from);
      if states == [] then BestShardHeight(blocks, blocks[h].prevHash, from, atGenesis)
      else states[|states| - 1].height
  }

  /** The view's best height is the last one confirmed on its chain, if there is one. */
  lemma {:induction false} BestIsLastConfirmed(blocks: Blocks, h: Hash, from: ShardID, atGenesis: ShardID -> nat)
    requires WellFormed(blocks) && h in blocks
    ensures BestShardHeight(blocks, h, from, atGenesis)
         == if ChainStates(blocks, h, from) == [] then atGenesis(from) else LastConfirmed(blocks, h, from)
    decreases blocks[h].height
  {
    assert Linked(blocks, h);
    if blocks[h].height > 1 {
      var parent, states := blocks[h].prevHash, StatesIn(blocks[h], from);
      BestIsLastConfirmed(blocks, parent, from, atGenesis);
      if states == [] { assert ChainStates(blocks, h, from) == ChainStates(blocks, parent, from); }
    }
  }

  /** The states are what a producer takes from a shard chain above the best height, each with its
      receivers as they are computed: strictly ascending. */
  ghost predicate PickedFrom(chain: ShardSelection.Chain, best: nat, finalized: nat, states: seq<ShardState>)
  {
    var bs := ShardSelection.ForProducer(chain, best, finalized);
    && ShardSelection.WellFiled(chain) && |states| == |bs|
    && (forall i :: 0 <= i < |bs| ==> states[i].height == bs[i].height)
    && forall k :: 0 <= k < |states| ==> ReceiversAscend(states[k].crossShard)
  }

  ghost predicate ReceiversAscend(receivers: seq<ShardID>)
  {
    forall i, j :: 0 <= i < j < |receivers| ==> receivers[i] < receivers[j]
  }

  lemma {:induction false} PickedContinues(chain: ShardSelection.Chain, best: nat, finalized: nat, last: nat,
                                           states: seq<ShardState>)
    requires PickedFrom(chain, best, finalized, states) && last <= best
    ensures ContinuesFrom(last, states)
  {
    ShardSelection.ProducerProperties(chain, best, finalized);
    forall k | 0 <= k < |states|
      ensures NoRepeats(states[k].crossShard)
    {
      assert ReceiversAscend(states[k].crossShard);
    }
  }

  /** The block was built by a producer on the view of its parent, from whatever shard chains it saw. */
  ghost predicate BlockProduced(blocks: Blocks, block: Block, atGenesis: ShardID -> nat)
    requires WellFormed(blocks) && block.prevHash in blocks
  {
    forall from: ShardID :: ShardProduced(blocks, block, from, atGenesis)
  }

  ghost predicate ShardProduced(blocks: Blocks, block: Block, from: ShardID, atGenesis: ShardID -> nat)
    requires WellFormed(blocks) && block.prevHash in blocks
  {
    var best := BestShardHeight(blocks, block.prevHash, from, atGenesis);
    exists chain, finalized: nat :: PickedFrom(chain, best, finalized, StatesIn(block, from))
  }

  /** A produced block continues every shard of its parent's chain. */
  lemma {:induction false} ProducedContinues(blocks: Blocks, block: Block, atGenesis: ShardID -> nat)
    requires WellFormed(blocks) && block.prevHash in blocks && BlockProduced(blocks, block, atGenesis)
    ensures BlockContinues(blocks, block)
  {
    var parent := block.prevHash;
    forall from: ShardID
      ensures ContinuesFrom(LastConfirmed(blocks, parent, from), StatesIn(block, from))
    {
      assert ShardProduced(blocks, block, from, atGenesis);
      var best := BestShardHeight(blocks, parent, from, atGenesis);
      var chain, finalized: nat :| PickedFrom(chain, best, finalized, StatesIn(block, from));
      BestIsLastConfirmed(blocks, parent, from, atGenesis);
      PickedContinues(chain, best, finalized, LastConfirmed(blocks, parent, from), StatesIn(block, from));
    }
  }

  ghost predicate BlockProducedAt(states: seq<State>, steps: seq<Insertion>, i: nat, atGenesis: ShardID -> nat)
    requires IsRun(states, steps) && i < |steps|
  {
    RunKeepsIndex(states, steps, i);
    assert StepAt(states, steps, i);
    BlockProduced(states[i].blocks, steps[i].block, atGenesis)
  }

  /** So every run of produced blocks, on whatever branches, is a run of continuing blocks. */
  lemma {:induction false} ProducedRunContinues(states: seq<State>, steps: seq<Insertion>, n: nat,
                                                atGenesis: ShardID -> nat)
    requires IsRun(states, steps) && n <= |steps|
    requires forall i: nat :: i < n ==> BlockProducedAt(states, steps, i, atGenesis)
    ensures BlocksContinue(states, steps, n)
  {
    forall i: nat | i < n
      ensures BlockContinuesAt(states, steps, i)
    {
      RunKeepsIndex(states, steps, i);
      assert StepAt(states, steps, i) && BlockProducedAt(states, steps, i, atGenesis);
      ProducedContinues(states[i].blocks, steps[i].block, atGenesis);
    }
  }

  // ---------------------------------------------------------------------------------------------
  // Every chain ascends
  // ---------------------------------------------------------------------------------------------

  ghost predicate ChainAscends(blocks: Blocks, h: Hash, from: ShardID)
    requires WellFormed(blocks) && h in blocks
  {
    Ascending(ChainStates(blocks, h, from)) && ReceiversOnce(ChainStates(blocks, h, from))
  }

  ghost predicate ChainsAscend(blocks: Blocks)
    requires WellFormed(blocks)
  {
    forall h, from: ShardID :: h in blocks ==> ChainAscends(blocks, h, from)
  }

  lemma {:induction false} ChainStatesStable(blocks: Blocks, more: Blocks, h: Hash, from: ShardID)
    requires WellFormed(blocks) && WellFormed(more) && h in blocks
    requires forall x :: x in blocks ==> x in more && more[x] == blocks[x]
    ensures ChainStates(more, h, from) == ChainStates(blocks, h, from)
    decreases blocks[h].height
  {
    assert Linked(blocks, h);
    if blocks[h].height > 1 { ChainStatesStable(blocks, more, blocks[h].prevHash, from); }
  }

  lemma {:induction false} AscendFurther(older: seq<ShardState>, states: seq<ShardState>)
    requires Ascending(older) && ReceiversOnce(older)
    requires ContinuesFrom(if older == [] then 0 else older[|older| - 1].height, states)
    ensures Ascending(older + states) && ReceiversOnce(older + states)
  {
    var all := older + states;
    forall i, j | 0 <= i < j < |all|
      ensures all[i].height < all[j].height
    {
      if i < |older| <= j {
        assert all[i].height <= older[|older| - 1].height;
        assert states[j - |older|].height > older[|older| - 1].height;
      }
    }
  }

  lemma {:induction false} StoredChainsAscend(blocks: Blocks, block: Block)
    requires WellFormed(blocks) && Fits(blocks, block)
    requires ChainsAscend(blocks) && BlockContinues(blocks, block)
    ensures ChainsAscend(WithBlock(blocks, block))
  {
    var more := WithBlock(blocks, block);
    forall h, from: ShardID | h in more
      ensures ChainAscends(more, h, from)
    {
      if h in blocks {
        ChainStatesStable(blocks, more, h, from);
        assert ChainAscends(blocks, h, from);
      } else {
        NewChainAscends(blocks, block, from);
      }
    }
  }

  lemma {:induction false} NewChainAscends(blocks: Blocks, block: Block, from: ShardID)
    requires WellFormed(blocks) && Fits(blocks, block)
    requires ChainsAscend(blocks) && BlockContinues(blocks, block)
    ensures ChainAscends(WithBlock(blocks, block), block.hash, from)
  {
    var more, parent := WithBlock(blocks, block), block.prevHash;
    assert Linked(blocks, parent);
    assert ChainAscends(blocks, parent, from);
    ChainStatesStable(blocks, more, parent, from);
    AscendFurther(ChainStates(blocks, parent, from), StatesIn(block, from));
    assert ChainStates(more, block.hash, from) == ChainStates(more, parent, from) + StatesIn(block, from);
  }

  /** When every inserted block continues its parent's chain, every chain of every state ascends. */
  lemma {:induction false} RunChainsAscend(states: seq<State>, steps: seq<Insertion>, n: nat)
    requires IsRun(states, steps) && n <= |steps| && BlocksContinue(states, steps, n)
    ensures Valid(states[n]) && ChainsAscend(states[n].blocks)
  {
    RunKeepsIndex(states, steps, n);
    if n > 0 {
      RunChainsAscend(states, steps, n - 1);
      var i: nat := n - 1;
      assert StepAt(states, steps, i) && BlockContinuesAt(states, steps, i);
      StoredChainsAscend(states[i].blocks, steps[i].block);
    }
  }

  // ---------------------------------------------------------------------------------------------
  // The lists
  // ---------------------------------------------------------------------------------------------

  lemma {:induction false} ChainsGiveDistinctHeights(s: State)
    requires Valid(s) && ChainsAscend(s.blocks)
    ensures HeightsDistinct(s)
  {
    forall from: ShardID
      ensures Ascending(ChainStates(s.blocks, s.final, from)) && ReceiversOnce(ChainStates(s.blocks, s.final, from))
    {
      assert ChainAscends(s.blocks, s.final, from);
    }
    AscendingChainHasDistinctHeights(s);
  }

  lemma {:induction false} NextLists(states: seq<State>, steps: seq<Insertion>, n: nat)
    requires IsRun(states, steps) && n < |steps| && StaysOnBranch(states, steps, n)
    requires Valid(states[n]) && ListsExact(states[n], FinalizerAt(states, steps, n))
    requires Valid(states[n + 1]) && ChainsAscend(states[n + 1].blocks)
    ensures ListsExact(states[n + 1], FinalizerAt(states, steps, n + 1))
  {
    ChainsGiveDistinctHeights(states[n + 1]);
    RunStep(states, steps, n);
  }

  /** Over every run from genesis of blocks that continue their parent's chain, forks included as long
      as nothing is finalized from a view beside the branch, every list is exact at every moment. */
  lemma {:induction false} RunKeepsLists(states: seq<State>, steps: seq<Insertion>, n: nat)
    requires IsRun(states, steps) && n <= |steps|
    requires OneBranch(states, steps, n) && BlocksContinue(states, steps, n)
    ensures Valid(states[n]) && ListsExact(states[n], FinalizerAt(states, steps, n))
  {
    RunChainsAscend(states, steps, n);
    if n == 0 {
      GenesisLists(states[0]);
    } else {
      RunKeepsLists(states, steps, n - 1);
      NextLists(states, steps, n - 1);
    }
  }

  /** The links of a pair, followed from 0, run in ascending height through exactly the finalized
      shard blocks that name the receiver, each link with the beacon block that confirmed it, and stop at
      the cursor of every view on the branch. */
  ghost predicate ListsSenders(s: State, finalizer: Hash, p: Pair)
    requires Valid(s) && finalizer in s.blocks
  {
    var es := AllConfirmed(s, p);
    var chain := ChainStates(s.blocks, s.final, p.0);
    var senders := Sending(chain, p.1);
    && Enumerates(LinksOf(s.links, p), es) && NothingElse(LinksOf(s.links, p), es)
    && Names(es, senders) && Ascending(senders)
    && (forall x :: x in senders <==> x in chain && p.1 in x.crossShard)
    && (forall i :: 0 <= i < |es| ==> ConfirmedIn(s.blocks, s.final, p, es[i]))
    && forall v :: v in s.blocks && Descends(s.blocks, v, finalizer) ==> CursorOf(s.cursors[v], p) == Tail(es)
  }

  /** The lists over whole runs, from facts about single blocks alone. */
  lemma {:induction false} RunListsSenders(states: seq<State>, steps: seq<Insertion>, n: nat, p: Pair)
    requires IsRun(states, steps) && n <= |steps| && p.0 != p.1
    requires OneBranch(states, steps, n) && BlocksContinue(states, steps, n)
    ensures Valid(states[n]) && ListsSenders(states[n], FinalizerAt(states, steps, n), p)
  {
    RunKeepsLists(states, steps, n);
    RunChainsAscend(states, steps, n);
    var s := states[n];
    assert ChainAscends(s.blocks, s.final, p.0);
    ListNamesSenders(s, p);
    assert ListExact(s, p);
    forall i | 0 <= i < |AllConfirmed(s, p)|
      ensures ConfirmedIn(s.blocks, s.final, p, AllConfirmed(s, p)[i])
    {
      EntryIsConfirmedIn(s.blocks, 1, s.final, p, i);
    }
  }
}
