/**
 A run that forks after a finalization and then finalizes on the fork: a confirmed cross-shard block
 is missing from its list, and stays so however the run goes on.
 */
module ForkRun {
  import opened BlockTree
  import opened CrossShardLinks
  import opened BeaconStore
  import opened CrossShardSenders
  import opened CrossShardRuns
  import opened CrossShardLoss
  import opened BeaconChain

  const Genesis: Block := Block(1, 0, 1, map[])

  /** Shard 0 sends to shard 1 in its block 5, confirmed in A2, and in its block 7, confirmed in B3. */
  const A2: Block := Block(2, 1, 2, map[0 := [ShardState(5, 50, [1])]])
  const A3: Block := Block(3, 2, 3, map[])
  const B3: Block := Block(4, 2, 3, map[0 := [ShardState(7, 70, [1])]])
  const B4: Block := Block(5, 4, 4, map[])

  const Sent: Pair := (0, 1)

  /** A3 finalizes A2; B3 forks off beside A3; B4 finalizes B3. */
  function Steps(): seq<Insertion>
  {
    [Insertion(A2, 1, 2), Insertion(A3, 2, 3), Insertion(B3, 2, 3), Insertion(B4, 4, 5)]
  }

  ghost predicate IsForkRun(states: seq<State>)
  {
    IsRun(states, Steps()) && states[0].blocks == map[1 := Genesis] && states[0].final == 1
  }

  lemma {:induction false} ParentIsAncestor(blocks: Blocks, h: Hash)
    requires WellFormed(blocks) && h in blocks && blocks[h].height > 1
    ensures blocks[h].prevHash in blocks && Descends(blocks, h, blocks[h].prevHash)
  {
    assert Linked(blocks, h);
    assert Linked(blocks, blocks[h].prevHash);
  }

  /** The tree after n steps. */
  function Tree(n: nat): Blocks
    requires n <= 4
  {
    if n == 0 then map[1 := Genesis] else Tree(n - 1)[Steps()[n - 1].block.hash := Steps()[n - 1].block]
  }

  lemma {:induction false} Trees()
    ensures Tree(1) == map[1 := Genesis, 2 := A2]
    ensures Tree(2) == map[1 := Genesis, 2 := A2, 3 := A3]
    ensures Tree(3) == map[1 := Genesis, 2 := A2, 3 := A3, 4 := B3]
    ensures Tree(4) == map[1 := Genesis, 2 := A2, 3 := A3, 4 := B3, 5 := B4]
  {
    assert Tree(0) == map[1 := Genesis];
    assert Tree(1) == Tree(0)[2 := A2];
    assert Tree(2) == Tree(1)[3 := A3];
    assert Tree(3) == Tree(2)[4 := B3];
    assert Tree(4) == Tree(3)[5 := B4];
  }

  lemma {:induction false} TreeWellFormed(n: nat)
    requires n <= 4
    ensures WellFormed(Tree(n))
    ensures n < 4 ==> Fits(Tree(n), Steps()[n].block) && Tree(n + 1) == WithBlock(Tree(n), Steps()[n].block)
  {
    Trees();
    if n == 0 {
      assert Linked(Tree(0), 1);
    } else {
      TreeWellFormed(n - 1);
    }
  }

  /** The final view after n steps. */
  function FinalAfter(n: nat): Hash
  {
    if n <= 1 then 1 else if n <= 3 then 2 else 4
  }

  /** The views of each step move as they must. */
  lemma {:induction false} StepViewsMove(n: nat)
    requires n < 4
    ensures WellFormed(Tree(n + 1)) && FinalAfter(n) in Tree(n + 1)
    ensures ViewsMove(Tree(n + 1), FinalAfter(n), Steps()[n].newFinal, Steps()[n].newBest)
  {
    Trees();
    TreeWellFormed(n + 1);
    var tree := Tree(n + 1);
    ParentIsAncestor(tree, Steps()[n].newBest);
    if n == 1 { ParentIsAncestor(tree, 2); }
    if n == 3 { ParentIsAncestor(tree, 4); }
  }

  /** The view a step finalizes is the final one after it, higher than before if it is another one. */
  lemma {:induction false} StepFinal(n: nat)
    requires n < 4
    ensures Steps()[n].newFinal == FinalAfter(n + 1)
    ensures FinalAfter(n) in Tree(n) && FinalAfter(n + 1) in Tree(n + 1)
    ensures FinalAfter(n + 1) == FinalAfter(n) || Tree(n + 1)[FinalAfter(n + 1)].height > Tree(n)[FinalAfter(n)].height
  {
    Trees();
  }

  lemma {:induction false} StepTree(s: State, t: State, n: nat)
    requires n < 4 && Valid(s) && s.blocks == Tree(n) && s.final == FinalAfter(n)
    requires Inserted(s, t, Steps()[n].block, Steps()[n].newFinal, Steps()[n].newBest)
    ensures t.blocks == Tree(n + 1) && t.final == FinalAfter(n + 1)
  {
    TreeWellFormed(n);
    StepFinal(n);
  }

  lemma {:induction false} NextTree(states: seq<State>, n: nat)
    requires IsForkRun(states) && n < 4
    requires Valid(states[n]) && states[n].blocks == Tree(n) && states[n].final == FinalAfter(n)
    ensures states[n + 1].blocks == Tree(n + 1) && states[n + 1].final == FinalAfter(n + 1)
  {
    assert StepAt(states, Steps(), n);
    StepTree(states[n], states[n + 1], n);
  }

  /** A run reaches exactly these trees and final views. */
  lemma {:induction false} RunTree(states: seq<State>, n: nat)
    requires IsForkRun(states) && n <= 4
    ensures Valid(states[n]) && states[n].blocks == Tree(n) && states[n].final == FinalAfter(n)
  {
    RunKeepsIndex(states, Steps(), n);
    if n > 0 {
      RunTree(states, n - 1);
      NextTree(states, n - 1);
    }
  }

  /** Every block continues its shards, on both branches. */
  lemma {:induction false} TreeContinues(n: nat)
    requires n < 4
    ensures WellFormed(Tree(n)) && Fits(Tree(n), Steps()[n].block) && BlockContinues(Tree(n), Steps()[n].block)
  {
    TreeWellFormed(n);
    var blocks, block := Tree(n), Steps()[n].block;
    forall from: ShardID
      ensures ContinuesFrom(LastConfirmed(blocks, block.prevHash, from), StatesIn(block, from))
    {
      if from == 0 && n == 0 {
        assert ChainStates(blocks, 1, 0) == [];
      } else if from == 0 && n == 2 {
        Trees();
        ConfirmedOnA(blocks);
      } else {
        assert StatesIn(block, from) == [];
      }
    }
  }

  lemma {:induction false} RunContinues(states: seq<State>, n: nat)
    requires IsForkRun(states) && n < 4
    ensures BlockContinuesAt(states, Steps(), n)
  {
    RunTree(states, n);
    TreeContinues(n);
  }

  lemma {:induction false} ConfirmedOnA(blocks: Blocks)
    requires WellFormed(blocks) && 1 in blocks && blocks[1] == Genesis && 2 in blocks && blocks[2] == A2
    ensures ChainStates(blocks, 2, 0) == [ShardState(5, 50, [1])]
    ensures ConfirmedAbove(blocks, 1, 2, Sent) == [InfoOf(A2, ShardState(5, 50, [1]))]
  {
    assert ChainStates(blocks, 1, 0) == [];
    assert ConfirmedAbove(blocks, 1, 1, Sent) == [];
    OneSent(A2, ShardState(5, 50, [1]));
  }

  /** A block with one shard block from 0 that names 1 confirms just that for the pair. */
  lemma {:induction false} OneSent(block: Block, s: ShardState)
    requires block.shardStates == map[0 := [s]] && s.crossShard == [1]
    ensures Confirmed(block, Sent) == [InfoOf(block, s)]
  {
    var states: seq<ShardState> := [s];
    assert SentBy(block, s, 1, 0) == [];
    assert SentBy(block, s, 1, 1) == [InfoOf(block, s)];
    assert SentByFirst(block, states, 1, 0) == [];
    assert SentByFirst(block, states, 1, 1) == SentBy(block, s, 1, 1);
  }

  lemma {:induction false} ConfirmedOnB(blocks: Blocks)
    requires WellFormed(blocks) && 2 in blocks && blocks[2] == A2 && 4 in blocks && blocks[4] == B3
    ensures ConfirmedAbove(blocks, 2, 4, Sent) == [InfoOf(B3, ShardState(7, 70, [1]))]
  {
    assert ConfirmedAbove(blocks, 2, 2, Sent) == [];
    OneSent(B3, ShardState(7, 70, [1]));
  }

  /** Up to the fork's first block the run stays on one branch. */
  lemma {:induction false} OneBranchUpToFork(states: seq<State>)
    requires IsForkRun(states)
    ensures OneBranch(states, Steps(), 3)
  {
    forall i: nat | i < 3
      ensures StaysOnBranch(states, Steps(), i)
    {
      RunTree(states, i);
      RunTree(states, i + 1);
      Trees();
      if i == 1 {
        assert StepAt(states, Steps(), 0);
        assert FinalizerAt(states, Steps(), 0) == 1;
        assert FinalizerAt(states, Steps(), 1) == 1;
        ParentIsAncestor(states[1].blocks, 2);
      }
    }
  }

  /** The fork's first view keeps the cursor of its parent, which has seen no finalization: 0. */
  lemma {:induction false} StaleCursor(states: seq<State>)
    requires IsForkRun(states)
    ensures Valid(states[3]) && 4 in states[3].cursors && CursorOf(states[3].cursors[4], Sent) == 0
  {
    RunTree(states, 0);
    RunTree(states, 1);
    RunTree(states, 2);
    RunTree(states, 3);
    Trees();
    assert StepAt(states, Steps(), 0) && StepAt(states, Steps(), 1) && StepAt(states, Steps(), 2);
    assert CursorOf(states[0].cursors[1], Sent) == 0;
    NoNewFinal(states[0], states[1], A2, 1, 2);
    NoNewFinal(states[2], states[3], B3, 2, 3);
  }

  lemma {:induction false} NoNewFinal(s: State, t: State, block: Block, newFinal: Hash, newBest: Hash)
    requires Valid(s) && Valid(t) && Inserted(s, t, block, newFinal, newBest) && newFinal == s.final
    ensures CursorOf(t.cursors[block.hash], Sent) == CursorOf(s.cursors[block.prevHash], Sent)
  {
    assert ConfirmedAbove(t.blocks, FinalHeight(s), newFinal, Sent) == [];
    assert StateOf(t.links, t.cursors[block.hash], Sent)
        == Advance(StateOf(s.links, s.cursors[block.prevHash], Sent), []);
  }

  /** Every block of the run continues its shards, and still the run ends with a list that misses
      block 7: finalizing on the fork breaks the list. */
  lemma {:induction false} ForkLosesBlock(states: seq<State>)
    requires IsForkRun(states)
    ensures BlocksContinue(states, Steps(), 4)
    ensures Valid(states[3]) && ListExact(states[3], Sent)
    ensures Valid(states[4]) && !ListExact(states[4], Sent)
  {
    forall i: nat | i < 4
      ensures BlockContinuesAt(states, Steps(), i)
    {
      RunContinues(states, i);
    }
    OneBranchUpToFork(states);
    RunKeepsLists(states, Steps(), 3);
    RunChainsAscend(states, Steps(), 4);
    ChainsGiveDistinctHeights(states[4]);
    LastStep(states);
  }

  lemma {:induction false} LastStep(states: seq<State>)
    requires IsForkRun(states) && Valid(states[3]) && Valid(states[4]) && ListExact(states[3], Sent)
    requires HeightsDistinct(states[4])
    ensures !Enumerates(LinksOf(states[4].links, Sent), AllConfirmed(states[4], Sent))
  {
    var s, t := states[3], states[4];
    RunTree(states, 3);
    RunTree(states, 4);
    Trees();
    assert StepAt(states, Steps(), 3);
    ConfirmedOnA(s.blocks);
    ConfirmedOnB(t.blocks);
    StaleCursor(states);
    assert FinalHeight(s) == 2;
    StepKeepsListIff(s, t, B4, 4, 5, Sent);
  }

  /** However a run of continuing blocks begins like this one and goes on, the list stays broken. */
  lemma {:induction false} ForkLosesForGood(states: seq<State>, steps: seq<Insertion>, n: nat)
    requires IsRun(states, steps) && 4 <= n <= |steps| && steps[..4] == Steps()
    requires states[0].blocks == map[1 := Genesis] && states[0].final == 1
    requires BlocksContinue(states, steps, n)
    ensures Valid(states[n]) && !ListExact(states[n], Sent)
  {
    var start := states[..5];
    forall i: nat | i < 4
      ensures StepAt(start, Steps(), i)
    {
      assert StepAt(states, steps, i);
      assert steps[i] == Steps()[i];
    }
    ForkLosesBlock(start);
    LostForGood(states, steps, 4, n, Sent);
  }

  ghost predicate Step(s: State, t: State, n: nat)
    requires n < 4
  {
    Valid(s) ==> Inserted(s, t, Steps()[n].block, Steps()[n].newFinal, Steps()[n].newBest)
  }

  /** The states of the first n insertions, from genesis on. */
  ghost predicate IsStart(states: seq<State>, n: nat)
    requires n <= 4
  {
    && |states| == n + 1
    && IsGenesis(states[0]) && states[0].blocks == map[1 := Genesis] && states[0].final == 1
    && forall i: nat :: i < n ==> StepOf(states, i)
  }

  ghost predicate StepOf(states: seq<State>, i: nat)
    requires i < 4 && i + 1 < |states|
  {
    Step(states[i], states[i + 1], i)
  }

  lemma {:induction false} StartGrows(states: seq<State>, n: nat, t: State)
    requires n < 4 && IsStart(states, n) && Step(states[n], t, n)
    ensures IsStart(states + [t], n + 1)
  {
    var more := states + [t];
    forall i: nat | i < n + 1
      ensures StepOf(more, i)
    {
      if i < n { assert StepOf(states, i); }
    }
  }

  lemma {:induction false} StartIsRun(states: seq<State>)
    requires IsStart(states, 4)
    ensures IsForkRun(states)
  {
    forall i: nat | i < 4
      ensures StepAt(states, Steps(), i)
    {
      assert StepOf(states, i);
    }
  }

  /** A valid state with the tree and the final view of the first n insertions. */
  ghost predicate Ready(s: State, n: nat)
    requires n <= 4
  {
    Valid(s) && s.blocks == Tree(n) && s.final == FinalAfter(n)
  }

  /** The n-th insertion on a chain that has made the ones before. */
  method InsertNext(chain: Chain, n: nat)
    requires n < 4 && Ready(chain.Snapshot(), n)
    modifies chain
    ensures Step(old(chain.Snapshot()), chain.Snapshot(), n) && Ready(chain.Snapshot(), n + 1)
  {
    ghost var s := chain.Snapshot();
    Trees();
    TreeWellFormed(n);
    StepViewsMove(n);
    var step := Steps()[n];
    var r := chain.InsertBeaconBlock(step.block, step.newFinal, step.newBest);
    StepTree(s, chain.Snapshot(), n);
  }

  method AtGenesis() returns (chain: Chain)
    ensures fresh(chain) && IsStart([chain.Snapshot()], 0) && Ready(chain.Snapshot(), 0)
  {
    chain := new Chain(Genesis);
    assert chain.blocks.Keys == {1};
  }

  /** One more insertion, with the states so far. */
  method ExtendRun(chain: Chain, n: nat, ghost states: seq<State>) returns (ghost more: seq<State>)
    requires n < 4 && Ready(chain.Snapshot(), n) && IsStart(states, n) && states[n] == chain.Snapshot()
    modifies chain
    ensures IsStart(more, n + 1) && more[n + 1] == chain.Snapshot() && Ready(chain.Snapshot(), n + 1)
  {
    ghost var s := chain.Snapshot();
    InsertNext(chain, n);
    ghost var t := chain.Snapshot();
    StartGrows(states, n, t);
    more := states + [t];
  }

  /** A chain after the first n insertions, with the states it went through. */
  method RunTo(n: nat) returns (chain: Chain, ghost states: seq<State>)
    requires n <= 4
    ensures fresh(chain) && IsStart(states, n) && states[n] == chain.Snapshot() && Ready(chain.Snapshot(), n)
  {
    if n == 0 {
      chain := AtGenesis();
      states := [chain.Snapshot()];
    } else {
      chain, states := RunTo(n - 1);
      states := ExtendRun(chain, n - 1, states);
    }
  }

  /** The run exists: a chain that goes through it ends with the broken list. */
  method RunOfChain() returns (chain: Chain, ghost states: seq<State>)
    ensures IsForkRun(states) && states[4] == chain.Snapshot()
    ensures Valid(chain.Snapshot()) && !ListExact(chain.Snapshot(), Sent)
  {
    chain, states := RunTo(4);
    StartIsRun(states);
    ForkLosesBlock(states);
  }
}
