/**
 Storing beacon blocks: the finalized height index, look-up by height, and the cross-shard lists
 (blockchain/beaconprocess.go, blockchain/accessor_blockchain.go).

 The choice of best and final view is made elsewhere; an insertion takes the new ones as
 arguments and assumes only that a moving final view descends from the old one and is an ancestor
 of the best view.  Each view carries its own cursors while the index and the link table are shared.
 */
module BeaconStore {
  import opened BlockTree
  import opened CrossShardLinks

  type Cursors = map<Pair, nat>
  type LinkTable = map<Pair, Links>

  function LinksOf(table: LinkTable, p: Pair): Links
  {
    if p in table then table[p] else map[]
  }

  function CursorOf(cursors: Cursors, p: Pair): nat
  {
    if p in cursors then cursors[p] else 0
  }

  function StateOf(table: LinkTable, cursors: Cursors, p: Pair): PairState
  {
    PairState(LinksOf(table, p), CursorOf(cursors, p))
  }

  // ---------------------------------------------------------------------------------------------
  // What a block confirms for a pair of shards
  // ---------------------------------------------------------------------------------------------

  function InfoOf(block: Block, s: ShardState): NextCrossShardInfo
  {
    NextCrossShardInfo(s.height, s.hash, block.height, block.hash)
  }

  /** One entry for every mention of `to` among the first n receivers of a shard block. */
  function SentBy(block: Block, s: ShardState, to: ShardID, n: nat): seq<NextCrossShardInfo>
    requires n <= |s.crossShard|
  {
    if n == 0 then []
    else SentBy(block, s, to, n - 1) + if s.crossShard[n - 1] == to then [InfoOf(block, s)] else []
  }

  function SentByFirst(block: Block, states: seq<ShardState>, to: ShardID, n: nat): seq<NextCrossShardInfo>
    requires n <= |states|
  {
    if n == 0 then []
    else SentByFirst(block, states, to, n - 1) + SentBy(block, states[n - 1], to, |states[n - 1].crossShard|)
  }

  /** The confirmations that the first n states of shard `from` add to pair p. */
  function FromShard(block: Block, from: ShardID, states: seq<ShardState>, n: nat, p: Pair): seq<NextCrossShardInfo>
    requires n <= |states|
  {
    if p.0 == from && p.1 != from then SentByFirst(block, states, p.1, n) else []
  }

  function Confirmed(block: Block, p: Pair): seq<NextCrossShardInfo>
  {
    if p.0 in block.shardStates
    then FromShard(block, p.0, block.shardStates[p.0], |block.shardStates[p.0]|, p)
    else []
  }

  /** All confirmations for p on the chain of h above height `low`, oldest first. */
  ghost function ConfirmedAbove(blocks: Blocks, low: nat, h: Hash, p: Pair): seq<NextCrossShardInfo>
    requires WellFormed(blocks) && h in blocks && low >= 1
    decreases blocks[h].height
  {
    assert Linked(blocks, h);
    if blocks[h].height <= low then []
    else ConfirmedAbove(blocks, low, blocks[h].prevHash, p) + Confirmed(blocks[h], p)
  }

  lemma {:induction false} ConfirmedSplit(blocks: Blocks, low: nat, mid: nat, h: Hash, p: Pair)
    requires WellFormed(blocks) && h in blocks && 1 <= low <= mid <= blocks[h].height
    ensures ConfirmedAbove(blocks, low, h, p)
         == ConfirmedAbove(blocks, low, AncestorAt(blocks, h, mid), p) + ConfirmedAbove(blocks, mid, h, p)
    decreases blocks[h].height
  {
    assert Linked(blocks, h);
    if blocks[h].height > mid {
      ConfirmedSplit(blocks, low, mid, blocks[h].prevHash, p);
    }
  }

  lemma {:induction false} ConfirmedStable(blocks: Blocks, more: Blocks, low: nat, h: Hash, p: Pair)
    requires WellFormed(blocks) && WellFormed(more) && h in blocks && low >= 1
    requires forall x :: x in blocks ==> x in more && more[x] == blocks[x]
    ensures ConfirmedAbove(more, low, h, p) == ConfirmedAbove(blocks, low, h, p)
    decreases blocks[h].height
  {
    assert Linked(blocks, h);
    if blocks[h].height > low { ConfirmedStable(blocks, more, low, blocks[h].prevHash, p); }
  }

  // ---------------------------------------------------------------------------------------------
  // The store as a state machine
  // ---------------------------------------------------------------------------------------------

  datatype State = State(blocks: Blocks, index: map<nat, Hash>, final: Hash, best: Hash,
                         links: LinkTable, cursors: map<Hash, Cursors>)

  /** The index holds exactly the heights up to the final view, each with that view's ancestor. */
  ghost predicate IndexAgrees(blocks: Blocks, index: map<nat, Hash>, final: Hash)
    requires WellFormed(blocks) && final in blocks
  {
    && (forall height :: height in index <==> 1 <= height <= blocks[final].height)
    && (forall height :: height in index ==> index[height] == AncestorAt(blocks, final, height))
  }

  /** The index entries of the heights above `low` on the chain of h. */
  ghost function IndexAbove(blocks: Blocks, low: nat, h: Hash): map<nat, Hash>
    requires WellFormed(blocks) && h in blocks
    decreases blocks[h].height - low
  {
    if blocks[h].height <= low then map[]
    else IndexAbove(blocks, low + 1, h)[low + 1 := AncestorAt(blocks, h, low + 1)]
  }

  lemma {:induction false} IndexAboveAt(blocks: Blocks, low: nat, h: Hash, height: nat)
    requires WellFormed(blocks) && h in blocks
    ensures height in IndexAbove(blocks, low, h) <==> low < height <= blocks[h].height
    ensures height in IndexAbove(blocks, low, h) ==> IndexAbove(blocks, low, h)[height] == AncestorAt(blocks, h, height)
    decreases blocks[h].height - low
  {
    if blocks[h].height > low { IndexAboveAt(blocks, low + 1, h, height); }
  }

  ghost predicate Valid(s: State)
  {
    && WellFormed(s.blocks) && s.final in s.blocks && s.best in s.blocks
    && Descends(s.blocks, s.best, s.final)
    && IndexAgrees(s.blocks, s.index, s.final)
    && s.cursors.Keys == s.blocks.Keys
  }

  ghost function FinalHeight(s: State): (height: nat)
    requires Valid(s)
    ensures height >= 1
  {
    assert Linked(s.blocks, s.final);
    s.blocks[s.final].height
  }

  /** What is assumed of the view selection. */
  ghost predicate ViewsMove(blocks: Blocks, final: Hash, newFinal: Hash, newBest: Hash)
    requires WellFormed(blocks) && final in blocks
  {
    && newFinal in blocks && newBest in blocks
    && if blocks[newFinal].height > blocks[final].height
       then Descends(blocks, newFinal, final) && Descends(blocks, newBest, newFinal)
       else Descends(blocks, newBest, final)
  }

  /** A block that the store takes: new, on a known view not below the final one, next height. */
  predicate Accepts(s: State, block: Block)
    requires s.final in s.blocks
  {
    Fits(s.blocks, block) && s.blocks[block.prevHash].height >= s.blocks[s.final].height
  }

  ghost predicate Finalizes(s: State, block: Block, newFinal: Hash)
    requires s.final in s.blocks && newFinal in s.blocks[block.hash := block]
  {
    s.blocks[block.hash := block][newFinal].height > s.blocks[s.final].height
  }

  /** One accepted insertion, as a relation between the states before and after. */
  ghost predicate Inserted(s: State, t: State, block: Block, newFinal: Hash, newBest: Hash)
    requires Valid(s)
  {
    && Accepts(s, block)
    && t.blocks == WithBlock(s.blocks, block)
    && ViewsMove(t.blocks, s.final, newFinal, newBest)
    && var low := FinalHeight(s);
    && t.final == (if Finalizes(s, block, newFinal) then newFinal else s.final)
    && t.best == newBest
    && t.index == s.index + IndexAbove(t.blocks, low, newFinal)
    && (forall h :: h in t.cursors <==> h in t.blocks)
    && (forall h :: h in s.blocks ==> h in t.cursors && t.cursors[h] == s.cursors[h])
    && forall p: Pair :: StateOf(t.links, t.cursors[block.hash], p)
         == Advance(StateOf(s.links, s.cursors[block.prevHash], p), ConfirmedAbove(t.blocks, low, newFinal, p))
  }

  /** Extending the index along a descending final view keeps it in agreement with the tree. */
  lemma {:induction false} IndexExtends(blocks: Blocks, index: map<nat, Hash>, final: Hash, newFinal: Hash)
    requires WellFormed(blocks) && final in blocks && newFinal in blocks
    requires IndexAgrees(blocks, index, final) && Descends(blocks, newFinal, final)
    ensures IndexAgrees(blocks, index + IndexAbove(blocks, blocks[final].height, newFinal), newFinal)
  {
    assert Linked(blocks, final);
    var low := blocks[final].height;
    var longer := index + IndexAbove(blocks, low, newFinal);
    forall height: nat
      ensures height in longer <==> 1 <= height <= blocks[newFinal].height
      ensures height in longer ==> longer[height] == AncestorAt(blocks, newFinal, height)
    {
      IndexAboveAt(blocks, low, newFinal, height);
      if 1 <= height <= low { AncestorOfAncestor(blocks, newFinal, low, height); }
    }
  }

  lemma {:induction false} IndexStable(blocks: Blocks, more: Blocks, index: map<nat, Hash>, final: Hash)
    requires WellFormed(blocks) && WellFormed(more) && final in blocks && IndexAgrees(blocks, index, final)
    requires forall x :: x in blocks ==> x in more && more[x] == blocks[x]
    ensures IndexAgrees(more, index, final)
  {
    forall height | height in index
      ensures index[height] == AncestorAt(more, final, height)
    {
      AncestorStable(blocks, more, final, height);
    }
  }

  /** Every insertion keeps the index in agreement with the block tree. */
  lemma {:induction false} InsertKeepsValid(s: State, t: State, block: Block, newFinal: Hash, newBest: Hash)
    requires Valid(s) && Inserted(s, t, block, newFinal, newBest)
    ensures Valid(t)
  {
    assert Linked(s.blocks, s.final);
    IndexStable(s.blocks, t.blocks, s.index, s.final);
    if Finalizes(s, block, newFinal) {
      IndexExtends(t.blocks, s.index, s.final, newFinal);
    } else {
      assert IndexAbove(t.blocks, FinalHeight(s), newFinal) == map[];
      assert t.index == s.index;
    }
  }

  // ---------------------------------------------------------------------------------------------
  // Cross-shard lists along one branch
  // ---------------------------------------------------------------------------------------------

  ghost function AllConfirmed(s: State, p: Pair): seq<NextCrossShardInfo>
    requires Valid(s)
  {
    ConfirmedAbove(s.blocks, 1, s.final, p)
  }

  /** The list of p enumerates exactly what the finalized chain confirms for p. */
  ghost predicate ListExact(s: State, p: Pair)
    requires Valid(s)
  {
    Enumerates(LinksOf(s.links, p), AllConfirmed(s, p)) && NothingElse(LinksOf(s.links, p), AllConfirmed(s, p))
  }

  /** All lists are exact, and every view on the branch of the last finalizing view has its cursors
      at the ends of the lists. */
  ghost predicate ListsExact(s: State, finalizer: Hash)
    requires Valid(s)
  {
    && finalizer in s.blocks
    && (forall p: Pair :: ListExact(s, p))
    && forall v, p: Pair :: v in s.blocks && Descends(s.blocks, v, finalizer) ==>
         CursorOf(s.cursors[v], p) == Tail(AllConfirmed(s, p))
  }

  /** The step stays on one branch: what finalizes extends the view that finalized last. */
  ghost predicate OnBranch(s: State, finalizer: Hash, block: Block, newFinal: Hash)
    requires Valid(s) && finalizer in s.blocks && block.prevHash in s.blocks
    requires newFinal in s.blocks[block.hash := block]
  {
    Finalizes(s, block, newFinal) ==> Descends(s.blocks, block.prevHash, finalizer)
  }

  ghost function NextFinalizer(s: State, finalizer: Hash, block: Block, newFinal: Hash): Hash
    requires s.final in s.blocks && newFinal in s.blocks[block.hash := block]
  {
    if Finalizes(s, block, newFinal) then block.hash else finalizer
  }

  /** The finalized chain only ever grows. */
  lemma {:induction false} ConfirmedGrows(s: State, t: State, block: Block, newFinal: Hash, newBest: Hash, p: Pair)
    requires Valid(s) && Valid(t) && Inserted(s, t, block, newFinal, newBest)
    ensures AllConfirmed(t, p)
         == AllConfirmed(s, p) + ConfirmedAbove(t.blocks, FinalHeight(s), newFinal, p)
  {
    var low := FinalHeight(s);
    ConfirmedStable(s.blocks, t.blocks, 1, s.final, p);
    if Finalizes(s, block, newFinal) {
      ConfirmedSplit(t.blocks, 1, low, newFinal, p);
    } else {
      assert ConfirmedAbove(t.blocks, low, newFinal, p) == [];
    }
  }

  /** For one pair and one finalizing step that confirms something for it: the list stays exact if
      and only if the parent view's cursor stands at the end of the list. */
  lemma {:induction false} StepKeepsListIff(s: State, t: State, block: Block, newFinal: Hash, newBest: Hash, p: Pair)
    requires Valid(s) && Valid(t) && Inserted(s, t, block, newFinal, newBest) && ListExact(s, p)
    requires ConfirmedAbove(t.blocks, FinalHeight(s), newFinal, p) != []
    requires Distinct(AllConfirmed(t, p))
    ensures Enumerates(LinksOf(t.links, p), AllConfirmed(t, p))
            <==> CursorOf(s.cursors[block.prevHash], p) == Tail(AllConfirmed(s, p))
  {
    var more := ConfirmedAbove(t.blocks, FinalHeight(s), newFinal, p);
    ConfirmedGrows(s, t, block, newFinal, newBest, p);
    AdvanceKeepsListIff(LinksOf(s.links, p), CursorOf(s.cursors[block.prevHash], p), AllConfirmed(s, p), more);
    assert StateOf(t.links, t.cursors[block.hash], p) == Advance(StateOf(s.links, s.cursors[block.prevHash], p), more);
  }

  /** A step on the branch keeps the list of one pair, and the new view's cursor when it has one. */
  lemma {:induction false} StepKeepsList(s: State, t: State, block: Block, newFinal: Hash, newBest: Hash,
                                         finalizer: Hash, p: Pair)
    requires Valid(s) && Valid(t) && Inserted(s, t, block, newFinal, newBest)
    requires ListsExact(s, finalizer) && OnBranch(s, finalizer, block, newFinal)
    requires Distinct(AllConfirmed(t, p))
    ensures ListExact(t, p)
    ensures Descends(s.blocks, block.prevHash, finalizer) ==>
              CursorOf(t.cursors[block.hash], p) == Tail(AllConfirmed(t, p))
  {
    var more := ConfirmedAbove(t.blocks, FinalHeight(s), newFinal, p);
    ConfirmedGrows(s, t, block, newFinal, newBest, p);
    assert StateOf(t.links, t.cursors[block.hash], p) == Advance(StateOf(s.links, s.cursors[block.prevHash], p), more);
    assert ListExact(s, p);
    if Descends(s.blocks, block.prevHash, finalizer) {
      AdvanceFromTail(StateOf(s.links, s.cursors[block.prevHash], p), AllConfirmed(s, p), more);
    } else {
      assert more == [];
      assert AllConfirmed(t, p) == AllConfirmed(s, p);
    }
  }

  /** A new view descends from an old one exactly when its parent does. */
  lemma {:induction false} NewViewDescends(s: State, t: State, block: Block, newFinal: Hash, newBest: Hash, v: Hash)
    requires Valid(s) && Valid(t) && Inserted(s, t, block, newFinal, newBest) && v in s.blocks
    ensures Descends(t.blocks, block.hash, v) <==> Descends(s.blocks, block.prevHash, v)
  {
    assert Linked(s.blocks, v);
    DescendsStable(s.blocks, t.blocks, block.prevHash, v);
  }

  lemma {:induction false} NothingAboveNewView(s: State, t: State, block: Block, newFinal: Hash, newBest: Hash, v: Hash)
    requires Valid(s) && Valid(t) && Inserted(s, t, block, newFinal, newBest) && v in t.blocks
        && Descends(t.blocks, v, block.hash)
    ensures v == block.hash
  {
    if v in s.blocks {
      AncestorStable(s.blocks, t.blocks, v, block.height);
    }
  }

  /** After a step on the branch, every view on the new branch has its cursor at the list's end. */
  lemma {:induction false} StepKeepsCursor(s: State, t: State, block: Block, newFinal: Hash, newBest: Hash,
                                           finalizer: Hash, v: Hash, p: Pair)
    requires Valid(s) && Valid(t) && Inserted(s, t, block, newFinal, newBest)
    requires ListsExact(s, finalizer) && OnBranch(s, finalizer, block, newFinal)
    requires Distinct(AllConfirmed(t, p))
    requires v in t.blocks && Descends(t.blocks, v, NextFinalizer(s, finalizer, block, newFinal))
    ensures CursorOf(t.cursors[v], p) == Tail(AllConfirmed(t, p))
  {
    if Finalizes(s, block, newFinal) {
      NothingAboveNewView(s, t, block, newFinal, newBest, v);
      StepKeepsList(s, t, block, newFinal, newBest, finalizer, p);
    } else if v == block.hash {
      NewViewDescends(s, t, block, newFinal, newBest, finalizer);
      StepKeepsList(s, t, block, newFinal, newBest, finalizer, p);
    } else {
      DescendsStable(s.blocks, t.blocks, v, finalizer);
      ConfirmedGrows(s, t, block, newFinal, newBest, p);
      assert ConfirmedAbove(t.blocks, FinalHeight(s), newFinal, p) == [];
    }
  }

  /** Along one branch every step keeps all lists exact and the branch's cursors at their ends. */
  lemma {:induction false} InsertKeepsLists(s: State, t: State, block: Block, newFinal: Hash, newBest: Hash,
                                            finalizer: Hash)
    requires Valid(s) && Valid(t) && Inserted(s, t, block, newFinal, newBest)
    requires ListsExact(s, finalizer) && OnBranch(s, finalizer, block, newFinal)
    requires forall p: Pair :: Distinct(AllConfirmed(t, p))
    ensures ListsExact(t, NextFinalizer(s, finalizer, block, newFinal))
  {
    forall p: Pair
      ensures ListExact(t, p)
    {
      StepKeepsList(s, t, block, newFinal, newBest, finalizer, p);
    }
    forall v, p: Pair | v in t.blocks && Descends(t.blocks, v, NextFinalizer(s, finalizer, block, newFinal))
      ensures CursorOf(t.cursors[v], p) == Tail(AllConfirmed(t, p))
    {
      StepKeepsCursor(s, t, block, newFinal, newBest, finalizer, v, p);
    }
  }

  datatype Insertion = Insertion(block: Block, newFinal: Hash, newBest: Hash)

  ghost predicate IsGenesis(s: State)
  {
    && Valid(s) && s.blocks.Keys == {s.final} && s.blocks[s.final].height == 1
    && (forall p: Pair :: LinksOf(s.links, p) == map[])
    && forall v, p: Pair :: v in s.blocks ==> CursorOf(s.cursors[v], p) == 0
  }

  /** Step i is an accepted insertion, provided the state before it is a valid one. */
  ghost predicate StepAt(states: seq<State>, steps: seq<Insertion>, i: nat)
    requires |states| == |steps| + 1 && i < |steps|
  {
    Valid(states[i]) ==> Inserted(states[i], states[i + 1], steps[i].block, steps[i].newFinal, steps[i].newBest)
  }

  /** A run of accepted insertions from genesis. */
  ghost predicate IsRun(states: seq<State>, steps: seq<Insertion>)
  {
    && |states| == |steps| + 1 && IsGenesis(states[0])
    && forall i: nat :: i < |steps| ==> StepAt(states, steps, i)
  }

  /** Over every run from genesis the index agrees with the block tree. */
  lemma {:induction false} RunKeepsIndex(states: seq<State>, steps: seq<Insertion>, n: nat)
    requires IsRun(states, steps) && n <= |steps|
    ensures Valid(states[n])
  {
    if n > 0 {
      RunKeepsIndex(states, steps, n - 1);
      assert StepAt(states, steps, n - 1);
      InsertKeepsValid(states[n - 1], states[n], steps[n - 1].block, steps[n - 1].newFinal, steps[n - 1].newBest);
    }
  }

  /** The view that finalized last, after n steps of a run. */
  ghost function FinalizerAt(states: seq<State>, steps: seq<Insertion>, n: nat): (finalizer: Hash)
    requires IsRun(states, steps) && n <= |steps|
    ensures finalizer in states[n].blocks
  {
    RunKeepsIndex(states, steps, n);
    if n == 0 then states[0].final
    else
      RunKeepsIndex(states, steps, n - 1);
      assert StepAt(states, steps, n - 1);
      NextFinalizer(states[n - 1], FinalizerAt(states, steps, n - 1), steps[n - 1].block, steps[n - 1].newFinal)
  }

  /** Step i finalizes, if at all, from the branch of the view that finalized last. */
  ghost predicate StaysOnBranch(states: seq<State>, steps: seq<Insertion>, i: nat)
    requires IsRun(states, steps) && i < |steps|
  {
    RunKeepsIndex(states, steps, i);
    assert StepAt(states, steps, i);
    OnBranch(states[i], FinalizerAt(states, steps, i), steps[i].block, steps[i].newFinal)
  }

  /** The first n steps finalize only on the branch. */
  ghost predicate OneBranch(states: seq<State>, steps: seq<Insertion>, n: nat)
    requires IsRun(states, steps) && n <= |steps|
  {
    forall i: nat :: i < n ==> StaysOnBranch(states, steps, i)
  }

  /** No shard height is confirmed twice for a pair on the finalized chain. */
  ghost predicate HeightsDistinct(s: State)
    requires Valid(s)
  {
    forall p: Pair :: Distinct(AllConfirmed(s, p))
  }

  lemma {:induction false} GenesisLists(s: State)
    requires IsGenesis(s)
    ensures ListsExact(s, s.final)
  {
    forall p: Pair
      ensures AllConfirmed(s, p) == [] && ListExact(s, p)
    {
      assert Linked(s.blocks, s.final);
    }
  }

  /** One step of a run on the branch. */
  lemma {:induction false} RunStep(states: seq<State>, steps: seq<Insertion>, i: nat)
    requires IsRun(states, steps) && i < |steps| && Valid(states[i]) && Valid(states[i + 1])
    requires ListsExact(states[i], FinalizerAt(states, steps, i))
    requires StaysOnBranch(states, steps, i) && HeightsDistinct(states[i + 1])
    ensures ListsExact(states[i + 1], FinalizerAt(states, steps, i + 1))
  {
    assert StepAt(states, steps, i);
    InsertKeepsLists(states[i], states[i + 1], steps[i].block, steps[i].newFinal, steps[i].newBest,
                     FinalizerAt(states, steps, i));
  }
}
