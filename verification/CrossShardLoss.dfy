/**
 When a cross-shard list is exact, over whole runs and any forks: a list that misses a block once is
 never exact again.
 */
module CrossShardLoss {
  import opened BlockTree
  import opened CrossShardLinks
  import opened BeaconStore
  import opened CrossShardRuns

  /** What a step confirms for a pair. */
  ghost function NewlyConfirmed(s: State, t: State, newFinal: Hash, p: Pair): seq<NextCrossShardInfo>
    requires Valid(s) && Valid(t) && newFinal in t.blocks
  {
    ConfirmedAbove(t.blocks, FinalHeight(s), newFinal, p)
  }

  /** A step that confirms something for the pair finds the parent's cursor at the end of the list. */
  ghost predicate FindsEnd(s: State, t: State, block: Block, newFinal: Hash, p: Pair)
    requires Valid(s) && Valid(t) && newFinal in t.blocks && block.prevHash in s.cursors
  {
    NewlyConfirmed(s, t, newFinal, p) != [] ==>
      CursorOf(s.cursors[block.prevHash], p) == Tail(AllConfirmed(s, p))
  }

  ghost predicate ListMisses(s: State, p: Pair, k: nat)
    requires Valid(s)
  {
    Misses(LinksOf(s.links, p), AllConfirmed(s, p), k)
  }

  /** From an exact list: it stays exact, or it misses the first block of this step. */
  lemma {:induction false} StepFindsOrMisses(s: State, t: State, block: Block, newFinal: Hash, newBest: Hash, p: Pair)
    requires Valid(s) && Valid(t) && Inserted(s, t, block, newFinal, newBest)
    requires ListExact(s, p) && Distinct(AllConfirmed(t, p))
    ensures if FindsEnd(s, t, block, newFinal, p) then ListExact(t, p) else ListMisses(t, p, |AllConfirmed(s, p)|)
  {
    var es, more := AllConfirmed(s, p), NewlyConfirmed(s, t, newFinal, p);
    var before := StateOf(s.links, s.cursors[block.prevHash], p);
    ConfirmedGrows(s, t, block, newFinal, newBest, p);
    assert StateOf(t.links, t.cursors[block.hash], p) == Advance(before, more);
    if more == [] {
      assert es + more == es;
    } else if before.cursor == Tail(es) {
      AdvanceFromTail(before, es, more);
    } else {
      TailStaysFree(before.links, before.cursor, es, more);
      assert NodeAt(es + more, |es|) == Tail(es);
    }
  }

  /** No insertion, on whatever branch, brings a missed block back. */
  lemma {:induction false} StepKeepsMissing(s: State, t: State, block: Block, newFinal: Hash, newBest: Hash, p: Pair,
                                            k: nat)
    requires Valid(s) && Valid(t) && Inserted(s, t, block, newFinal, newBest)
    requires ListMisses(s, p, k) && Distinct(AllConfirmed(t, p))
    ensures ListMisses(t, p, k)
  {
    var more, before := NewlyConfirmed(s, t, newFinal, p), StateOf(s.links, s.cursors[block.prevHash], p);
    ConfirmedGrows(s, t, block, newFinal, newBest, p);
    assert StateOf(t.links, t.cursors[block.hash], p) == Advance(before, more);
    MissesForGood(before, AllConfirmed(s, p), more, k);
  }

  lemma {:induction false} MissingIsNotExact(s: State, p: Pair, k: nat)
    requires Valid(s) && ListMisses(s, p, k)
    ensures !ListExact(s, p)
  {
    assert NodeAt(AllConfirmed(s, p), k) == NodeAt(AllConfirmed(s, p), k);
  }

  // ---------------------------------------------------------------------------------------------
  // Runs
  // ---------------------------------------------------------------------------------------------

  /** Step i of a run finds the end of the pair's list. */
  ghost predicate FindsEndAt(states: seq<State>, steps: seq<Insertion>, i: nat, p: Pair)
    requires IsRun(states, steps) && i < |steps|
  {
    RunKeepsIndex(states, steps, i);
    RunKeepsIndex(states, steps, i + 1);
    assert StepAt(states, steps, i);
    FindsEnd(states[i], states[i + 1], steps[i].block, steps[i].newFinal, p)
  }

  ghost predicate AlwaysFindsEnd(states: seq<State>, steps: seq<Insertion>, n: nat, p: Pair)
    requires IsRun(states, steps) && n <= |steps|
  {
    forall i: nat :: i < n ==> FindsEndAt(states, steps, i, p)
  }

  ghost predicate ExactOrMissing(s: State, p: Pair, exact: bool)
    requires Valid(s)
  {
    if exact then ListExact(s, p) else exists k: nat :: ListMisses(s, p, k)
  }

  lemma {:induction false} DistinctAt(states: seq<State>, steps: seq<Insertion>, n: nat, p: Pair)
    requires IsRun(states, steps) && n <= |steps| && BlocksContinue(states, steps, n)
    ensures Valid(states[n]) && Distinct(AllConfirmed(states[n], p))
  {
    RunChainsAscend(states, steps, n);
    ChainsGiveDistinctHeights(states[n]);
  }

  lemma {:induction false} NextExactOrMissing(states: seq<State>, steps: seq<Insertion>, n: nat, p: Pair, exact: bool)
    requires IsRun(states, steps) && n < |steps| && Valid(states[n]) && Valid(states[n + 1])
    requires Distinct(AllConfirmed(states[n + 1], p)) && ExactOrMissing(states[n], p, exact)
    ensures ExactOrMissing(states[n + 1], p, exact && FindsEndAt(states, steps, n, p))
  {
    var s, t, step := states[n], states[n + 1], steps[n];
    assert StepAt(states, steps, n);
    if exact {
      StepFindsOrMisses(s, t, step.block, step.newFinal, step.newBest, p);
    } else {
      var k: nat :| ListMisses(s, p, k);
      StepKeepsMissing(s, t, step.block, step.newFinal, step.newBest, p, k);
    }
  }

  lemma {:induction false} RunExactOrMissing(states: seq<State>, steps: seq<Insertion>, n: nat, p: Pair)
    requires IsRun(states, steps) && n <= |steps| && BlocksContinue(states, steps, n)
    ensures Valid(states[n]) && ExactOrMissing(states[n], p, AlwaysFindsEnd(states, steps, n, p))
  {
    DistinctAt(states, steps, n, p);
    if n == 0 {
      GenesisLists(states[0]);
      assert ListExact(states[0], p);
    } else {
      RunExactOrMissing(states, steps, n - 1, p);
      var was := AlwaysFindsEnd(states, steps, n - 1, p);
      NextExactOrMissing(states, steps, n - 1, p, was);
      assert AlwaysFindsEnd(states, steps, n, p) <==> was && FindsEndAt(states, steps, n - 1, p);
    }
  }

  /** Over every run of blocks that continue their shards, whatever its forks: the list of a pair is
      exact if and only if every step that confirmed something for it found its parent's cursor at the
      end of the list. */
  lemma {:induction false} RunExactIff(states: seq<State>, steps: seq<Insertion>, n: nat, p: Pair)
    requires IsRun(states, steps) && n <= |steps| && BlocksContinue(states, steps, n)
    ensures Valid(states[n]) && (ListExact(states[n], p) <==> AlwaysFindsEnd(states, steps, n, p))
  {
    RunExactOrMissing(states, steps, n, p);
    if !AlwaysFindsEnd(states, steps, n, p) {
      var k: nat :| ListMisses(states[n], p, k);
      MissingIsNotExact(states[n], p, k);
    }
  }

  /** A list that is not exact is never exact again. */
  lemma {:induction false} LostForGood(states: seq<State>, steps: seq<Insertion>, m: nat, n: nat, p: Pair)
    requires IsRun(states, steps) && m <= n <= |steps| && BlocksContinue(states, steps, n)
    requires Valid(states[m]) && !ListExact(states[m], p)
    ensures Valid(states[n]) && !ListExact(states[n], p)
  {
    RunExactIff(states, steps, m, p);
    RunExactIff(states, steps, n, p);
  }
}
