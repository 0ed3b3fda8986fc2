/**
 The staking part of a beacon block body (blockchain/beaconproducer.go): requests of all shard
 blocks are filtered block by block, collected, and composed into one instruction of each kind.
 */
module StakingBody {
  import opened Lists
  import opened Staking

  /** What one shard block asks for, or what a body holds in the end. */
  datatype Requests = Requests(stakes: seq<StakeInstruction>, unstakes: seq<seq<Key>>, stops: seq<seq<Key>>)

  ghost predicate AllBlocksAligned(blocks: seq<Requests>)
  {
    forall b :: 0 <= b < |blocks| ==> AllAligned(blocks[b].stakes)
  }

  /** The first n lists, one after the other. */
  function Flat<T>(lists: seq<seq<T>>, n: nat): seq<T>
    requires n <= |lists|
  {
    if n == 0 then [] else Flat(lists, n - 1) + lists[n - 1]
  }

  function Whole<T>(lists: seq<seq<T>>): seq<T>
  {
    Flat(lists, |lists|)
  }

  lemma {:induction false} FlatPrefix<T>(a: seq<seq<T>>, b: seq<seq<T>>, n: nat)
    requires n <= |a|
    ensures Flat(a + b, n) == Flat(a, n)
  {
    if n > 0 { FlatPrefix(a, b, n - 1); }
  }

  lemma {:induction false} FlatConcat<T>(a: seq<seq<T>>, b: seq<seq<T>>, n: nat)
    requires n <= |b|
    ensures Flat(a + b, |a| + n) == Whole(a) + Flat(b, n)
  {
    if n == 0 {
      FlatPrefix(a, b, |a|);
    } else {
      FlatConcat(a, b, n - 1);
      assert (a + b)[|a| + n - 1] == b[n - 1];
      Associative(Whole(a), Flat(b, n - 1), b[n - 1]);
    }
  }

  lemma {:induction false} WholeConcat<T>(a: seq<seq<T>>, b: seq<seq<T>>)
    ensures Whole(a + b) == Whole(a) + Whole(b)
  {
    FlatConcat(a, b, |b|);
  }

  /** An instruction without keys is not written. */
  function Written(keys: seq<Key>): (lists: seq<seq<Key>>)
    ensures Whole(lists) == keys && |lists| <= 1
  {
    assert Flat([keys], 0) == [];
    if |keys| > 0 then [keys] else []
  }

  // ---------------------------------------------------------------------------------------------
  // Unstaking: only the first mention counts
  // ---------------------------------------------------------------------------------------------

  /** Of the first n keys those mentioned for the first time, unmarked so far, and candidates. */
  function Firsts(keys: seq<Key>, n: nat, marked: set<Key>, candidates: set<Key>): seq<Key>
    requires n <= |keys|
  {
    if n == 0 then []
    else
      var k := keys[n - 1];
      Firsts(keys, n - 1, marked, candidates)
      + if k in candidates && k !in marked && k !in keys[..n - 1] then [k] else []
  }

  lemma {:induction false} FirstsHas(keys: seq<Key>, n: nat, marked: set<Key>, candidates: set<Key>, k: Key)
    requires n <= |keys|
    ensures k in Firsts(keys, n, marked, candidates) <==> k in keys[..n] && k in candidates && k !in marked
  {
    if n > 0 {
      FirstsHas(keys, n - 1, marked, candidates, k);
      assert keys[..n] == keys[..n - 1] + [keys[n - 1]];
    }
  }

  lemma {:induction false} FirstsNoRepeats(keys: seq<Key>, n: nat, marked: set<Key>, candidates: set<Key>)
    requires n <= |keys|
    ensures NoRepeats(Firsts(keys, n, marked, candidates))
  {
    if n > 0 {
      FirstsNoRepeats(keys, n - 1, marked, candidates);
      FirstsHas(keys, n - 1, marked, candidates, keys[n - 1]);
    }
  }

  lemma {:induction false} FirstsPrefix(a: seq<Key>, b: seq<Key>, n: nat, marked: set<Key>, candidates: set<Key>)
    requires n <= |a|
    ensures Firsts(a + b, n, marked, candidates) == Firsts(a, n, marked, candidates)
  {
    if n > 0 {
      FirstsPrefix(a, b, n - 1, marked, candidates);
      assert (a + b)[..n - 1] == a[..n - 1];
    }
  }

  /** The marks left by earlier lists do for later ones what one long list would do. */
  lemma {:induction false} FirstsConcat(a: seq<Key>, b: seq<Key>, n: nat, marked: set<Key>, candidates: set<Key>)
    requires n <= |b|
    ensures Firsts(a + b, |a| + n, marked, candidates)
         == Firsts(a, |a|, marked, candidates) + Firsts(b, n, marked + KeySet(a), candidates)
  {
    if n == 0 {
      FirstsPrefix(a, b, |a|, marked, candidates);
    } else {
      FirstsConcat(a, b, n - 1, marked, candidates);
      var c, m, k := a + b, |a| + n - 1, b[n - 1];
      assert c[m] == k;
      assert c[..m] == a + b[..n - 1];
      Associative(Firsts(a, |a|, marked, candidates), Firsts(b, n - 1, marked + KeySet(a), candidates),
                  if k in candidates && k !in marked + KeySet(a) && k !in b[..n - 1] then [k] else []);
    }
  }

  lemma {:induction false} KeySetConcat(a: seq<Key>, b: seq<Key>)
    ensures KeySet(a + b) == KeySet(a) + KeySet(b)
  {
  }

  /** One unstake instruction against the marks shared by the whole body. */
  method UnstakeOne(asked: seq<Key>, candidates: seq<Key>, marked: set<Key>, kept: seq<Key>)
    returns (keys: seq<Key>, marks: set<Key>)
    ensures keys == kept + Firsts(asked, |asked|, marked, KeySet(candidates))
    ensures marks == marked + KeySet(asked)
  {
    keys, marks := kept, marked;
    for i := 0 to |asked|
      invariant keys == kept + Firsts(asked, i, marked, KeySet(candidates))
      invariant marks == marked + KeySet(asked[..i])
    {
      assert asked[..i + 1] == asked[..i] + [asked[i]];
      if asked[i] !in marks {
        if asked[i] in candidates {
          keys := keys + [asked[i]];
        }
        marks := marks + {asked[i]};
      }
    }
    assert asked[..|asked|] == asked;
  }

  /** processUnstakeInstructionFromShardBlock. */
  method ProcessUnstake(unstakes: seq<seq<Key>>, candidates: seq<Key>, marked: set<Key>)
    returns (kept: seq<seq<Key>>, marks: set<Key>)
    ensures Whole(kept) == Firsts(Whole(unstakes), |Whole(unstakes)|, marked, KeySet(candidates)) && |kept| <= 1
    ensures marks == marked + KeySet(Whole(unstakes))
  {
    var keys := [];
    marks := marked;
    for i := 0 to |unstakes|
      invariant keys == Firsts(Flat(unstakes, i), |Flat(unstakes, i)|, marked, KeySet(candidates))
      invariant marks == marked + KeySet(Flat(unstakes, i))
    {
      FirstsConcat(Flat(unstakes, i), unstakes[i], |unstakes[i]|, marked, KeySet(candidates));
      KeySetConcat(Flat(unstakes, i), unstakes[i]);
      keys, marks := UnstakeOne(unstakes[i], candidates, marks, keys);
    }
    kept := Written(keys);
  }

  // ---------------------------------------------------------------------------------------------
  // Stopping auto-stake: candidates only, repeats allowed
  // ---------------------------------------------------------------------------------------------

  /** Of the first n keys those inside the set, in order. */
  function Within(keys: seq<Key>, n: nat, inside: set<Key>): seq<Key>
    requires n <= |keys|
  {
    if n == 0 then [] else Within(keys, n - 1, inside) + if keys[n - 1] in inside then [keys[n - 1]] else []
  }

  lemma {:induction false} WithinPrefix(a: seq<Key>, b: seq<Key>, n: nat, inside: set<Key>)
    requires n <= |a|
    ensures Within(a + b, n, inside) == Within(a, n, inside)
  {
    if n > 0 { WithinPrefix(a, b, n - 1, inside); }
  }

  lemma {:induction false} WithinConcat(a: seq<Key>, b: seq<Key>, n: nat, inside: set<Key>)
    requires n <= |b|
    ensures Within(a + b, |a| + n, inside) == Within(a, |a|, inside) + Within(b, n, inside)
  {
    if n == 0 {
      WithinPrefix(a, b, |a|, inside);
    } else {
      WithinConcat(a, b, n - 1, inside);
      assert (a + b)[|a| + n - 1] == b[n - 1];
    }
  }

  lemma {:induction false} WithinHas(keys: seq<Key>, n: nat, inside: set<Key>, k: Key)
    requires n <= |keys|
    ensures k in Within(keys, n, inside) <==> k in keys[..n] && k in inside
  {
    if n > 0 {
      WithinHas(keys, n - 1, inside, k);
      assert keys[..n] == keys[..n - 1] + [keys[n - 1]];
    }
  }

  /** processStopAutoStakeInstructionFromShardBlock. */
  method ProcessStopAutoStake(stops: seq<seq<Key>>, candidates: seq<Key>) returns (kept: seq<seq<Key>>)
    ensures Whole(kept) == Within(Whole(stops), |Whole(stops)|, KeySet(candidates)) && |kept| <= 1
  {
    var keys := [];
    for i := 0 to |stops|
      invariant keys == Within(Flat(stops, i), |Flat(stops, i)|, KeySet(candidates))
    {
      var before := keys;
      for j := 0 to |stops[i]|
        invariant keys == before + Within(stops[i], j, KeySet(candidates))
      {
        if stops[i][j] in candidates {
          keys := keys + [stops[i][j]];
        }
      }
      WithinConcat(Flat(stops, i), stops[i], |stops[i]|, KeySet(candidates));
    }
    kept := Written(keys);
  }

  // ---------------------------------------------------------------------------------------------
  // Collecting and composing
  // ---------------------------------------------------------------------------------------------

  lemma {:induction false} WithoutConcat(a: seq<Key>, b: seq<Key>, n: nat, out: set<Key>)
    requires n <= |b|
    ensures Without(a + b, |a| + n, out) == Without(a, |a|, out) + Without(b, n, out)
  {
    if n == 0 {
      WithoutPrefix(a, b, |a|, out);
    } else {
      WithoutConcat(a, b, n - 1, out);
      assert (a + b)[|a| + n - 1] == b[n - 1];
    }
  }

  /** The instructions collected from all shard blocks. */
  class ShardInstruction {
    var stakes: seq<StakeInstruction>
    var unstakes: seq<seq<Key>>
    var stops: seq<seq<Key>>

    constructor ()
      ensures stakes == [] && unstakes == [] && stops == []
    {
      stakes, unstakes, stops := [], [], [];
    }

    method Add(more: Requests)
      modifies this
      ensures stakes == old(stakes) + more.stakes && unstakes == old(unstakes) + more.unstakes
          && stops == old(stops) + more.stops
    {
      stakes := stakes + more.stakes;
      unstakes := unstakes + more.unstakes;
      stops := stops + more.stops;
    }

    method ComposeStakes()
      requires AllAligned(stakes)
      modifies this`stakes
      ensures AllAligned(stakes) && |stakes| <= 1
      ensures AllStakes(stakes, |stakes|) == old(AllStakes(stakes, |stakes|))
    {
      var one := StakeInstruction([], [], [], []);
      for i := 0 to |stakes|
        invariant stakes == old(stakes)
        invariant Aligned(one) && Stakes(one) == AllStakes(stakes, i)
      {
        if stakes[i].publicKeys != [] {
          AppendStakes(one, stakes[i]);
          one := Append(one, stakes[i]);
        }
      }
      stakes := NonEmpty(one);
    }

    method ComposeUnstakes() returns (unstakeKeys: set<Key>)
      modifies this`unstakes
      ensures |unstakes| <= 1 && Whole(unstakes) == old(Whole(unstakes)) && unstakeKeys == KeySet(Whole(unstakes))
    {
      var keys := [];
      unstakeKeys := {};
      for i := 0 to |unstakes|
        invariant unstakes == old(unstakes)
        invariant keys == Flat(unstakes, i) && unstakeKeys == KeySet(keys)
      {
        if unstakes[i] != [] {
          KeySetConcat(keys, unstakes[i]);
          unstakeKeys := unstakeKeys + KeySet(unstakes[i]);
          keys := keys + unstakes[i];
        }
      }
      unstakes := Written(keys);
    }

    method ComposeStops(unstakeKeys: set<Key>)
      modifies this`stops
      ensures |stops| <= 1 && Whole(stops) == old(Without(Whole(stops), |Whole(stops)|, unstakeKeys))
    {
      var keys := [];
      for i := 0 to |stops|
        invariant stops == old(stops)
        invariant keys == Without(Flat(stops, i), |Flat(stops, i)|, unstakeKeys)
      {
        if stops[i] != [] {
          var left := [];
          for j := 0 to |stops[i]|
            invariant stops == old(stops)
            invariant left == Without(stops[i], j, unstakeKeys)
          {
            if stops[i][j] !in unstakeKeys {
              left := left + [stops[i][j]];
            }
          }
          WithoutConcat(Flat(stops, i), stops[i], |stops[i]|, unstakeKeys);
          keys := keys + left;
        } else {
          assert Flat(stops, i + 1) == Flat(stops, i);
        }
      }
      stops := Written(keys);
    }

    /** One instruction of each kind; a stop request gives way to an unstake request for its key. */
    method Compose()
      requires AllAligned(stakes)
      modifies this
      ensures AllAligned(stakes) && |stakes| <= 1 && |unstakes| <= 1 && |stops| <= 1
      ensures AllStakes(stakes, |stakes|) == old(AllStakes(stakes, |stakes|))
      ensures Whole(unstakes) == old(Whole(unstakes))
      ensures Whole(stops) == old(Without(Whole(stops), |Whole(stops)|, KeySet(Whole(unstakes))))
    {
      ComposeStakes();
      var unstakeKeys := ComposeUnstakes();
      ComposeStops(unstakeKeys);
    }
  }

  // ---------------------------------------------------------------------------------------------
  // The whole body
  // ---------------------------------------------------------------------------------------------

  /** Stake instructions of the first n shard blocks. */
  ghost function StakeInsts(blocks: seq<Requests>, n: nat): (insts: seq<StakeInstruction>)
    requires AllBlocksAligned(blocks) && n <= |blocks|
    ensures AllAligned(insts)
  {
    if n == 0 then [] else StakeInsts(blocks, n - 1) + blocks[n - 1].stakes
  }

  /** Keys the first n shard blocks ask to unstake. */
  ghost function UnstakeKeys(blocks: seq<Requests>, n: nat): seq<Key>
    requires n <= |blocks|
  {
    if n == 0 then [] else UnstakeKeys(blocks, n - 1) + Whole(blocks[n - 1].unstakes)
  }

  ghost function StopKeys(blocks: seq<Requests>, n: nat): seq<Key>
    requires n <= |blocks|
  {
    if n == 0 then [] else StopKeys(blocks, n - 1) + Whole(blocks[n - 1].stops)
  }

  ghost function JudgedIn(blocks: seq<Requests>, n: nat, taken: set<Key>, free: bool): seq<Stake>
    requires AllBlocksAligned(blocks) && n <= |blocks|
  {
    var insts := StakeInsts(blocks, n);
    Judged(insts, |insts|, taken, free)
  }

  ghost function SeenIn(blocks: seq<Requests>, n: nat): set<Key>
    requires AllBlocksAligned(blocks) && n <= |blocks|
  {
    var insts := StakeInsts(blocks, n);
    Seen(insts, |insts|)
  }

  ghost function UnstakedIn(blocks: seq<Requests>, n: nat, candidates: set<Key>): seq<Key>
    requires n <= |blocks|
  {
    var keys := UnstakeKeys(blocks, n);
    Firsts(keys, |keys|, {}, candidates)
  }

  ghost function StoppedIn(blocks: seq<Requests>, n: nat, candidates: set<Key>): seq<Key>
    requires n <= |blocks|
  {
    var keys := StopKeys(blocks, n);
    Within(keys, |keys|, candidates)
  }

  lemma {:induction false} NextStakes(blocks: seq<Requests>, n: nat, taken: set<Key>, free: bool)
    requires AllBlocksAligned(blocks) && n < |blocks|
    ensures JudgedIn(blocks, n + 1, taken, free)
         == JudgedIn(blocks, n, taken, free)
            + Judged(blocks[n].stakes, |blocks[n].stakes|, taken + SeenIn(blocks, n), free)
  {
    var a, b := StakeInsts(blocks, n), blocks[n].stakes;
    assert StakeInsts(blocks, n + 1) == a + b;
    JudgedConcat(a, b, |b|, taken, free);
  }

  lemma {:induction false} NextSeen(blocks: seq<Requests>, n: nat)
    requires AllBlocksAligned(blocks) && n < |blocks|
    ensures SeenIn(blocks, n + 1) == SeenIn(blocks, n) + Seen(blocks[n].stakes, |blocks[n].stakes|)
  {
    var a, b := StakeInsts(blocks, n), blocks[n].stakes;
    assert StakeInsts(blocks, n + 1) == a + b;
    SeenConcat(a, b, |b|);
  }

  lemma {:induction false} NextUnstaked(blocks: seq<Requests>, n: nat, candidates: set<Key>)
    requires n < |blocks|
    ensures UnstakedIn(blocks, n + 1, candidates)
         == UnstakedIn(blocks, n, candidates)
            + Firsts(Whole(blocks[n].unstakes), |Whole(blocks[n].unstakes)|, KeySet(UnstakeKeys(blocks, n)), candidates)
  {
    var a, b := UnstakeKeys(blocks, n), Whole(blocks[n].unstakes);
    FirstsConcat(a, b, |b|, {}, candidates);
    assert {} + KeySet(a) == KeySet(a);
  }

  lemma {:induction false} NextMarks(blocks: seq<Requests>, n: nat)
    requires n < |blocks|
    ensures KeySet(UnstakeKeys(blocks, n + 1)) == KeySet(UnstakeKeys(blocks, n)) + KeySet(Whole(blocks[n].unstakes))
  {
    KeySetConcat(UnstakeKeys(blocks, n), Whole(blocks[n].unstakes));
  }

  lemma {:induction false} NextStopped(blocks: seq<Requests>, n: nat, candidates: set<Key>)
    requires n < |blocks|
    ensures StoppedIn(blocks, n + 1, candidates)
         == StoppedIn(blocks, n, candidates) + Within(Whole(blocks[n].stops), |Whole(blocks[n].stops)|, candidates)
  {
    WithinConcat(StopKeys(blocks, n), Whole(blocks[n].stops), |Whole(blocks[n].stops)|, candidates);
  }

  /** The keys of the stake instructions a block contributed join the accepted ones. */
  method KeysOf(stakes: seq<StakeInstruction>, valid: seq<Key>) returns (keys: seq<Key>)
    ensures KeySet(keys) == KeySet(valid) + Seen(stakes, |stakes|)
  {
    keys := valid;
    for i := 0 to |stakes|
      invariant KeySet(keys) == KeySet(valid) + Seen(stakes, i)
    {
      KeySetConcat(keys, stakes[i].publicKeys);
      keys := keys + stakes[i].publicKeys;
    }
  }

  lemma {:induction false} SeenIsHasKey(stakes: seq<StakeInstruction>, n: nat, k: Key)
    requires AllAligned(stakes) && n <= |stakes|
    ensures k in Seen(stakes, n) <==> HasKey(AllStakes(stakes, n), k)
  {
    if n > 0 {
      SeenIsHasKey(stakes, n - 1, k);
      HasKeyConcat(AllStakes(stakes, n - 1), Stakes(stakes[n - 1]), k);
      KeysOfStakes(stakes[n - 1], k);
    }
  }

  /** Accepted keys of earlier blocks block exactly what all their requested keys would block. */
  lemma {:induction false} TakenIsSeen(insts: seq<StakeInstruction>, own: set<Key>, valid: set<Key>, before: set<Key>,
                                       kept: seq<StakeInstruction>)
    requires AllAligned(insts) && AllAligned(kept) && own + valid == own + before
    requires AllStakes(kept, |kept|) == Accepted(insts, own + before)
    ensures own + (valid + Seen(kept, |kept|)) == own + (before + Seen(insts, |insts|))
  {
    forall k
      ensures k in own + (valid + Seen(kept, |kept|)) <==> k in own + (before + Seen(insts, |insts|))
    {
      TakenIsSeenAt(insts, own, before, kept, k);
      assert k in own + valid <==> k in own + before;
    }
  }

  lemma {:induction false} TakenIsSeenAt(insts: seq<StakeInstruction>, own: set<Key>, before: set<Key>,
                                         kept: seq<StakeInstruction>, k: Key)
    requires AllAligned(insts) && AllAligned(kept) && AllStakes(kept, |kept|) == Accepted(insts, own + before)
    ensures k in Seen(kept, |kept|) <==> k in Seen(insts, |insts|) && k !in own + before
  {
    SeenIsHasKey(kept, |kept|, k);
    AcceptedKeys(insts, |insts|, own + before, k);
  }

  /** The stake instructions collected from the first n blocks and the keys accepted in them. */
  ghost predicate StakesCollected(blocks: seq<Requests>, n: nat, own: set<Key>, stakes: seq<StakeInstruction>,
                                  valid: set<Key>)
    requires AllBlocksAligned(blocks) && n <= |blocks|
  {
    && AllAligned(stakes) && AllStakes(stakes, |stakes|) == JudgedIn(blocks, n, own, true)
    && own + valid == own + SeenIn(blocks, n)
  }

  /** The unstake instructions collected from the first n blocks and the marks left by them. */
  ghost predicate UnstakesCollected(blocks: seq<Requests>, n: nat, candidates: set<Key>, unstakes: seq<seq<Key>>,
                                    marks: set<Key>)
    requires n <= |blocks|
  {
    Whole(unstakes) == UnstakedIn(blocks, n, candidates) && marks == KeySet(UnstakeKeys(blocks, n))
  }

  ghost predicate StopsCollected(blocks: seq<Requests>, n: nat, candidates: set<Key>, stops: seq<seq<Key>>)
    requires n <= |blocks|
  {
    Whole(stops) == StoppedIn(blocks, n, candidates)
  }

  ghost predicate ReturnsCollected(blocks: seq<Requests>, n: nat, own: set<Key>, returned: seq<StakeInstruction>)
    requires AllBlocksAligned(blocks) && n <= |blocks|
  {
    AllAligned(returned) && AllStakes(returned, |returned|) == JudgedIn(blocks, n, own, false)
  }

  lemma {:induction false} CollectStakes(blocks: seq<Requests>, n: nat, own: set<Key>, stakes: seq<StakeInstruction>,
                                         valid: set<Key>, more: seq<StakeInstruction>)
    requires AllBlocksAligned(blocks) && n < |blocks| && StakesCollected(blocks, n, own, stakes, valid)
    requires AllAligned(more) && AllStakes(more, |more|) == Accepted(blocks[n].stakes, own + valid)
    ensures StakesCollected(blocks, n + 1, own, stakes + more, valid + Seen(more, |more|))
  {
    CollectJudged(blocks, n, own, true, stakes, more);
    TakenIsSeen(blocks[n].stakes, own, valid, SeenIn(blocks, n), more);
    NextSeen(blocks, n);
  }

  lemma {:induction false} StakesConcat(a: seq<StakeInstruction>, b: seq<StakeInstruction>)
    requires AllAligned(a) && AllAligned(b)
    ensures AllAligned(a + b) && AllStakes(a + b, |a + b|) == AllStakes(a, |a|) + AllStakes(b, |b|)
  {
    AllStakesConcat(a, b, |b|);
  }

  /** Either verdict: what one more block contributes comes after what was collected. */
  lemma {:induction false} CollectJudged(blocks: seq<Requests>, n: nat, own: set<Key>, free: bool,
                                         stakes: seq<StakeInstruction>, more: seq<StakeInstruction>)
    requires AllBlocksAligned(blocks) && n < |blocks| && AllAligned(stakes) && AllAligned(more)
    requires AllStakes(stakes, |stakes|) == JudgedIn(blocks, n, own, free)
    requires AllStakes(more, |more|) == Judged(blocks[n].stakes, |blocks[n].stakes|, own + SeenIn(blocks, n), free)
    ensures AllAligned(stakes + more)
    ensures AllStakes(stakes + more, |stakes + more|) == JudgedIn(blocks, n + 1, own, free)
  {
    NextStakes(blocks, n, own, free);
    StakesConcat(stakes, more);
  }

  lemma {:induction false} CollectReturns(blocks: seq<Requests>, n: nat, own: set<Key>, returned: seq<StakeInstruction>,
                                          valid: set<Key>, more: seq<StakeInstruction>)
    requires AllBlocksAligned(blocks) && n < |blocks| && ReturnsCollected(blocks, n, own, returned)
    requires own + valid == own + SeenIn(blocks, n)
    requires AllAligned(more) && AllStakes(more, |more|) == Rejected(blocks[n].stakes, own + valid)
    ensures ReturnsCollected(blocks, n + 1, own, returned + more)
  {
    CollectJudged(blocks, n, own, false, returned, more);
  }

  lemma {:induction false} CollectUnstakes(blocks: seq<Requests>, n: nat, candidates: set<Key>, unstakes: seq<seq<Key>>,
                                           marks: set<Key>, more: seq<seq<Key>>)
    requires n < |blocks| && UnstakesCollected(blocks, n, candidates, unstakes, marks)
    requires Whole(more) == Firsts(Whole(blocks[n].unstakes), |Whole(blocks[n].unstakes)|, marks, candidates)
    ensures UnstakesCollected(blocks, n + 1, candidates, unstakes + more, marks + KeySet(Whole(blocks[n].unstakes)))
  {
    WholeConcat(unstakes, more);
    NextUnstaked(blocks, n, candidates);
    NextMarks(blocks, n);
  }

  lemma {:induction false} CollectStops(blocks: seq<Requests>, n: nat, candidates: set<Key>, stops: seq<seq<Key>>,
                                        more: seq<seq<Key>>)
    requires n < |blocks| && StopsCollected(blocks, n, candidates, stops)
    requires Whole(more) == Within(Whole(blocks[n].stops), |Whole(blocks[n].stops)|, candidates)
    ensures StopsCollected(blocks, n + 1, candidates, stops + more)
  {
    WholeConcat(stops, more);
    NextStopped(blocks, n, candidates);
  }

  /** The three filters on one shard block. */
  method ProcessBlock(block: Requests, stakers: seq<Key>, candidates: seq<Key>, valid: seq<Key>, marks: set<Key>,
                      returnsRejected: bool)
    returns (more: Requests, duplicates: seq<StakeInstruction>, newMarks: set<Key>)
    requires AllAligned(block.stakes)
    ensures AllAligned(more.stakes)
    ensures AllStakes(more.stakes, |more.stakes|)
         == Accepted(block.stakes, KeySet(stakers) + KeySet(candidates) + KeySet(valid))
    ensures Whole(more.unstakes) == Firsts(Whole(block.unstakes), |Whole(block.unstakes)|, marks, KeySet(candidates))
    ensures Whole(more.stops) == Within(Whole(block.stops), |Whole(block.stops)|, KeySet(candidates))
    ensures AllAligned(duplicates)
    ensures returnsRejected ==>
              AllStakes(duplicates, |duplicates|)
              == Rejected(block.stakes, KeySet(stakers) + KeySet(candidates) + KeySet(valid))
    ensures !returnsRejected ==> duplicates == []
    ensures newMarks == marks + KeySet(Whole(block.unstakes))
  {
    assert Taken(stakers, valid, candidates) == KeySet(stakers) + KeySet(candidates) + KeySet(valid);
    var stakes, stops, unstakes;
    stakes, duplicates := ProcessShardStake(block.stakes, stakers, candidates, valid, returnsRejected);
    stops := ProcessStopAutoStake(block.stops, candidates);
    unstakes, newMarks := ProcessUnstake(block.unstakes, candidates, marks);
    more := Requests(stakes, unstakes, stops);
  }

  /** The staking part of GenerateBeaconBlockBody: all shard blocks in order, then compose. */
  method GenerateBody(blocks: seq<Requests>, stakers: seq<Key>, candidates: seq<Key>, returnsRejected: bool)
    returns (body: Requests, returned: seq<StakeInstruction>)
    requires AllBlocksAligned(blocks)
    ensures AllAligned(body.stakes) && |body.stakes| <= 1 && |body.unstakes| <= 1 && |body.stops| <= 1
    ensures AllStakes(body.stakes, |body.stakes|)
         == JudgedIn(blocks, |blocks|, KeySet(stakers) + KeySet(candidates), true)
    ensures Whole(body.unstakes) == UnstakedIn(blocks, |blocks|, KeySet(candidates))
    ensures var stopped := StoppedIn(blocks, |blocks|, KeySet(candidates));
            Whole(body.stops) == Without(stopped, |stopped|, KeySet(Whole(body.unstakes)))
    ensures AllAligned(returned)
    ensures returnsRejected ==>
              AllStakes(returned, |returned|) == JudgedIn(blocks, |blocks|, KeySet(stakers) + KeySet(candidates), false)
    ensures !returnsRejected ==> returned == []
  {
    var all := new ShardInstruction();
    var valid, marks := [], {};
    returned := [];
    ghost var own := KeySet(stakers) + KeySet(candidates);
    for n := 0 to |blocks|
      invariant StakesCollected(blocks, n, own, all.stakes, KeySet(valid))
      invariant UnstakesCollected(blocks, n, KeySet(candidates), all.unstakes, marks)
      invariant StopsCollected(blocks, n, KeySet(candidates), all.stops)
      invariant AllAligned(returned) && (!returnsRejected ==> returned == [])
      invariant returnsRejected ==> ReturnsCollected(blocks, n, own, returned)
    {
      var more, duplicates, newMarks := ProcessBlock(blocks[n], stakers, candidates, valid, marks, returnsRejected);
      CollectStakes(blocks, n, own, all.stakes, KeySet(valid), more.stakes);
      CollectUnstakes(blocks, n, KeySet(candidates), all.unstakes, marks, more.unstakes);
      CollectStops(blocks, n, KeySet(candidates), all.stops, more.stops);
      if returnsRejected { CollectReturns(blocks, n, own, returned, KeySet(valid), duplicates); }
      returned := returned + duplicates;
      all.Add(more);
      valid := KeysOf(more.stakes, valid);
      marks := newMarks;
    }
    all.Compose();
    body := Requests(all.stakes, all.unstakes, all.stops);
  }

  /** No staking request is lost or doubled, and none changes a field: the accepted ones and the
      returned ones make up what came in. Accepted keys are new; with distinct keys inside each
      instruction they are distinct over all shards. */
  lemma {:induction false} StakesAreSettled(blocks: seq<Requests>, own: set<Key>)
    requires AllBlocksAligned(blocks)
    ensures var insts := StakeInsts(blocks, |blocks|);
            Splits(JudgedIn(blocks, |blocks|, own, true), JudgedIn(blocks, |blocks|, own, false),
                   AllStakes(insts, |insts|))
    ensures forall k :: HasKey(JudgedIn(blocks, |blocks|, own, true), k) <==> k in SeenIn(blocks, |blocks|) && k !in own
    ensures (forall b :: 0 <= b < |blocks| ==> EachWithoutRepeats(blocks[b].stakes))
            ==> DistinctKeys(JudgedIn(blocks, |blocks|, own, true))
  {
    var insts := StakeInsts(blocks, |blocks|);
    AcceptedOrRejected(insts, |insts|, own);
    forall k
      ensures HasKey(JudgedIn(blocks, |blocks|, own, true), k) <==> k in SeenIn(blocks, |blocks|) && k !in own
    {
      AcceptedKeys(insts, |insts|, own, k);
    }
    if forall b :: 0 <= b < |blocks| ==> EachWithoutRepeats(blocks[b].stakes) {
      AllWithoutRepeats(blocks, |blocks|);
      AcceptedAreDistinct(insts, |insts|, own);
    }
  }

  lemma {:induction false} AllWithoutRepeats(blocks: seq<Requests>, n: nat)
    requires AllBlocksAligned(blocks) && n <= |blocks|
    requires forall b :: 0 <= b < |blocks| ==> EachWithoutRepeats(blocks[b].stakes)
    ensures EachWithoutRepeats(StakeInsts(blocks, n))
  {
    if n > 0 {
      AllWithoutRepeats(blocks, n - 1);
      assert EachWithoutRepeats(blocks[n - 1].stakes);
    }
  }

  /** Every candidate somebody asks to unstake is unstaked once; a key is stopped exactly when it is
      a candidate, somebody asks for it, and nobody asks to unstake it. */
  lemma {:induction false} UnstakesAreSettled(blocks: seq<Requests>, candidates: set<Key>)
    ensures var unstaked, asked := UnstakedIn(blocks, |blocks|, candidates), UnstakeKeys(blocks, |blocks|);
            && NoRepeats(unstaked)
            && forall k :: k in unstaked <==> k in asked && k in candidates
    ensures var unstaked, stopped := UnstakedIn(blocks, |blocks|, candidates), StoppedIn(blocks, |blocks|, candidates);
            forall k :: k in Without(stopped, |stopped|, KeySet(unstaked)) <==>
              k in StopKeys(blocks, |blocks|) && k in candidates && k !in UnstakeKeys(blocks, |blocks|)
  {
    var asked, stops := UnstakeKeys(blocks, |blocks|), StopKeys(blocks, |blocks|);
    var unstaked, stopped := UnstakedIn(blocks, |blocks|, candidates), StoppedIn(blocks, |blocks|, candidates);
    FirstsNoRepeats(asked, |asked|, {}, candidates);
    forall k
      ensures k in unstaked <==> k in asked && k in candidates
      ensures k in Without(stopped, |stopped|, KeySet(unstaked)) <==> k in stops && k in candidates && k !in asked
    {
      FirstsHas(asked, |asked|, {}, candidates, k);
      assert asked[..|asked|] == asked;
      WithinHas(stops, |stops|, candidates, k);
      assert stops[..|stops|] == stops;
      WithoutHas(stopped, |stopped|, KeySet(unstaked), k);
      assert stopped[..|stopped|] == stopped;
    }
  }

  // ---------------------------------------------------------------------------------------------
  // Giving back rejected stakes
  // ---------------------------------------------------------------------------------------------

  datatype ReturnStake = ReturnStake(publicKeys: seq<Key>, txStakes: seq<Text>, percentReturns: seq<nat>)

  datatype Refund = Refund(key: Key, tx: Text, percent: nat)

  /** A full refund for each of the first n rejected stakes. */
  function Refunds(stakes: seq<Stake>, n: nat): (r: seq<Refund>)
    requires n <= |stakes|
    ensures |r| == n && forall i :: 0 <= i < n ==> r[i] == Refund(stakes[i].key, stakes[i].tx, 100)
  {
    if n == 0 then [] else Refunds(stakes, n - 1) + [Refund(stakes[n - 1].key, stakes[n - 1].tx, 100)]
  }

  function AllRefunds(stakes: seq<Stake>): seq<Refund>
  {
    Refunds(stakes, |stakes|)
  }

  lemma {:induction false} RefundsConcat(a: seq<Stake>, b: seq<Stake>)
    ensures AllRefunds(a + b) == AllRefunds(a) + AllRefunds(b)
  {
  }

  predicate ReturnAligned(inst: ReturnStake)
  {
    |inst.publicKeys| == |inst.txStakes| == |inst.percentReturns|
  }

  predicate AllReturnsAligned(insts: seq<ReturnStake>)
  {
    forall i :: 0 <= i < |insts| ==> ReturnAligned(insts[i])
  }

  /** The refunds a return instruction spells out in its parallel lists. */
  function RefundsBy(inst: ReturnStake): (r: seq<Refund>)
    requires ReturnAligned(inst)
    ensures |r| == |inst.publicKeys|
    ensures forall i :: 0 <= i < |r| ==> r[i] == Refund(inst.publicKeys[i], inst.txStakes[i], inst.percentReturns[i])
  {
    seq(|inst.publicKeys|, i requires 0 <= i < |inst.publicKeys| =>
      Refund(inst.publicKeys[i], inst.txStakes[i], inst.percentReturns[i]))
  }

  /** The refunds of the first n return instructions. */
  function RefundsTo(insts: seq<ReturnStake>, n: nat): seq<Refund>
    requires AllReturnsAligned(insts) && n <= |insts|
  {
    if n == 0 then [] else RefundsTo(insts, n - 1) + RefundsBy(insts[n - 1])
  }

  lemma {:induction false} RefundsToPrefix(insts: seq<ReturnStake>, more: ReturnStake, n: nat)
    requires AllReturnsAligned(insts) && AllReturnsAligned(insts + [more]) && n <= |insts|
    ensures RefundsTo(insts + [more], n) == RefundsTo(insts, n)
  {
    if n > 0 { RefundsToPrefix(insts, more, n - 1); }
  }

  /** One return instruction per rejected list that has entries; together they refund exactly the
      rejected stakes, in full and in order. */
  method ReturnStakes(duplicates: seq<StakeInstruction>) returns (insts: seq<ReturnStake>)
    requires AllAligned(duplicates)
    ensures AllReturnsAligned(insts) && forall i :: 0 <= i < |insts| ==> insts[i].publicKeys != []
    ensures RefundsTo(insts, |insts|) == AllRefunds(AllStakes(duplicates, |duplicates|))
  {
    insts := [];
    for i := 0 to |duplicates|
      invariant AllReturnsAligned(insts) && forall j :: 0 <= j < |insts| ==> insts[j].publicKeys != []
      invariant RefundsTo(insts, |insts|) == AllRefunds(AllStakes(duplicates, i))
    {
      if |duplicates[i].txStakes| > 0 {
        var inst := FullReturn(duplicates[i]);
        RefundsToPrefix(insts, inst, |insts|);
        RefundsConcat(AllStakes(duplicates, i), Stakes(duplicates[i]));
        insts := insts + [inst];
      } else {
        assert AllStakes(duplicates, i + 1) == AllStakes(duplicates, i);
      }
    }
  }

  method FullReturn(inst: StakeInstruction) returns (r: ReturnStake)
    requires Aligned(inst)
    ensures ReturnAligned(r) && r.publicKeys == inst.publicKeys && RefundsBy(r) == AllRefunds(Stakes(inst))
  {
    var percents: seq<nat> := [];
    for i := 0 to |inst.publicKeys|
      invariant |percents| == i && forall j :: 0 <= j < i ==> percents[j] == 100
    {
      percents := percents + [100];
    }
    r := ReturnStake(inst.publicKeys, inst.txStakes, percents);
    ghost var stakes := Stakes(inst);
    forall i | 0 <= i < |stakes|
      ensures stakes[i] == StakeAt(inst, i)
    {
      StakesAt(inst, |inst.publicKeys|, i);
    }
  }
}
