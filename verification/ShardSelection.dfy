/**
 Which finalized shard blocks go into a beacon block: the producer's loop and the validator's loop
 (blockchain/accessor_blockchain.go) and the action limit both use (blockchain/blockservice.go).
 */
module ShardSelection {
  import opened Options

  /** The metadata action of a transaction. */
  datatype Action = NoAction | RequestBeaconMint | RequestShardMint

  /** A shard block: the actions of its transactions, the first words of its instructions. */
  datatype ShardBlock = ShardBlock(height: nat, epoch: nat, acts: seq<Action>, instructions: seq<string>)

  type Chain = map<nat, ShardBlock>
  type Remaining = map<Action, int>

  const MAX_S2B_BLOCK: nat := 30
  const SWAP_ACTION := "swap"

  function LimitOf(a: Action): int
  {
    match a
    case NoAction => -1
    case RequestBeaconMint => 400
    case RequestShardMint => 300
  }

  function Count(acts: seq<Action>, a: Action): nat
  {
    if acts == [] then 0 else Count(acts[..|acts| - 1], a) + if acts[|acts| - 1] == a then 1 else 0
  }

  /** What is left for an action: its full limit when it has not been met yet. */
  function LeftFor(remaining: Remaining, a: Action): int
  {
    if a in remaining then remaining[a] else LimitOf(a)
  }

  /** Actions that are limited: for the beacon only beacon-mint requests are. */
  predicate Limited(forBeacon: bool, a: Action)
  {
    a == RequestBeaconMint || (!forBeacon && a == RequestShardMint)
  }

  /** The count of a limited action fits; an action that does not occur always does. */
  predicate Fits(forBeacon: bool, remaining: Remaining, acts: seq<Action>, a: Action)
  {
    Limited(forBeacon, a) ==> Count(acts, a) == 0 || Count(acts, a) <= LeftFor(remaining, a)
  }

  lemma {:induction false} CountNext(acts: seq<Action>, i: nat)
    requires i < |acts|
    ensures forall a :: Count(acts[..i + 1], a) == Count(acts[..i], a) + if acts[i] == a then 1 else 0
  {
    assert acts[..i + 1][..i] == acts[..i];
  }

  lemma {:induction false} CountPrefix(acts: seq<Action>, i: nat, a: Action)
    requires i <= |acts|
    ensures Count(acts[..i], a) <= Count(acts, a)
    decreases |acts|
  {
    if i < |acts| {
      assert acts[..|acts| - 1][..i] == acts[..i];
      CountPrefix(acts[..|acts| - 1], i, a);
    } else {
      assert acts[..i] == acts;
    }
  }

  /** A block is refused exactly when a limited action exceeds what is left; otherwise what is left
      shrinks by what the block uses. */
  method CheckLimitTxAction(forBeacon: bool, remaining: Remaining, acts: seq<Action>)
    returns (ok: bool, left: Remaining)
    ensures ok <==> forall a :: Fits(forBeacon, remaining, acts, a)
    ensures ok ==> forall a :: a != NoAction ==> LeftFor(left, a) == LeftFor(remaining, a) - Count(acts, a)
  {
    left := remaining;
    var count: map<Action, nat> := map[];
    for i := 0 to |acts|
      invariant forall a :: a in count ==> a != NoAction && a in left && count[a] == Count(acts[..i], a)
      invariant forall a :: a !in count && a != NoAction ==> Count(acts[..i], a) == 0
      invariant forall a :: LeftFor(left, a) == LeftFor(remaining, a)
      invariant forall a :: a in count && Limited(forBeacon, a) ==> count[a] <= left[a]
    {
      var act := acts[i];
      CountNext(acts, i);
      if act == NoAction {
        continue;
      }
      count := count[act := if act in count then count[act] + 1 else 1];
      if act !in left {
        left := left[act := LimitOf(act)];
      }
      if left[act] - count[act] < 0 && (!forBeacon || act == RequestBeaconMint) {
        CountPrefix(acts, i + 1, act);
        assert !Fits(forBeacon, remaining, acts, act);
        return false, left;
      }
    }
    assert acts[..|acts|] == acts;
    left := map a | a in left :: if a in count then left[a] - count[a] else left[a];
    ok := true;
  }

  /** The limits of a single block: 400 beacon-mint requests everywhere, 300 shard-mint requests within a
      shard. */
  lemma {:induction false} FreshLimits(forBeacon: bool, acts: seq<Action>)
    ensures (forall a :: Fits(forBeacon, map[], acts, a)) <==>
            Count(acts, RequestBeaconMint) <= 400 && (!forBeacon ==> Count(acts, RequestShardMint) <= 300)
  {
    assert Fits(forBeacon, map[], acts, RequestBeaconMint) <==> Count(acts, RequestBeaconMint) <= 400;
    assert Fits(forBeacon, map[], acts, RequestShardMint) <==> forBeacon || Count(acts, RequestShardMint) <= 300;
  }

  predicate ContainsSwap(b: ShardBlock)
  {
    SWAP_ACTION in b.instructions
  }

  /** The epoch after a block: the sentinel 0 takes the block's epoch. */
  predicate SameEpoch(lastEpoch: nat, b: ShardBlock)
  {
    lastEpoch == 0 || lastEpoch == b.epoch
  }

  function MintsOf(b: ShardBlock): nat
  {
    Count(b.acts, RequestBeaconMint)
  }

  /** The block's beacon-mint requests fit on top of those taken already. */
  predicate WithinLimit(minted: nat, b: ShardBlock)
  {
    minted + MintsOf(b) <= LimitOf(RequestBeaconMint)
  }

  function EpochAfter(lastEpoch: nat, b: ShardBlock): nat
  {
    if lastEpoch == 0 then b.epoch else lastEpoch
  }

  // ---------------------------------------------------------------------------------------------
  // The producer
  // ---------------------------------------------------------------------------------------------

  predicate Takes(chain: Chain, height: nat, lastEpoch: nat, minted: nat)
  {
    height in chain && SameEpoch(lastEpoch, chain[height]) && WithinLimit(minted, chain[height])
  }

  /** The blocks taken from the given height up to `high`. */
  function Taken(chain: Chain, height: nat, high: nat, lastEpoch: nat, minted: nat): seq<ShardBlock>
    decreases if height <= high then high - height + 1 else 0
  {
    if height > high || !Takes(chain, height, lastEpoch, minted) then []
    else if ContainsSwap(chain[height]) then [chain[height]]
    else [chain[height]] + Taken(chain, height + 1, high, EpochAfter(lastEpoch, chain[height]),
                                 minted + MintsOf(chain[height]))
  }

  function HighestFor(bestHeight: nat, finalizedHeight: nat): nat
  {
    if finalizedHeight > bestHeight && finalizedHeight - bestHeight > MAX_S2B_BLOCK
    then bestHeight + MAX_S2B_BLOCK else finalizedHeight
  }

  /** What the producer picks for one shard. */
  function ForProducer(chain: Chain, bestHeight: nat, finalizedHeight: nat): seq<ShardBlock>
  {
    Taken(chain, bestHeight + 1, HighestFor(bestHeight, finalizedHeight), 0, 0)
  }

  method GetShardBlockForBeaconProducer(chain: Chain, bestHeight: nat, finalized: nat)
    returns (shardBlocks: seq<ShardBlock>)
    ensures shardBlocks == ForProducer(chain, bestHeight, finalized)
  {
    var finalizedHeight := finalized;
    if finalizedHeight > bestHeight && finalizedHeight - bestHeight > MAX_S2B_BLOCK {
      finalizedHeight := bestHeight + MAX_S2B_BLOCK;
    }
    shardBlocks := [];
    var lastEpoch: nat := 0;
    var limitTxs: Remaining := map[];
    var height := bestHeight + 1;
    ghost var minted: nat := 0;
    ghost var picked := ForProducer(chain, bestHeight, finalized);
    assert [] + picked == picked;
    while height <= finalizedHeight
      invariant shardBlocks + Taken(chain, height, finalizedHeight, lastEpoch, minted) == picked
      invariant LeftFor(limitTxs, RequestBeaconMint) == LimitOf(RequestBeaconMint) - minted >= 0
      decreases if height <= finalizedHeight then finalizedHeight - height + 1 else 0
    {
      if height !in chain {
        return;
      }
      var block := chain[height];
      if lastEpoch != 0 && lastEpoch != block.epoch {
        return;
      }
      var ok, left := CheckLimitTxAction(true, limitTxs, block.acts);
      LimitIsMintLimit(limitTxs, minted, block);
      if !ok {
        return;
      }
      ghost var rest := Taken(chain, height + 1, finalizedHeight, EpochAfter(lastEpoch, block),
                              minted + MintsOf(block));
      assert shardBlocks + ([block] + rest) == shardBlocks + [block] + rest;
      if lastEpoch == 0 {
        lastEpoch := block.epoch;
      }
      limitTxs := left;
      shardBlocks := shardBlocks + [block];
      if ContainsSwap(block) {
        return;
      }
      minted := minted + MintsOf(block);
      height := height + 1;
    }
  }

  /** For the beacon the limit check is the beacon-mint limit and nothing else. */
  lemma {:induction false} LimitIsMintLimit(remaining: Remaining, minted: nat, b: ShardBlock)
    requires LeftFor(remaining, RequestBeaconMint) == LimitOf(RequestBeaconMint) - minted >= 0
    ensures (forall a :: Fits(true, remaining, b.acts, a)) <==> WithinLimit(minted, b)
  {
    assert Fits(true, remaining, b.acts, RequestBeaconMint) <==> WithinLimit(minted, b);
  }

  // ---------------------------------------------------------------------------------------------
  // The validator
  // ---------------------------------------------------------------------------------------------

  /** What the validator makes of the required heights: the blocks, or None where it reports an error. */
  function Checked(chain: Chain, heights: seq<nat>, lastEpoch: nat, minted: nat): Option<seq<ShardBlock>>
  {
    if heights == [] then Some([])
    else if heights[0] !in chain then None
    else
      var b := chain[heights[0]];
      if !WithinLimit(minted, b) || !SameEpoch(lastEpoch, b) then None
      else if ContainsSwap(b) then Some([b])
      else Prepend([b], Checked(chain, heights[1..], EpochAfter(lastEpoch, b), minted + MintsOf(b)))
  }

  /** Blocks already checked, put before what is still to come. */
  function Prepend(bs: seq<ShardBlock>, r: Option<seq<ShardBlock>>): Option<seq<ShardBlock>>
  {
    if r.None? then None else Some(bs + r.value)
  }

  method GetShardBlocksForBeaconValidator(chain: Chain, heights: seq<nat>) returns (r: Option<seq<ShardBlock>>)
    ensures r == Checked(chain, heights, 0, 0)
  {
    var shardBlocks: seq<ShardBlock> := [];
    var lastEpoch: nat := 0;
    var limitTxs: Remaining := map[];
    ghost var minted: nat, whole := 0, Checked(chain, heights, 0, 0);
    assert heights[0..] == heights;
    assert whole.Some? ==> [] + whole.value == whole.value;
    for i := 0 to |heights|
      invariant Prepend(shardBlocks, Checked(chain, heights[i..], lastEpoch, minted)) == whole
      invariant LeftFor(limitTxs, RequestBeaconMint) == LimitOf(RequestBeaconMint) - minted >= 0
    {
      assert heights[i..][0] == heights[i] && heights[i..][1..] == heights[i + 1..];
      if heights[i] !in chain {
        return None;
      }
      var block := chain[heights[i]];
      var ok, left := CheckLimitTxAction(true, limitTxs, block.acts);
      LimitIsMintLimit(limitTxs, minted, block);
      if !ok {
        return None;
      }
      limitTxs := left;
      ghost var more := Checked(chain, heights[i + 1..], EpochAfter(lastEpoch, block), minted + MintsOf(block));
      assert more.Some? ==> shardBlocks + ([block] + more.value) == shardBlocks + [block] + more.value;
      if lastEpoch == 0 {
        lastEpoch := block.epoch;
      } else if lastEpoch != block.epoch {
        return None;
      }
      shardBlocks := shardBlocks + [block];
      if ContainsSwap(block) {
        return Some(shardBlocks);
      }
      minted := minted + MintsOf(block);
    }
    assert heights[|heights|..] == [] && shardBlocks + [] == shardBlocks;
    r := Some(shardBlocks);
  }

  // ---------------------------------------------------------------------------------------------
  // Agreement
  // ---------------------------------------------------------------------------------------------

  function Heights(bs: seq<ShardBlock>): (hs: seq<nat>)
    ensures |hs| == |bs|
  {
    seq(|bs|, i requires 0 <= i < |bs| => bs[i].height)
  }

  /** Every block is filed under its own height. */
  ghost predicate WellFiled(chain: Chain)
  {
    forall h :: h in chain ==> chain[h].height == h
  }

  lemma {:induction false} TakenIsChecked(chain: Chain, height: nat, high: nat, lastEpoch: nat, minted: nat)
    requires WellFiled(chain)
    ensures Checked(chain, Heights(Taken(chain, height, high, lastEpoch, minted)), lastEpoch, minted)
         == Some(Taken(chain, height, high, lastEpoch, minted))
    decreases if height <= high then high - height + 1 else 0
  {
    var bs := Taken(chain, height, high, lastEpoch, minted);
    if bs != [] {
      var b := chain[height];
      assert Heights(bs)[0] == height;
      if !ContainsSwap(b) {
        var next, after := EpochAfter(lastEpoch, b), minted + MintsOf(b);
        TakenIsChecked(chain, height + 1, high, next, after);
        assert Heights(bs)[1..] == Heights(Taken(chain, height + 1, high, next, after));
      }
    }
  }

  /** The validator, given the producer's heights, returns the producer's list without error. */
  lemma {:induction false} ProducerAndValidatorAgree(chain: Chain, bestHeight: nat, finalizedHeight: nat)
    requires WellFiled(chain)
    ensures Checked(chain, Heights(ForProducer(chain, bestHeight, finalizedHeight)), 0, 0)
         == Some(ForProducer(chain, bestHeight, finalizedHeight))
  {
    TakenIsChecked(chain, bestHeight + 1, HighestFor(bestHeight, finalizedHeight), 0, 0);
  }

  function MintRequests(bs: seq<ShardBlock>): nat
  {
    if bs == [] then 0 else MintsOf(bs[0]) + MintRequests(bs[1..])
  }

  /** The zero epoch acts as "not set yet": after the first non-zero epoch all are equal to it. */
  ghost predicate OneEpoch(lastEpoch: nat, bs: seq<ShardBlock>)
  {
    && (lastEpoch != 0 ==> forall i :: 0 <= i < |bs| ==> bs[i].epoch == lastEpoch)
    && forall i, j :: 0 <= i < j < |bs| && bs[i].epoch != 0 ==> bs[j].epoch == bs[i].epoch
  }

  ghost predicate SwapOnlyLast(bs: seq<ShardBlock>)
  {
    forall i :: 0 <= i < |bs| - 1 ==> "swap" !in bs[i].instructions
  }

  lemma {:induction false} OneEpochCons(lastEpoch: nat, b: ShardBlock, rest: seq<ShardBlock>)
    requires SameEpoch(lastEpoch, b) && OneEpoch(EpochAfter(lastEpoch, b), rest)
    ensures OneEpoch(lastEpoch, [b] + rest)
  {
    var bs := [b] + rest;
    assert forall i :: 0 < i < |bs| ==> bs[i] == rest[i - 1];
  }

  lemma {:induction false} SwapOnlyLastCons(b: ShardBlock, rest: seq<ShardBlock>)
    requires rest == [] || !ContainsSwap(b)
    requires SwapOnlyLast(rest)
    ensures SwapOnlyLast([b] + rest)
  {
    var bs := [b] + rest;
    assert forall i :: 0 < i < |bs| ==> bs[i] == rest[i - 1];
  }

  /** What every validated list satisfies: the chain's blocks at the required heights up to a first
      swap, one epoch, beacon-mint requests within the limit. */
  lemma {:induction false} CheckedProperties(chain: Chain, heights: seq<nat>, lastEpoch: nat, minted: nat)
    requires minted <= LimitOf(RequestBeaconMint)
    requires Checked(chain, heights, lastEpoch, minted).Some?
    ensures var bs := Checked(chain, heights, lastEpoch, minted).value;
            && |bs| <= |heights|
            && (forall i :: 0 <= i < |bs| ==> heights[i] in chain && bs[i] == chain[heights[i]])
            && OneEpoch(lastEpoch, bs) && SwapOnlyLast(bs)
            && (|bs| < |heights| ==> bs != [] && ContainsSwap(bs[|bs| - 1]))
            && minted + MintRequests(bs) <= LimitOf(RequestBeaconMint)
    decreases |heights|
  {
    if heights != [] {
      var b := chain[heights[0]];
      if ContainsSwap(b) {
        OneEpochCons(lastEpoch, b, []);
        assert [b] + [] == [b] && [b][1..] == [];
      } else {
        var next, after := EpochAfter(lastEpoch, b), minted + MintsOf(b);
        CheckedProperties(chain, heights[1..], next, after);
        var rest := Checked(chain, heights[1..], next, after).value;
        OneEpochCons(lastEpoch, b, rest);
        SwapOnlyLastCons(b, rest);
        assert ([b] + rest)[1..] == rest;
        assert forall i :: 0 < i < |heights| ==> heights[i] == heights[1..][i - 1];
      }
    }
  }

  /** The blocks are the chain's, at consecutive heights from the given one. */
  ghost predicate Contiguous(chain: Chain, height: nat, bs: seq<ShardBlock>)
  {
    forall i: nat :: i < |bs| ==> InChain(chain, height + i, bs[i])
  }

  ghost predicate InChain(chain: Chain, height: nat, b: ShardBlock)
  {
    height in chain && chain[height] == b
  }

  lemma {:induction false} TakenIsContiguous(chain: Chain, height: nat, high: nat, lastEpoch: nat, minted: nat)
    ensures |Taken(chain, height, high, lastEpoch, minted)| <= if height <= high then high - height + 1 else 0
    ensures Contiguous(chain, height, Taken(chain, height, high, lastEpoch, minted))
    decreases if height <= high then high - height + 1 else 0
  {
    var bs := Taken(chain, height, high, lastEpoch, minted);
    if bs != [] && !ContainsSwap(chain[height]) {
      var b := chain[height];
      var rest := Taken(chain, height + 1, high, EpochAfter(lastEpoch, b), minted + MintsOf(b));
      TakenIsContiguous(chain, height + 1, high, EpochAfter(lastEpoch, b), minted + MintsOf(b));
      forall i: nat | i < |bs|
        ensures InChain(chain, height + i, bs[i])
      {
        if i > 0 { assert InChain(chain, height + 1 + (i - 1), rest[i - 1]); }
      }
    }
  }

  /** The producer's list: contiguous from best + 1, at most 30, in one epoch, a swap only in its last
      block, beacon-mint requests within the total limit. */
  lemma {:induction false} ProducerProperties(chain: Chain, bestHeight: nat, finalizedHeight: nat)
    requires WellFiled(chain)
    ensures var bs := ForProducer(chain, bestHeight, finalizedHeight);
            && |bs| <= 30
            && (bs != [] ==> bestHeight + |bs| <= finalizedHeight)
            && Contiguous(chain, bestHeight + 1, bs)
            && (forall i: nat :: i < |bs| ==> bs[i].height == bestHeight + 1 + i)
            && OneEpoch(0, bs) && SwapOnlyLast(bs)
            && MintRequests(bs) <= 400
  {
    var bs := ForProducer(chain, bestHeight, finalizedHeight);
    TakenIsContiguous(chain, bestHeight + 1, HighestFor(bestHeight, finalizedHeight), 0, 0);
    ProducerAndValidatorAgree(chain, bestHeight, finalizedHeight);
    CheckedProperties(chain, Heights(bs), 0, 0);
    forall i: nat | i < |bs|
      ensures bs[i].height == bestHeight + 1 + i
    {
      assert InChain(chain, bestHeight + 1 + i, bs[i]);
    }
  }

  /** Where epochs are numbered from 1, the list really lies in one epoch. */
  lemma {:induction false} ProducerStaysInEpoch(chain: Chain, bestHeight: nat, finalizedHeight: nat, i: nat, j: nat)
    requires WellFiled(chain) && forall h :: h in chain ==> chain[h].epoch >= 1
    requires i < j < |ForProducer(chain, bestHeight, finalizedHeight)|
    ensures var bs := ForProducer(chain, bestHeight, finalizedHeight);
            bs[i].epoch == bs[j].epoch
  {
    ProducerProperties(chain, bestHeight, finalizedHeight);
    TakenIsContiguous(chain, bestHeight + 1, HighestFor(bestHeight, finalizedHeight), 0, 0);
    var bs := ForProducer(chain, bestHeight, finalizedHeight);
    assert InChain(chain, bestHeight + 1 + i, bs[i]);
  }

  /** The epoch that the blocks have set, if any. */
  function EpochAfterAll(lastEpoch: nat, bs: seq<ShardBlock>): nat
    decreases |bs|
  {
    if bs == [] then lastEpoch else EpochAfterAll(EpochAfter(lastEpoch, bs[0]), bs[1..])
  }

  /** Nothing is left behind: the list stops early only after a swap, at a missing block, at another
      epoch, or at a block over the limit. */
  lemma {:induction false} TakenIsMaximal(chain: Chain, height: nat, high: nat, lastEpoch: nat, minted: nat)
    ensures var bs := Taken(chain, height, high, lastEpoch, minted);
            height + |bs| <= high && (bs == [] || !ContainsSwap(bs[|bs| - 1])) ==>
              !Takes(chain, height + |bs|, EpochAfterAll(lastEpoch, bs), minted + MintRequests(bs))
    decreases if height <= high then high - height + 1 else 0
  {
    var bs := Taken(chain, height, high, lastEpoch, minted);
    if bs != [] && !ContainsSwap(chain[height]) {
      var b := chain[height];
      TakenIsMaximal(chain, height + 1, high, EpochAfter(lastEpoch, b), minted + MintsOf(b));
      assert bs[1..] == Taken(chain, height + 1, high, EpochAfter(lastEpoch, b), minted + MintsOf(b));
    }
  }

  /** How far the producer reaches: with fewer than 30 blocks, short of the finalized height and without
      a swap at the end, it stopped at a block that is missing, of another epoch, or over the limit. */
  lemma {:induction false} ProducerIsMaximal(chain: Chain, bestHeight: nat, finalizedHeight: nat)
    ensures var bs := ForProducer(chain, bestHeight, finalizedHeight);
            |bs| < 30 && bestHeight + |bs| < finalizedHeight && (bs == [] || !ContainsSwap(bs[|bs| - 1])) ==>
              !Takes(chain, bestHeight + 1 + |bs|, EpochAfterAll(0, bs), MintRequests(bs))
  {
    TakenIsMaximal(chain, bestHeight + 1, HighestFor(bestHeight, finalizedHeight), 0, 0);
  }

  lemma {:induction false} EpochOfAll(lastEpoch: nat, bs: seq<ShardBlock>)
    requires forall i :: 0 <= i < |bs| ==> bs[i].epoch >= 1
    ensures EpochAfterAll(lastEpoch, bs) == if lastEpoch != 0 || bs == [] then lastEpoch else bs[0].epoch
    decreases |bs|
  {
    if bs != [] { EpochOfAll(EpochAfter(lastEpoch, bs[0]), bs[1..]); }
  }

  /** The same in the chain's own terms, where epochs count from 1: the block after the list is missing,
      or lies in another epoch than the list, or brings the beacon-mint requests over 400. */
  lemma {:induction false} ProducerStopsFor(chain: Chain, bestHeight: nat, finalizedHeight: nat)
    requires forall h :: h in chain ==> chain[h].epoch >= 1
    ensures var bs := ForProducer(chain, bestHeight, finalizedHeight);
            var next := bestHeight + 1 + |bs|;
            |bs| < 30 && next <= finalizedHeight && next in chain && (bs == [] || "swap" !in bs[|bs| - 1].instructions)
            ==> (bs != [] && chain[next].epoch != bs[0].epoch)
                || MintRequests(bs) + Count(chain[next].acts, RequestBeaconMint) > 400
  {
    var bs := ForProducer(chain, bestHeight, finalizedHeight);
    ProducerIsMaximal(chain, bestHeight, finalizedHeight);
    TakenIsContiguous(chain, bestHeight + 1, HighestFor(bestHeight, finalizedHeight), 0, 0);
    forall i: nat | i < |bs|
      ensures bs[i].epoch >= 1
    {
      assert InChain(chain, bestHeight + 1 + i, bs[i]);
    }
    EpochOfAll(0, bs);
  }

  // ---------------------------------------------------------------------------------------------
  // The shape check on a received block
  // ---------------------------------------------------------------------------------------------

  predicate NextTo(heights: seq<nat>, i: nat)
    requires i + 1 < |heights|
  {
    heights[i + 1] == heights[i] + 1
  }

  /** The height a shard's list must start at or just above. */
  function StartHeight(best: nat): nat
  {
    if best == 0 then 1 else best
  }

  /** Accepted heights of one shard. The loop over neighbours leaves out the last pair, and a list may
      start again at the best height itself. */
  ghost predicate StatesAccepted(best: Option<nat>, heights: seq<nat>)
    requires best.None? ==> heights != []
  {
    && (forall i: nat :: i < |heights| - 2 ==> NextTo(heights, i))
    && match best
       case None => heights[0] == 2
       case Some(h) => heights == [] || heights[0] == StartHeight(h) || heights[0] == StartHeight(h) + 1
  }

  method VerifyShardStates(best: Option<nat>, heights: seq<nat>) returns (ok: bool)
    requires best.None? ==> heights != []
    ensures ok <==> StatesAccepted(best, heights)
  {
    var i := 0;
    while i < |heights| - 2
      invariant 0 <= i && (|heights| >= 2 ==> i <= |heights| - 2)
      invariant forall j: nat :: j < i && j < |heights| - 2 ==> NextTo(heights, j)
    {
      if heights[i + 1] != heights[i] + 1 {
        assert !NextTo(heights, i);
        return false;
      }
      i := i + 1;
    }
    if best.None? {
      return heights[0] == 2;
    }
    var bestShardHeight := best.value;
    if bestShardHeight == 0 {
      bestShardHeight := 1;
    }
    if |heights| > 0 {
      if bestShardHeight > heights[0] {
        return false;
      }
      if bestShardHeight < heights[0] && bestShardHeight + 1 != heights[0] {
        return false;
      }
    }
    return true;
  }

  /** The heights follow the best height without a gap. */
  ghost predicate Follows(best: nat, heights: seq<nat>)
  {
    forall i: nat :: i < |heights| ==> heights[i] == best + 1 + i
  }

  lemma {:induction false} Chained(heights: seq<nat>, i: nat)
    requires i < |heights| && forall j: nat :: j < |heights| - 1 ==> NextTo(heights, j)
    ensures heights[i] == heights[0] + i
  {
    if i > 0 {
      Chained(heights, i - 1);
      assert NextTo(heights, i - 1);
    }
  }

  /** The height an accepted list is measured against: 1 when the view has none, or 0. */
  function Before(best: Option<nat>): nat
  {
    if best.None? || best.value == 0 then 1 else best.value
  }

  /** An accepted list continues the shard's chain exactly when it does not start at the best height
      and its last pair, the one nobody looks at, is consecutive too. */
  lemma {:induction false} AcceptedFollowsIff(best: Option<nat>, heights: seq<nat>)
    requires heights != [] && StatesAccepted(best, heights)
    ensures Follows(Before(best), heights) <==>
            heights[0] != Before(best) && (|heights| >= 2 ==> NextTo(heights, |heights| - 2))
  {
    if heights[0] != Before(best) && (|heights| >= 2 ==> NextTo(heights, |heights| - 2)) {
      forall i: nat | i < |heights|
        ensures heights[i] == Before(best) + 1 + i
      {
        Chained(heights, i);
      }
    }
  }

  /** Whatever continues the chain is accepted. */
  lemma {:induction false} FollowsIsAccepted(best: Option<nat>, heights: seq<nat>)
    requires (best.None? ==> heights != []) && Follows(Before(best), heights)
    ensures StatesAccepted(best, heights)
  {
    forall i: nat | i < |heights| - 2
      ensures NextTo(heights, i)
    {
      assert heights[i] == Before(best) + 1 + i && heights[i + 1] == Before(best) + 1 + (i + 1);
    }
  }

  /** Two accepted lists that do not continue the chain. */
  lemma {:induction false} AcceptedGapExample()
    ensures StatesAccepted(Some(5), [6, 9]) && !Follows(5, [6, 9])
    ensures StatesAccepted(Some(5), [5]) && !Follows(5, [5])
  {
    assert [6, 9][1] == 9 && [5][0] == 5;
  }

  /** What a producer picks always passes and always continues the chain. */
  lemma {:induction false} ProducerIsAccepted(chain: Chain, bestHeight: nat, finalizedHeight: nat)
    requires WellFiled(chain)
    ensures var heights := Heights(ForProducer(chain, bestHeight, finalizedHeight));
            StatesAccepted(Some(bestHeight), heights) && Follows(bestHeight, heights)
  {
    ProducerProperties(chain, bestHeight, finalizedHeight);
    var bs := ForProducer(chain, bestHeight, finalizedHeight);
    forall i: nat | i < |bs|
      ensures Heights(bs)[i] == bestHeight + 1 + i
    {
      assert bs[i].height == bestHeight + 1 + i;
    }
  }
}
