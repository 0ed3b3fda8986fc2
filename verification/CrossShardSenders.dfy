/**
 Which shard blocks a cross-shard list contains: the confirmed blocks of the sending shard that
 name the receiver, in ascending height.  The receivers of a shard block come from
 CreateCrossShardByteArray (blockchain/shardutils.go), which lists each one once and not the sender.
 */
module CrossShardSenders {
  import opened Options
  import opened BlockTree
  import opened CrossShardLinks
  import opened BeaconStore
  import opened Lists

  // ---------------------------------------------------------------------------------------------
  // The receivers of a shard block
  // ---------------------------------------------------------------------------------------------

  /** The shard byte of an output coin, or None when it cannot be read. */
  type OutCoin = Option<nat>

  datatype Tx =
    | PlainTx(proof: Option<seq<OutCoin>>)
    | TokenTx(isToken: bool, baseProof: Option<seq<OutCoin>>, tokenProof: Option<seq<OutCoin>>)

  datatype CrossShards = Receivers(ids: seq<nat>) | CannotCast | CannotGetShardID

  function CoinsOf(proof: Option<seq<OutCoin>>): seq<OutCoin>
  {
    if proof.Some? then proof.value else []
  }

  /** A readable output coin of the transaction belongs to the given shard. */
  ghost predicate PaysTo(tx: Tx, shards: nat, id: nat)
    requires shards >= 1
  {
    match tx
    case PlainTx(proof) => CoinFor(CoinsOf(proof), shards, id)
    case TokenTx(_, base, token) => CoinFor(CoinsOf(base), shards, id) || CoinFor(CoinsOf(token), shards, id)
  }

  ghost predicate CoinFor(coins: seq<OutCoin>, shards: nat, id: nat)
    requires shards >= 1
  {
    exists i :: 0 <= i < |coins| && coins[i].Some? && coins[i].value % shards == id
  }

  ghost predicate AllReadable(coins: seq<OutCoin>)
  {
    forall i :: 0 <= i < |coins| ==> coins[i].Some?
  }

  ghost predicate Castable(txs: seq<Tx>, n: nat)
    requires n <= |txs|
  {
    forall i :: 0 <= i < n ==> txs[i].TokenTx? ==> txs[i].isToken && AllReadable(CoinsOf(txs[i].tokenProof))
  }

  ghost predicate PaidBy(txs: seq<Tx>, n: nat, shards: nat, id: nat)
    requires n <= |txs| && shards >= 1
  {
    exists i :: 0 <= i < n && PaysTo(txs[i], shards, id)
  }

  /** Mark the shards of the readable coins; stop at an unreadable one if `strict`. */
  method MarkShards(byteMap: array<bool>, coins: seq<OutCoin>, strict: bool) returns (ok: bool)
    requires byteMap.Length >= 1
    modifies byteMap
    ensures ok <==> (strict ==> AllReadable(coins))
    ensures ok ==> forall k :: 0 <= k < byteMap.Length ==>
                     (byteMap[k] <==> old(byteMap[k]) || CoinFor(coins, byteMap.Length, k))
  {
    for i := 0 to |coins|
      invariant strict ==> AllReadable(coins[..i])
      invariant forall k :: 0 <= k < byteMap.Length ==>
                  (byteMap[k] <==> old(byteMap[k]) || CoinFor(coins[..i], byteMap.Length, k))
    {
      if coins[i].None? {
        if strict {
          return false;
        }
      } else {
        byteMap[coins[i].value % byteMap.Length] := true;
      }
      CoinForNext(coins, i, byteMap.Length);
    }
    assert coins[..|coins|] == coins;
    ok := true;
  }

  lemma {:induction false} CoinForNext(coins: seq<OutCoin>, i: nat, shards: nat)
    requires i < |coins| && shards >= 1
    ensures forall k: nat :: CoinFor(coins[..i + 1], shards, k) <==>
              CoinFor(coins[..i], shards, k) || (coins[i].Some? && coins[i].value % shards == k)
  {
    forall k: nat
      ensures CoinFor(coins[..i + 1], shards, k) <==>
              CoinFor(coins[..i], shards, k) || (coins[i].Some? && coins[i].value % shards == k)
    {
      var short, long := coins[..i], coins[..i + 1];
      if j :| 0 <= j < |short| && short[j].Some? && short[j].value % shards == k {
        assert long[j] == short[j];
      }
      if j :| 0 <= j < |long| && long[j].Some? && long[j].value % shards == k {
        assert j < i ==> short[j] == long[j];
      }
      if coins[i].Some? && coins[i].value % shards == k { assert long[i] == coins[i]; }
    }
  }

  /** Exactly the shards other than the sender that some transaction pays to, ascending, no repeats. */
  method CreateCrossShardByteArray(txs: seq<Tx>, fromShard: nat, shards: nat) returns (r: CrossShards)
    requires shards >= 1
    ensures r.Receivers? <==> Castable(txs, |txs|)
    ensures r.Receivers? ==>
              forall k: nat :: k in r.ids <==> k < shards && k != fromShard && PaidBy(txs, |txs|, shards, k)
    ensures r.Receivers? ==> forall i, j :: 0 <= i < j < |r.ids| ==> r.ids[i] < r.ids[j]
  {
    var byteMap := new bool[shards](_ => false);
    for n := 0 to |txs|
      invariant Castable(txs, n)
      invariant forall k :: 0 <= k < shards ==> (byteMap[k] <==> PaidBy(txs, n, shards, k))
    {
      ghost var before := byteMap[..];
      var tx := txs[n];
      var prvProof: Option<seq<OutCoin>>;
      match tx {
        case TokenTx(isToken, base, token) =>
          if !isToken {
            return CannotCast;
          }
          var ok := MarkShards(byteMap, CoinsOf(token), true);
          if !ok {
            return CannotGetShardID;
          }
          prvProof := base;
        case PlainTx(proof) =>
          prvProof := proof;
      }
      var _ := MarkShards(byteMap, CoinsOf(prvProof), false);
      forall k | 0 <= k < shards
        ensures byteMap[k] <==> PaidBy(txs, n + 1, shards, k)
      {
        assert byteMap[k] <==> before[k] || PaysTo(tx, shards, k);
        assert PaysTo(txs[n], shards, k) ==> PaidBy(txs, n + 1, shards, k);
      }
    }
    var crossIDs: seq<nat> := [];
    for k := 0 to shards
      invariant forall x: nat :: x in crossIDs <==> x < k && byteMap[x] && x != fromShard
      invariant forall i, j :: 0 <= i < j < |crossIDs| ==> crossIDs[i] < crossIDs[j]
    {
      if byteMap[k] && k != fromShard {
        assert forall i :: 0 <= i < |crossIDs| ==> crossIDs[i] in crossIDs;
        crossIDs := crossIDs + [k];
      }
    }
    r := Receivers(crossIDs);
  }

  /** Every readable output coin makes its shard a receiver: of a plain transaction, and both of the base
      and of the token part of a token transaction. */
  lemma {:induction false} EveryCoinCounts(txs: seq<Tx>, shards: nat, i: nat, coins: seq<OutCoin>, j: nat)
    requires shards >= 1 && i < |txs| && j < |coins| && coins[j].Some?
    requires match txs[i]
             case PlainTx(proof) => proof == Some(coins)
             case TokenTx(_, base, token) => base == Some(coins) || token == Some(coins)
    ensures PaidBy(txs, |txs|, shards, coins[j].value % shards)
  {
    assert CoinFor(coins, shards, coins[j].value % shards);
    assert PaysTo(txs[i], shards, coins[j].value % shards);
  }

  // ---------------------------------------------------------------------------------------------
  // The senders on a chain
  // ---------------------------------------------------------------------------------------------

  ghost predicate ReceiversOnce(states: seq<ShardState>)
  {
    forall i :: 0 <= i < |states| ==> NoRepeats(states[i].crossShard)
  }

  function StatesIn(block: Block, from: ShardID): seq<ShardState>
  {
    if from in block.shardStates then block.shardStates[from] else []
  }

  /** All states of one shard confirmed on the chain of h above genesis, oldest first. */
  ghost function ChainStates(blocks: Blocks, h: Hash, from: ShardID): seq<ShardState>
    requires WellFormed(blocks) && h in blocks
    decreases blocks[h].height
  {
    assert Linked(blocks, h);
    if blocks[h].height <= 1 then []
    else ChainStates(blocks, blocks[h].prevHash, from) + StatesIn(blocks[h], from)
  }

  /** Those of the states that send to the given shard. */
  function Sending(states: seq<ShardState>, to: ShardID): seq<ShardState>
  {
    if states == [] then []
    else Sending(states[..|states| - 1], to)
         + if to in states[|states| - 1].crossShard then [states[|states| - 1]] else []
  }

  /** The list entries name exactly these shard blocks. */
  ghost predicate Names(es: seq<NextCrossShardInfo>, states: seq<ShardState>)
  {
    && |es| == |states|
    && forall i :: 0 <= i < |es| ==> es[i].nextHeight == states[i].height && es[i].nextHash == states[i].hash
  }

  lemma {:induction false} SentByOnce(block: Block, s: ShardState, to: ShardID, n: nat)
    requires NoRepeats(s.crossShard) && n <= |s.crossShard|
    ensures SentBy(block, s, to, n) == if to in s.crossShard[..n] then [InfoOf(block, s)] else []
  {
    if n > 0 {
      SentByOnce(block, s, to, n - 1);
      assert s.crossShard[..n] == s.crossShard[..n - 1] + [s.crossShard[n - 1]];
    }
  }

  lemma {:induction false} SentByFirstNames(block: Block, states: seq<ShardState>, to: ShardID, n: nat)
    requires n <= |states| && ReceiversOnce(states)
    ensures Names(SentByFirst(block, states, to, n), Sending(states[..n], to))
  {
    if n > 0 {
      var s := states[n - 1];
      SentByFirstNames(block, states, to, n - 1);
      SentByOnce(block, s, to, |s.crossShard|);
      assert s.crossShard[..|s.crossShard|] == s.crossShard;
      assert states[..n][..n - 1] == states[..n - 1];
    }
  }

  lemma {:induction false} SendingConcat(a: seq<ShardState>, b: seq<ShardState>, to: ShardID)
    ensures Sending(a + b, to) == Sending(a, to) + Sending(b, to)
    decreases |b|
  {
    if b == [] {
      assert a + b == a;
    } else {
      assert (a + b)[..|a + b| - 1] == a + b[..|b| - 1];
      SendingConcat(a, b[..|b| - 1], to);
    }
  }

  lemma {:induction false} NamesConcat(a: seq<NextCrossShardInfo>, b: seq<NextCrossShardInfo>, x: seq<ShardState>,
                                       y: seq<ShardState>)
    requires Names(a, x) && Names(b, y)
    ensures Names(a + b, x + y)
  {
  }

  lemma {:induction false} ReceiversSplit(a: seq<ShardState>, b: seq<ShardState>)
    requires ReceiversOnce(a + b)
    ensures ReceiversOnce(a) && ReceiversOnce(b)
  {
    var all := a + b;
    assert forall i :: 0 <= i < |a| ==> all[i] == a[i];
    assert forall i :: 0 <= i < |b| ==> all[|a| + i] == b[i];
  }

  lemma {:induction false} BlockNamesSenders(block: Block, p: Pair)
    requires p.0 != p.1 && ReceiversOnce(StatesIn(block, p.0))
    ensures Names(Confirmed(block, p), Sending(StatesIn(block, p.0), p.1))
  {
    var states := StatesIn(block, p.0);
    SentByFirstNames(block, states, p.1, |states|);
    assert states[..|states|] == states;
  }

  /** What a chain confirms for a pair is what its shard blocks send, block for block. */
  lemma {:induction false} ConfirmedNamesSenders(blocks: Blocks, h: Hash, p: Pair)
    requires WellFormed(blocks) && h in blocks && p.0 != p.1
    requires ReceiversOnce(ChainStates(blocks, h, p.0))
    ensures Names(ConfirmedAbove(blocks, 1, h, p), Sending(ChainStates(blocks, h, p.0), p.1))
    decreases blocks[h].height
  {
    assert Linked(blocks, h);
    if blocks[h].height > 1 {
      var parent := blocks[h].prevHash;
      var older, states := ChainStates(blocks, parent, p.0), StatesIn(blocks[h], p.0);
      ReceiversSplit(older, states);
      ConfirmedNamesSenders(blocks, parent, p);
      BlockNamesSenders(blocks[h], p);
      SendingConcat(older, states, p.1);
      NamesConcat(ConfirmedAbove(blocks, 1, parent, p), Confirmed(blocks[h], p), Sending(older, p.1),
                  Sending(states, p.1));
    }
  }

  // ---------------------------------------------------------------------------------------------
  // Where an entry was confirmed
  // ---------------------------------------------------------------------------------------------

  /** The states hold the shard block an entry names, and it sends to the given shard. */
  ghost predicate Holds(states: seq<ShardState>, e: NextCrossShardInfo, to: ShardID)
  {
    exists k :: 0 <= k < |states| && states[k].height == e.nextHeight && states[k].hash == e.nextHash
                && to in states[k].crossShard
  }

  /** An entry says where it was confirmed: its beacon block is the one of that height on the chain of h,
      and that block holds the shard block. */
  ghost predicate ConfirmedIn(blocks: Blocks, h: Hash, p: Pair, e: NextCrossShardInfo)
    requires WellFormed(blocks) && h in blocks
  {
    && 1 < e.confirmHeight <= blocks[h].height
    && e.confirmHash == AncestorAt(blocks, h, e.confirmHeight)
    && Holds(StatesIn(blocks[e.confirmHash], p.0), e, p.1)
  }

  lemma {:induction false} SentByIsInfo(block: Block, s: ShardState, to: ShardID, n: nat, i: nat)
    requires n <= |s.crossShard| && i < |SentBy(block, s, to, n)|
    ensures var e := SentBy(block, s, to, n)[i];
            && e.nextHeight == s.height && e.nextHash == s.hash && to in s.crossShard
            && e.confirmHeight == block.height && e.confirmHash == block.hash
  {
    if i < |SentBy(block, s, to, n - 1)| { SentByIsInfo(block, s, to, n - 1, i); }
  }

  lemma {:induction false} SentByFirstHolds(block: Block, states: seq<ShardState>, to: ShardID, n: nat, i: nat)
    requires n <= |states| && i < |SentByFirst(block, states, to, n)|
    ensures var e := SentByFirst(block, states, to, n)[i];
            Holds(states, e, to) && e.confirmHeight == block.height && e.confirmHash == block.hash
  {
    var before := |SentByFirst(block, states, to, n - 1)|;
    if i < before {
      SentByFirstHolds(block, states, to, n - 1, i);
    } else {
      var s := states[n - 1];
      SentByIsInfo(block, s, to, |s.crossShard|, i - before);
      assert states[n - 1].height == SentByFirst(block, states, to, n)[i].nextHeight;
    }
  }

  /** Every entry a chain confirms names its own beacon block on that chain. */
  lemma {:induction false} EntryIsConfirmedIn(blocks: Blocks, low: nat, h: Hash, p: Pair, i: nat)
    requires WellFormed(blocks) && h in blocks && low >= 1 && i < |ConfirmedAbove(blocks, low, h, p)|
    ensures ConfirmedIn(blocks, h, p, ConfirmedAbove(blocks, low, h, p)[i])
    decreases blocks[h].height
  {
    assert Linked(blocks, h);
    var parent := blocks[h].prevHash;
    var before := |ConfirmedAbove(blocks, low, parent, p)|;
    if i < before {
      EntryIsConfirmedIn(blocks, low, parent, p, i);
    } else {
      var states := StatesIn(blocks[h], p.0);
      SentByFirstHolds(blocks[h], states, p.1, |states|, i - before);
    }
  }

  ghost predicate Ascending(states: seq<ShardState>)
  {
    && (forall i :: 0 <= i < |states| ==> states[i].height > 0)
    && forall i, j :: 0 <= i < j < |states| ==> states[i].height < states[j].height
  }

  lemma {:induction false} SendingAscends(states: seq<ShardState>, to: ShardID)
    requires Ascending(states)
    ensures Ascending(Sending(states, to))
    ensures forall s :: s in Sending(states, to) <==> s in states && to in s.crossShard
  {
    if states != [] {
      var front, last := states[..|states| - 1], states[|states| - 1];
      assert states == front + [last];
      SendingAscends(front, to);
      var sf := Sending(front, to);
      forall i | 0 <= i < |sf|
        ensures sf[i].height < last.height
      {
        assert sf[i] in front;
      }
    }
  }

  lemma {:induction false} AscendingIsDistinct(es: seq<NextCrossShardInfo>, states: seq<ShardState>)
    requires Names(es, states) && Ascending(states)
    ensures Distinct(es)
  {
    forall i: nat, j: nat | i < j <= |es|
      ensures NodeAt(es, i) != NodeAt(es, j)
    {
      assert states[j - 1].height > 0;
      if i > 0 { assert states[i - 1].height < states[j - 1].height; }
    }
  }

  /** With ascending shard heights on the finalized chain, an exact list runs in strictly ascending
      height through exactly the finalized shard blocks that send from the one shard to the other. */
  lemma {:induction false} ListNamesSenders(s: State, p: Pair)
    requires Valid(s) && p.0 != p.1
    requires Ascending(ChainStates(s.blocks, s.final, p.0)) && ReceiversOnce(ChainStates(s.blocks, s.final, p.0))
    ensures Distinct(AllConfirmed(s, p))
    ensures Names(AllConfirmed(s, p), Sending(ChainStates(s.blocks, s.final, p.0), p.1))
    ensures Ascending(Sending(ChainStates(s.blocks, s.final, p.0), p.1))
    ensures forall x :: x in Sending(ChainStates(s.blocks, s.final, p.0), p.1) <==>
              x in ChainStates(s.blocks, s.final, p.0) && p.1 in x.crossShard
  {
    ConfirmedNamesSenders(s.blocks, s.final, p);
    SendingAscends(ChainStates(s.blocks, s.final, p.0), p.1);
    AscendingIsDistinct(AllConfirmed(s, p), Sending(ChainStates(s.blocks, s.final, p.0), p.1));
  }

  /** Ascending shard heights on the finalized chain are what a run needs to keep its lists exact. */
  lemma {:induction false} AscendingChainHasDistinctHeights(s: State)
    requires Valid(s)
    requires forall from: ShardID :: Ascending(ChainStates(s.blocks, s.final, from))
    requires forall from: ShardID :: ReceiversOnce(ChainStates(s.blocks, s.final, from))
    ensures HeightsDistinct(s)
  {
    forall p: Pair
      ensures Distinct(AllConfirmed(s, p))
    {
      if p.0 != p.1 {
        ListNamesSenders(s, p);
      } else {
        NothingToSelf(s.blocks, s.final, p);
      }
    }
  }

  lemma {:induction false} NothingToSelf(blocks: Blocks, h: Hash, p: Pair)
    requires WellFormed(blocks) && h in blocks && p.0 == p.1
    ensures ConfirmedAbove(blocks, 1, h, p) == []
    decreases blocks[h].height
  {
    assert Linked(blocks, h);
    if blocks[h].height > 1 { NothingToSelf(blocks, blocks[h].prevHash, p); }
  }
}
