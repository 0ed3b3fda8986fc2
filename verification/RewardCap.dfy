/**
 Crediting block rewards to shard reward requests under the minting cap
 (blockchain/salary.go, addShardRewardRequestToBeacon).

 The reward of a shard block is an arbitrary function of shard, version and height here.
 */
module RewardCap {
  import opened Options
  import opened Ledger

  const PRV: Token := 0
  const INSTANT_FINALITY_VERSION_V2 := 9

  /** Reward requests are filed by epoch and shard; the newer instruction adds the committee subset. */
  datatype RequestKey = RequestKey(epoch: nat, shard: nat, subset: Option<nat>)

  type Request = Entry<RequestKey>
  type Requests = map<Request, nat>

  datatype Instruction =
    | AcceptBlockRewardV3(shard: nat, subset: nat, height: nat, txsFee: map<Token, nat>)
    | AcceptBlockRewardV1(shard: nat, height: nat, txsFee: map<Token, nat>)
    | Malformed
    | Other

  /** A confirmed shard block: its height and version. */
  datatype ShardVersion = ShardVersion(height: nat, version: int)

  datatype Block = Block(version: int, epoch: nat, states: map<nat, seq<ShardVersion>>, instructions: seq<Instruction>)

  function FeeOf(fees: map<Token, nat>, t: Token): nat
  {
    if t in fees then fees[t] else 0
  }

  /** Add to an entry; nothing is written for a zero amount. */
  function Credit(db: Requests, r: Request, amount: nat): Requests
  {
    if amount == 0 then db else Add(db, r, amount)
  }

  lemma {:induction false} CreditTotal(db: Requests, r: Request, amount: nat, t: Token)
    ensures Total(Credit(db, r, amount), t) == Total(db, t) + if r.token == t then amount else 0
  {
    if amount != 0 { AddTotal(db, r, amount, t); }
  }

  // ---------------------------------------------------------------------------------------------
  // The cap
  // ---------------------------------------------------------------------------------------------

  /** The reward that still fits under the cap. */
  function Capped(minted: nat, reward: nat, maxReward: nat): nat
  {
    if minted + reward > maxReward then (if maxReward > minted then maxReward - minted else 0) else reward
  }

  function MintAll(minted: nat, rewards: seq<nat>, maxReward: nat): nat
  {
    if rewards == [] then minted
    else
      var before := MintAll(minted, rewards[..|rewards| - 1], maxReward);
      before + Capped(before, rewards[|rewards| - 1], maxReward)
  }

  function SumOf(rewards: seq<nat>): nat
  {
    if rewards == [] then 0 else SumOf(rewards[..|rewards| - 1]) + rewards[|rewards| - 1]
  }

  /** After any number of rewards: the uncapped sum, cut at the cap; a total above it stays put. */
  lemma {:induction false} MintedIsCappedSum(minted: nat, rewards: seq<nat>, maxReward: nat)
    ensures MintAll(minted, rewards, maxReward)
         == if minted >= maxReward then minted
            else if minted + SumOf(rewards) <= maxReward then minted + SumOf(rewards) else maxReward
  {
    if rewards != [] { MintedIsCappedSum(minted, rewards[..|rewards| - 1], maxReward); }
  }

  lemma {:induction false} MintAllConcat(minted: nat, a: seq<nat>, b: seq<nat>, maxReward: nat)
    ensures MintAll(MintAll(minted, a, maxReward), b, maxReward) == MintAll(minted, a + b, maxReward)
    decreases |b|
  {
    if b == [] {
      assert a + b == a;
    } else {
      assert (a + b)[..|a + b| - 1] == a + b[..|b| - 1];
      MintAllConcat(minted, a, b[..|b| - 1], maxReward);
    }
  }

  // ---------------------------------------------------------------------------------------------
  // Processing a block
  // ---------------------------------------------------------------------------------------------

  predicate IsReward(inst: Instruction)
  {
    inst.AcceptBlockRewardV3? || inst.AcceptBlockRewardV1?
  }

  /** The version of the last of the first n states with the given height, or the given one. */
  function VersionIn(states: seq<ShardVersion>, n: nat, height: nat, otherwise: int): int
    requires n <= |states|
  {
    if n == 0 then otherwise
    else if states[n - 1].height == height then states[n - 1].version
    else VersionIn(states, n - 1, height, otherwise)
  }

  function StatesOf(block: Block, shard: nat): seq<ShardVersion>
  {
    if shard in block.states then block.states[shard] else []
  }

  /** The version of the confirmed shard block, or the beacon block's own when it is not confirmed here. */
  function VersionFor(block: Block, shard: nat, height: nat): int
  {
    VersionIn(StatesOf(block, shard), |StatesOf(block, shard)|, height, block.version)
  }

  /** A reward is computed at the version of the shard block it is for, when this beacon block confirms
      that block, and at the beacon block's version when it does not. */
  lemma {:induction false} VersionIsConfirmed(states: seq<ShardVersion>, n: nat, height: nat, otherwise: int)
    requires n <= |states| && forall i, j :: 0 <= i < j < |states| ==> states[i].height != states[j].height
    ensures forall i :: 0 <= i < n && states[i].height == height ==>
              VersionIn(states, n, height, otherwise) == states[i].version
    ensures (forall i :: 0 <= i < n ==> states[i].height != height) ==>
              VersionIn(states, n, height, otherwise) == otherwise
  {
    if n > 0 { VersionIsConfirmed(states, n - 1, height, otherwise); }
  }

  type Versions = map<(nat, nat), int>

  function LookedUp(versions: Versions, shard: nat, height: nat, otherwise: int): int
  {
    if (shard, height) in versions then versions[(shard, height)] else otherwise
  }

  /** What the table of versions says after the shards not in `todo`. */
  ghost predicate TableOf(versions: Versions, block: Block, todo: set<nat>)
  {
    forall shard: nat, height: nat, v: int ::
      LookedUp(versions, shard, height, v)
      == if shard in todo then v else VersionIn(StatesOf(block, shard), |StatesOf(block, shard)|, height, v)
  }

  method AddShard(versions: Versions, shard: nat, states: seq<ShardVersion>) returns (r: Versions)
    requires forall height: nat :: (shard, height) !in versions
    ensures forall s: nat, height: nat, v: int :: LookedUp(r, s, height, v)
              == if s == shard then VersionIn(states, |states|, height, v) else LookedUp(versions, s, height, v)
  {
    r := versions;
    for i := 0 to |states|
      invariant forall s: nat, height: nat, v: int :: LookedUp(r, s, height, v)
                  == if s == shard then VersionIn(states, i, height, v) else LookedUp(versions, s, height, v)
    {
      ghost var before := r;
      r := r[(shard, states[i].height) := states[i].version];
      forall s: nat, height: nat, v: int
        ensures LookedUp(r, s, height, v)
             == if s == shard then VersionIn(states, i + 1, height, v) else LookedUp(versions, s, height, v)
      {
        assert LookedUp(before, s, height, v)
            == if s == shard then VersionIn(states, i, height, v) else LookedUp(versions, s, height, v);
      }
    }
  }

  /** A table that answers for every shard block with the version its reward is computed at. */
  ghost predicate TableFits(versions: Versions, block: Block)
  {
    forall shard: nat, height: nat ::
      LookedUp(versions, shard, height, block.version) == VersionFor(block, shard, height)
  }

  /** The versions of all shard blocks the beacon block confirms. */
  method ShardVersions(block: Block) returns (versions: Versions)
    ensures TableFits(versions, block)
  {
    versions := map[];
    var todo := block.states.Keys;
    while todo != {}
      invariant todo <= block.states.Keys && TableOf(versions, block, todo)
      invariant forall shard: nat, height: nat :: (shard, height) in versions ==> shard !in todo
      decreases todo
    {
      var shard :| shard in todo;
      ghost var before := versions;
      versions := AddShard(versions, shard, block.states[shard]);
      todo := todo - {shard};
      TableStep(before, versions, block, shard, todo);
    }
  }

  lemma {:induction false} TableStep(before: Versions, after: Versions, block: Block, shard: nat, todo: set<nat>)
    requires shard in block.states && shard !in todo && TableOf(before, block, todo + {shard})
    requires forall s: nat, height: nat, v: int :: LookedUp(after, s, height, v)
               == if s == shard then VersionIn(block.states[shard], |block.states[shard]|, height, v)
                  else LookedUp(before, s, height, v)
    ensures TableOf(after, block, todo)
    ensures forall s: nat, height: nat :: (s, height) in after ==> (s, height) in before || s == shard
  {
    forall s: nat, height: nat | (s, height) in after && s != shard
      ensures (s, height) in before
    {
      var v := after[(s, height)];
      assert LookedUp(after, s, height, v + 1) == LookedUp(before, s, height, v + 1);
    }
  }

  function RewardOf(rewardOf: (nat, int, nat) -> nat, block: Block, inst: Instruction): nat
    requires IsReward(inst)
  {
    rewardOf(inst.shard, VersionFor(block, inst.shard, inst.height), inst.height)
  }

  /** Block rewards of the first n instructions, in order. */
  function Rewards(rewardOf: (nat, int, nat) -> nat, block: Block, n: nat): seq<nat>
    requires n <= |block.instructions|
  {
    if n == 0 then []
    else Rewards(rewardOf, block, n - 1)
         + if IsReward(block.instructions[n - 1]) then [RewardOf(rewardOf, block, block.instructions[n - 1])] else []
  }

  /** Transaction fees of one token in the first n instructions. */
  function Fees(block: Block, n: nat, t: Token): nat
    requires n <= |block.instructions|
  {
    if n == 0 then 0
    else Fees(block, n - 1, t)
         + if IsReward(block.instructions[n - 1]) then FeeOf(block.instructions[n - 1].txsFee, t) else 0
  }

  function KeyFor(block: Block, inst: Instruction, t: Token): Request
    requires IsReward(inst)
  {
    Entry(RequestKey(block.epoch, inst.shard, if inst.AcceptBlockRewardV3? then Some(inst.subset) else None), t)
  }

  /** `after` is `before` with the fees of the tokens done credited under the instruction's keys. */
  ghost predicate Credited(before: Requests, after: Requests, block: Block, inst: Instruction, fees: map<Token, nat>,
                           todo: set<Token>)
    requires IsReward(inst)
  {
    && (forall t: Token :: Total(after, t) == Total(before, t) + if t in todo then 0 else FeeOf(fees, t))
    && forall r: Request :: AmountOf(after, r) == AmountOf(before, r)
         + if r == KeyFor(block, inst, r.token) && r.token !in todo then FeeOf(fees, r.token) else 0
  }

  lemma {:induction false} CreditedStep(before: Requests, db: Requests, block: Block, inst: Instruction,
                                        fees: map<Token, nat>, todo: set<Token>, token: Token)
    requires IsReward(inst) && token in todo && token in fees && Credited(before, db, block, inst, fees, todo)
    ensures Credited(before, Credit(db, KeyFor(block, inst, token), fees[token]), block, inst, fees, todo - {token})
  {
    var key, value := KeyFor(block, inst, token), fees[token];
    var next, left := Credit(db, key, value), todo - {token};
    forall t: Token
      ensures Total(next, t) == Total(before, t) + if t in left then 0 else FeeOf(fees, t)
    {
      CreditTotal(db, key, value, t);
      assert Total(db, t) == Total(before, t) + if t in todo then 0 else FeeOf(fees, t);
    }
    forall r: Request
      ensures AmountOf(next, r) == AmountOf(before, r)
              + if r == KeyFor(block, inst, r.token) && r.token !in left then FeeOf(fees, r.token) else 0
    {
      assert AmountOf(db, r) == AmountOf(before, r)
             + if r == KeyFor(block, inst, r.token) && r.token !in todo then FeeOf(fees, r.token) else 0;
    }
  }

  /** Credit every token of one instruction; tokens come in any order. */
  method CreditFees(before: Requests, block: Block, inst: Instruction, fees: map<Token, nat>) returns (db: Requests)
    requires IsReward(inst)
    ensures Credited(before, db, block, inst, fees, {})
  {
    db := before;
    var todo := fees.Keys;
    while todo != {}
      invariant todo <= fees.Keys && Credited(before, db, block, inst, fees, todo)
      decreases todo
    {
      var token :| token in todo;
      CreditedStep(before, db, block, inst, fees, todo, token);
      db := Credit(db, KeyFor(block, inst, token), fees[token]);
      todo := todo - {token};
    }
  }

  /** Requests have grown by the fees of the first n instructions and, for PRV, by what was paid. */
  ghost predicate Accounted(before: Requests, after: Requests, block: Block, n: nat, paid: nat)
    requires n <= |block.instructions|
  {
    forall t: Token :: AccountedFor(before, after, block, n, paid, t)
  }

  ghost predicate AccountedFor(before: Requests, after: Requests, block: Block, n: nat, paid: nat, t: Token)
    requires n <= |block.instructions|
  {
    Total(after, t) == Total(before, t) + Fees(block, n, t) + if t == PRV then paid else 0
  }

  lemma {:induction false} AccountedStep(before: Requests, db: Requests, next: Requests, block: Block, n: nat,
                                         paid: nat, reward: nat)
    requires n < |block.instructions| && IsReward(block.instructions[n]) && Accounted(before, db, block, n, paid)
    requires var inst := block.instructions[n];
             Credited(db, next, block, inst, inst.txsFee[PRV := FeeOf(inst.txsFee, PRV) + reward], {})
    ensures Accounted(before, next, block, n + 1, paid + reward)
  {
    var inst := block.instructions[n];
    var fees := inst.txsFee[PRV := FeeOf(inst.txsFee, PRV) + reward];
    var done: nat, sum: nat := n + 1, paid + reward;
    forall t: Token
      ensures AccountedFor(before, next, block, done, sum, t)
    {
      assert Total(next, t) == Total(db, t) + if t in {} then 0 else FeeOf(fees, t);
      assert AccountedFor(before, db, block, n, paid, t);
    }
  }

  lemma {:induction false} AccountedSkip(before: Requests, after: Requests, block: Block, n: nat, paid: nat)
    requires n < |block.instructions| && !IsReward(block.instructions[n]) && Accounted(before, after, block, n, paid)
    ensures Accounted(before, after, block, n + 1, paid)
  {
    var done: nat := n + 1;
    forall t: Token
      ensures AccountedFor(before, after, block, done, paid, t)
    {
      assert AccountedFor(before, after, block, n, paid, t);
    }
  }

  /** Minted total after the first n instructions; older versions do not keep one. */
  function MintedThen(rewardOf: (nat, int, nat) -> nat, block: Block, n: nat, minted: nat, maxReward: nat): nat
    requires n <= |block.instructions|
  {
    if block.version >= INSTANT_FINALITY_VERSION_V2 then MintAll(minted, Rewards(rewardOf, block, n), maxReward)
    else minted
  }

  /** Block rewards credited by the first n instructions: capped, or in full for older versions. */
  function PaidThen(rewardOf: (nat, int, nat) -> nat, block: Block, n: nat, minted: nat, maxReward: nat): int
    requires n <= |block.instructions|
  {
    if block.version >= INSTANT_FINALITY_VERSION_V2
        then MintAll(minted, Rewards(rewardOf, block, n), maxReward) - minted
    else SumOf(Rewards(rewardOf, block, n))
  }

  /** What one reward instruction is worth when `minted` has been minted. */
  function Worth(rewardOf: (nat, int, nat) -> nat, block: Block, inst: Instruction, minted: nat, maxReward: nat): nat
    requires IsReward(inst)
  {
    if block.version >= INSTANT_FINALITY_VERSION_V2 then Capped(minted, RewardOf(rewardOf, block, inst), maxReward)
    else RewardOf(rewardOf, block, inst)
  }

  lemma {:induction false} NextInstruction(rewardOf: (nat, int, nat) -> nat, block: Block, n: nat, minted: nat,
                                           maxReward: nat)
    requires n < |block.instructions|
    ensures var inst := block.instructions[n];
            var before := MintedThen(rewardOf, block, n, minted, maxReward);
            var worth := if IsReward(inst) then Worth(rewardOf, block, inst, before, maxReward) else 0;
            && MintedThen(rewardOf, block, n + 1, minted, maxReward)
               == before + (if block.version >= INSTANT_FINALITY_VERSION_V2 then worth else 0)
            && PaidThen(rewardOf, block, n + 1, minted, maxReward) == PaidThen(rewardOf, block, n, minted, maxReward)
                + worth
  {
    var all, some := Rewards(rewardOf, block, n + 1), Rewards(rewardOf, block, n);
    if IsReward(block.instructions[n]) {
      assert all[..|all| - 1] == some;
    } else {
      assert all == some;
    }
  }

  /** The requests an instruction adds to: those of this epoch and its shard, for the newer kind of its
      committee subset, for the older kind of no subset. */
  predicate FiledUnder(block: Block, inst: Instruction, key: RequestKey)
    requires IsReward(inst)
  {
    && key.epoch == block.epoch && key.shard == inst.shard
    && match inst
       case AcceptBlockRewardV3(_, subset, _, _) => key.subset == Some(subset)
       case AcceptBlockRewardV1(_, _, _) => key.subset == None
  }

  /** What the first n instructions add to one request. */
  function GrowthOf(rewardOf: (nat, int, nat) -> nat, block: Block, n: nat, minted: nat, maxReward: nat,
                    r: Request): nat
    requires n <= |block.instructions|
  {
    if n == 0 then 0
    else
      var inst, before := block.instructions[n - 1], MintedThen(rewardOf, block, n - 1, minted, maxReward);
      GrowthOf(rewardOf, block, n - 1, minted, maxReward, r)
      + if !IsReward(inst) || !FiledUnder(block, inst, r.key) then 0
        else FeeOf(inst.txsFee, r.token) + if r.token == PRV then Worth(rewardOf, block, inst, before, maxReward) else 0
  }

  /** Every request has grown by the fees and rewards of the instructions filed under it, and by no other. */
  ghost predicate Filed(rewardOf: (nat, int, nat) -> nat, before: Requests, after: Requests, block: Block, n: nat,
                        minted: nat, maxReward: nat)
    requires n <= |block.instructions|
  {
    forall r: Request ::
      AmountOf(after, r) == AmountOf(before, r) + GrowthOf(rewardOf, block, n, minted, maxReward, r)
  }

  lemma {:induction false} FiledStep(rewardOf: (nat, int, nat) -> nat, before: Requests, db: Requests, next: Requests,
                                     block: Block, n: nat, minted: nat, maxReward: nat, reward: nat)
    requires n < |block.instructions| && IsReward(block.instructions[n])
    requires Filed(rewardOf, before, db, block, n, minted, maxReward)
    requires var inst := block.instructions[n];
             && reward == Worth(rewardOf, block, inst, MintedThen(rewardOf, block, n, minted, maxReward), maxReward)
             && Credited(db, next, block, inst, inst.txsFee[PRV := FeeOf(inst.txsFee, PRV) + reward], {})
    ensures Filed(rewardOf, before, next, block, n + 1, minted, maxReward)
  {
    var inst, m := block.instructions[n], n + 1;
    var fees := inst.txsFee[PRV := FeeOf(inst.txsFee, PRV) + reward];
    forall r: Request
      ensures AmountOf(next, r) == AmountOf(before, r) + GrowthOf(rewardOf, block, m, minted, maxReward, r)
    {
      assert AmountOf(next, r) == AmountOf(db, r)
             + if r == KeyFor(block, inst, r.token) && r.token !in {} then FeeOf(fees, r.token) else 0;
      assert r == KeyFor(block, inst, r.token) <==> FiledUnder(block, inst, r.key);
    }
  }

  /** The two records a block changes. */
  datatype Books = Books(minted: nat, requests: Requests)

  /** What the first n instructions of a block do to them. */
  ghost predicate ProcessedTo(rewardOf: (nat, int, nat) -> nat, before: Books, block: Block, n: nat, after: Books,
                              maxReward: nat)
    requires n <= |block.instructions|
  {
    var paid := PaidThen(rewardOf, block, n, before.minted, maxReward);
    && after.minted == MintedThen(rewardOf, block, n, before.minted, maxReward)
    && paid >= 0 && Accounted(before.requests, after.requests, block, n, paid)
    && Filed(rewardOf, before.requests, after.requests, block, n, before.minted, maxReward)
  }

  /** What processing an accepted block does to them. */
  ghost predicate Processed(rewardOf: (nat, int, nat) -> nat, before: Books, block: Block, after: Books, maxReward: nat)
  {
    ProcessedTo(rewardOf, before, block, |block.instructions|, after, maxReward)
  }

  lemma {:induction false} ProcessedNext(rewardOf: (nat, int, nat) -> nat, before: Books, block: Block, n: nat,
                                         now: Books, next: Books, maxReward: nat, reward: nat)
    requires n < |block.instructions| && IsReward(block.instructions[n])
    requires ProcessedTo(rewardOf, before, block, n, now, maxReward)
    requires var inst := block.instructions[n];
             && reward == Worth(rewardOf, block, inst, now.minted, maxReward)
             && next.minted == now.minted + (if block.version >= INSTANT_FINALITY_VERSION_V2 then reward else 0)
             && Credited(now.requests, next.requests, block, inst,
                         inst.txsFee[PRV := FeeOf(inst.txsFee, PRV) + reward], {})
    ensures ProcessedTo(rewardOf, before, block, n + 1, next, maxReward)
  {
    NextInstruction(rewardOf, block, n, before.minted, maxReward);
    AccountedStep(before.requests, now.requests, next.requests, block, n,
                  PaidThen(rewardOf, block, n, before.minted, maxReward), reward);
    FiledStep(rewardOf, before.requests, now.requests, next.requests, block, n, before.minted, maxReward, reward);
  }

  lemma {:induction false} ProcessedSkip(rewardOf: (nat, int, nat) -> nat, before: Books, block: Block, n: nat,
                                         now: Books, maxReward: nat)
    requires n < |block.instructions| && !IsReward(block.instructions[n])
    requires ProcessedTo(rewardOf, before, block, n, now, maxReward)
    ensures ProcessedTo(rewardOf, before, block, n + 1, now, maxReward)
  {
    NextInstruction(rewardOf, block, n, before.minted, maxReward);
    AccountedSkip(before.requests, now.requests, block, n, PaidThen(rewardOf, block, n, before.minted, maxReward));
    var m := n + 1;
    forall r: Request
      ensures AmountOf(now.requests, r)
           == AmountOf(before.requests, r) + GrowthOf(rewardOf, block, m, before.minted, maxReward, r)
    {
      assert GrowthOf(rewardOf, block, m, before.minted, maxReward, r)
          == GrowthOf(rewardOf, block, n, before.minted, maxReward, r);
    }
  }

  /** Below version 9 nothing is capped or counted: requests grow by the fees and the full rewards. */
  lemma {:induction false} OlderBlocksAreUncapped(rewardOf: (nat, int, nat) -> nat, before: Books, block: Block,
                                                  after: Books, maxReward: nat, t: Token)
    requires block.version < 9 && Processed(rewardOf, before, block, after, maxReward)
    ensures after.minted == before.minted
    ensures var n := |block.instructions|;
            Total(after.requests, t) == Total(before.requests, t) + Fees(block, n, t)
            + if t == PRV then SumOf(Rewards(rewardOf, block, n)) else 0
  {
    var n := |block.instructions|;
    assert AccountedFor(before.requests, after.requests, block, n,
                        PaidThen(rewardOf, block, n, before.minted, maxReward), t);
  }

  class RewardState {
    var rewardMinted: nat
    var requests: Requests

    constructor (minted: nat)
      ensures rewardMinted == minted && requests == map[]
    {
      rewardMinted, requests := minted, map[];
    }

    /** One reward instruction: the cap applies from the second instant-finality version on. */
    method AcceptReward(rewardOf: (nat, int, nat) -> nat, block: Block, versions: Versions, inst: Instruction,
                        maxReward: nat)
      returns (reward: nat)
      requires IsReward(inst)
      requires LookedUp(versions, inst.shard, inst.height, block.version)
            == VersionFor(block, inst.shard, inst.height)
      modifies this
      ensures reward == Worth(rewardOf, block, inst, old(rewardMinted), maxReward)
      ensures rewardMinted == old(rewardMinted) + if block.version >= INSTANT_FINALITY_VERSION_V2 then reward else 0
      ensures Credited(old(requests), requests, block, inst, inst.txsFee[PRV := FeeOf(inst.txsFee, PRV) + reward], {})
    {
      var version := LookedUp(versions, inst.shard, inst.height, block.version);
      reward := rewardOf(inst.shard, version, inst.height);
      if block.version >= INSTANT_FINALITY_VERSION_V2 {
        if rewardMinted + reward > maxReward {
          if maxReward > rewardMinted {
            reward := maxReward - rewardMinted;
          } else {
            reward := 0;
          }
        }
        rewardMinted := rewardMinted + reward;
      }
      requests := CreditFees(requests, block, inst, inst.txsFee[PRV := FeeOf(inst.txsFee, PRV) + reward]);
    }

    /** The next instruction, a reward one or another. */
    method ProcessOne(rewardOf: (nat, int, nat) -> nat, block: Block, versions: Versions, i: nat, maxReward: nat,
                      ghost start: Books)
      requires i < |block.instructions| && TableFits(versions, block)
      requires ProcessedTo(rewardOf, start, block, i, Books(rewardMinted, requests), maxReward)
      modifies this
      ensures ProcessedTo(rewardOf, start, block, i + 1, Books(rewardMinted, requests), maxReward)
    {
      ghost var now := Books(rewardMinted, requests);
      var inst := block.instructions[i];
      if IsReward(inst) {
        var reward := AcceptReward(rewardOf, block, versions, inst, maxReward);
        ProcessedNext(rewardOf, start, block, i, now, Books(rewardMinted, requests), maxReward, reward);
      } else {
        ProcessedSkip(rewardOf, start, block, i, now, maxReward);
      }
    }

    /** All reward instructions of a block: the minted total follows the cap, and what is requested
        grows by exactly the fees, plus for PRV by exactly the block rewards paid, which from the second
        instant-finality version on is exactly the growth of the minted total. */
    method AddShardRewardRequestToBeacon(rewardOf: (nat, int, nat) -> nat, block: Block, maxReward: nat)
      returns (ok: bool)
      modifies this
      ensures ok <==> Malformed !in block.instructions
      ensures ok ==> Processed(rewardOf, Books(old(rewardMinted), old(requests)), block, Books(rewardMinted, requests),
                               maxReward)
    {
      var versions := ShardVersions(block);
      ghost var start := Books(rewardMinted, requests);
      for i := 0 to |block.instructions|
        invariant forall k :: 0 <= k < i ==> block.instructions[k] != Malformed
        invariant ProcessedTo(rewardOf, start, block, i, Books(rewardMinted, requests), maxReward)
      {
        if block.instructions[i] == Malformed {
          return false;
        }
        ProcessOne(rewardOf, block, versions, i, maxReward, start);
      }
      ok := true;
    }
  }

  // ---------------------------------------------------------------------------------------------
  // Runs
  // ---------------------------------------------------------------------------------------------

  ghost predicate IsRun(rewardOf: (nat, int, nat) -> nat, books: seq<Books>, blocks: seq<Block>, maxReward: nat)
  {
    && |books| == |blocks| + 1
    && forall i :: 0 <= i < |blocks| ==> RunStep(rewardOf, books, blocks, maxReward, i)
  }

  ghost predicate RunStep(rewardOf: (nat, int, nat) -> nat, books: seq<Books>, blocks: seq<Block>, maxReward: nat,
                          i: nat)
    requires |books| == |blocks| + 1 && i < |blocks|
  {
    && blocks[i].version >= 9
    && Processed(rewardOf, books[i], blocks[i], books[i + 1], maxReward)
  }

  /** Rewards of the first n blocks, in order. */
  function RunRewards(rewardOf: (nat, int, nat) -> nat, blocks: seq<Block>, n: nat): seq<nat>
    requires n <= |blocks|
  {
    if n == 0 then []
    else RunRewards(rewardOf, blocks, n - 1) + Rewards(rewardOf, blocks[n - 1], |blocks[n - 1].instructions|)
  }

  lemma {:induction false} RunMintsAll(rewardOf: (nat, int, nat) -> nat, books: seq<Books>, blocks: seq<Block>,
                                       maxReward: nat, n: nat)
    requires IsRun(rewardOf, books, blocks, maxReward) && n <= |blocks|
    ensures books[n].minted == MintAll(books[0].minted, RunRewards(rewardOf, blocks, n), maxReward)
  {
    if n > 0 {
      RunMintsAll(rewardOf, books, blocks, maxReward, n - 1);
      assert RunStep(rewardOf, books, blocks, maxReward, n - 1);
      MintAllConcat(books[0].minted, RunRewards(rewardOf, blocks, n - 1),
                    Rewards(rewardOf, blocks[n - 1], |blocks[n - 1].instructions|), maxReward);
    }
  }

  /** Along every run from a total within the cap the total stays within it, and is the uncapped sum of
      all rewards until that reaches the cap. */
  lemma {:induction false} RunStaysUnderCap(rewardOf: (nat, int, nat) -> nat, books: seq<Books>, blocks: seq<Block>,
                                            maxReward: nat, n: nat)
    requires IsRun(rewardOf, books, blocks, maxReward) && n <= |blocks| && books[0].minted <= maxReward
    ensures var sum := books[0].minted + SumOf(RunRewards(rewardOf, blocks, n));
            books[n].minted == if sum <= maxReward then sum else maxReward
  {
    RunMintsAll(rewardOf, books, blocks, maxReward, n);
    MintedIsCappedSum(books[0].minted, RunRewards(rewardOf, blocks, n), maxReward);
  }

  /** Fees of one token over the first n blocks. */
  function RunFees(blocks: seq<Block>, n: nat, t: Token): nat
    requires n <= |blocks|
  {
    if n == 0 then 0 else RunFees(blocks, n - 1, t) + Fees(blocks[n - 1], |blocks[n - 1].instructions|, t)
  }

  /** Along every run from a total within the cap: the total stays within it, and what shards can
      request has grown by the fees and, for PRV only, by exactly the growth of the minted total. */
  lemma {:induction false} RunConserves(rewardOf: (nat, int, nat) -> nat, books: seq<Books>, blocks: seq<Block>,
                                        maxReward: nat, n: nat, t: Token)
    requires IsRun(rewardOf, books, blocks, maxReward) && n <= |blocks| && books[0].minted <= maxReward
    ensures books[0].minted <= books[n].minted <= maxReward
    ensures Total(books[n].requests, t) == Total(books[0].requests, t) + RunFees(blocks, n, t)
            + if t == PRV then books[n].minted - books[0].minted else 0
  {
    if n > 0 {
      RunConserves(rewardOf, books, blocks, maxReward, n - 1, t);
      var i: nat := n - 1;
      assert RunStep(rewardOf, books, blocks, maxReward, i);
      var block, m := blocks[i], |blocks[i].instructions|;
      MintedIsCappedSum(books[i].minted, Rewards(rewardOf, block, m), maxReward);
      assert AccountedFor(books[i].requests, books[n].requests, block, m,
                          PaidThen(rewardOf, block, m, books[i].minted, maxReward), t);
    }
  }
}
