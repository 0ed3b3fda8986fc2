/**
 Splitting a shard's reward among its committee (blockchain/salary.go) after the subset and slashing
 filters (blockchain/salary.go, blockchain/beaconbeststate.go).  Every shard runs the same instruction
 and pays the members whose reward receiver belongs to it.
 */
module CommitteeReward {
  import opened Arithmetic
  import opened Lists
  import opened Ledger

  /** A committee member: its key, its reward receiver and the last byte of the receiver's key. */
  datatype Staker = Staker(committeeKey: string, receiver: string, lastByte: nat)

  type Rewards = map<Token, nat>
  type Accounts = map<Entry<string>, nat>

  const MAX_SUBSET_COMMITTEES: nat := 2

  function ShardOf(s: Staker, shards: nat): nat
    requires shards >= 1
  {
    s.lastByte % shards
  }

  // ---------------------------------------------------------------------------------------------
  // Filters
  // ---------------------------------------------------------------------------------------------

  function Subset(committees: seq<Staker>, subset: nat, n: nat): seq<Staker>
    requires n <= |committees|
  {
    if n == 0 then []
    else Subset(committees, subset, n - 1)
         + if (n - 1) % MAX_SUBSET_COMMITTEES == subset then [committees[n - 1]] else []
  }

  method GetCommitteeToPayRewardMultiset(committees: seq<Staker>, subset: nat) returns (res: seq<Staker>)
    ensures res == Subset(committees, subset, |committees|)
  {
    res := [];
    for i := 0 to |committees|
      invariant res == Subset(committees, subset, i)
    {
      if i % MAX_SUBSET_COMMITTEES == subset {
        res := res + [committees[i]];
      }
    }
  }

  /** Subset 0 holds the members at even places, subset 1 those at odd places, in order. */
  lemma {:induction false} SubsetPlaces(committees: seq<Staker>, subset: nat, n: nat)
    requires n <= |committees| && subset < MAX_SUBSET_COMMITTEES
    ensures |Subset(committees, subset, n)| == (n + 1 - subset) / 2
    ensures forall i :: 0 <= i < |Subset(committees, subset, n)| ==>
              2 * i + subset < n && Subset(committees, subset, n)[i] == committees[2 * i + subset]
  {
    if n > 0 {
      SubsetPlaces(committees, subset, n - 1);
      var before, after := Subset(committees, subset, n - 1), Subset(committees, subset, n);
      if (n - 1) % 2 == subset {
        assert 2 * |before| + subset == n - 1;
      }
      forall i | 0 <= i < |after|
        ensures 2 * i + subset < n && after[i] == committees[2 * i + subset]
      {
        if i < |before| { assert after[i] == before[i]; }
      }
    }
  }

  lemma {:induction false} SubsetsSplit(committees: seq<Staker>, n: nat)
    requires n <= |committees|
    ensures Splits(Subset(committees, 0, n), Subset(committees, 1, n), committees[..n])
  {
    if n > 0 {
      SubsetsSplit(committees, n - 1);
      var last := [committees[n - 1]];
      assert committees[..n] == committees[..n - 1] + last;
      var a, b := Subset(committees, 0, n - 1), Subset(committees, 1, n - 1);
      if (n - 1) % MAX_SUBSET_COMMITTEES == 0 {
        SplitsAppend(a, b, committees[..n - 1], last, [], last);
        assert b + [] == b;
      } else {
        SplitsAppend(a, b, committees[..n - 1], [], last, last);
        assert a + [] == a;
      }
    }
  }

  /** The two subsets part the committee between them. */
  lemma {:induction false} SubsetsPartition(committees: seq<Staker>)
    ensures var zero, one := Subset(committees, 0, |committees|), Subset(committees, 1, |committees|);
            multiset(zero) + multiset(one) == multiset(committees)
  {
    SubsetsSplit(committees, |committees|);
    assert committees[..|committees|] == committees;
    SplitsIsMultiset(Subset(committees, 0, |committees|), Subset(committees, 1, |committees|), committees);
  }

  function NonSlashed(committees: seq<Staker>, slashed: set<string>): seq<Staker>
  {
    if committees == [] then []
    else NonSlashed(committees[..|committees| - 1], slashed)
         + if committees[|committees| - 1].committeeKey in slashed then [] else [committees[|committees| - 1]]
  }

  method FilterNonSlashingCommittee(committees: seq<Staker>, slashing: seq<string>) returns (res: seq<Staker>)
    ensures res == NonSlashed(committees, set k | k in slashing)
  {
    res := [];
    var slashed := {};
    for i := 0 to |slashing|
      invariant slashed == set k | k in slashing[..i]
    {
      assert slashing[..i + 1] == slashing[..i] + [slashing[i]];
      slashed := slashed + {slashing[i]};
    }
    assert slashing[..|slashing|] == slashing;
    for i := 0 to |committees|
      invariant res == NonSlashed(committees[..i], slashed)
    {
      assert committees[..i + 1][..i] == committees[..i];
      if committees[i].committeeKey !in slashed {
        res := res + [committees[i]];
      }
    }
    assert committees[..|committees|] == committees;
  }

  /** Exactly the members that are not slashed, as often as before. */
  lemma {:induction false} NonSlashedKeepsTheRest(committees: seq<Staker>, slashed: set<string>, s: Staker)
    ensures multiset(NonSlashed(committees, slashed))[s]
         == if s.committeeKey in slashed then 0 else multiset(committees)[s]
  {
    if committees != [] {
      var front, last := committees[..|committees| - 1], committees[|committees| - 1];
      NonSlashedKeepsTheRest(front, slashed, s);
      assert committees == front + [last];
    }
  }

  // ---------------------------------------------------------------------------------------------
  // Crediting in one shard
  // ---------------------------------------------------------------------------------------------

  /** What each member of a committee of the given size gets of a token. */
  function Share(reward: Rewards, size: nat, t: Token): nat
    requires size > 0
  {
    if t in reward then Quotient(reward[t], size) else 0
  }

  predicate PaidIn(s: Staker, shards: nat, shard: nat)
    requires shards >= 1
  {
    ShardOf(s, shards) == shard
  }

  /** Members among the first n that the shard pays. */
  function Members(stakers: seq<Staker>, n: nat, shards: nat, shard: nat): nat
    requires n <= |stakers| && shards >= 1
  {
    if n == 0 then 0
    else Members(stakers, n - 1, shards, shard) + if PaidIn(stakers[n - 1], shards, shard) then 1 else 0
  }

  /** Members among the first n that the shard pays to one receiver. */
  function MembersFor(stakers: seq<Staker>, n: nat, shards: nat, shard: nat, receiver: string): nat
    requires n <= |stakers| && shards >= 1
  {
    if n == 0 then 0
    else MembersFor(stakers, n - 1, shards, shard, receiver)
         + if PaidIn(stakers[n - 1], shards, shard) && stakers[n - 1].receiver == receiver then 1 else 0
  }

  /** `db` is `before` with one share of every token not in `todo` added to one receiver. */
  ghost predicate OnePaid(before: Accounts, db: Accounts, receiver: string, reward: Rewards, size: nat,
                          todo: set<Token>)
    requires size > 0
  {
    && (forall t: Token :: Total(db, t) == Total(before, t) + if t in todo then 0 else Share(reward, size, t))
    && forall e: Entry<string> :: AmountOf(db, e) == AmountOf(before, e)
         + if e.key == receiver && e.token !in todo then Share(reward, size, e.token) else 0
  }

  lemma {:induction false} OnePaidStep(before: Accounts, db: Accounts, receiver: string, reward: Rewards, size: nat,
                                       todo: set<Token>, token: Token)
    requires size > 0 && token in todo && token in reward && OnePaid(before, db, receiver, reward, size, todo)
    ensures OnePaid(before, Add(db, Entry(receiver, token), Share(reward, size, token)), receiver, reward, size,
                    todo - {token})
  {
    var e, left := Entry(receiver, token), todo - {token};
    var next := Add(db, e, Share(reward, size, token));
    forall t: Token
      ensures Total(next, t) == Total(before, t) + if t in left then 0 else Share(reward, size, t)
    {
      AddTotal(db, e, Share(reward, size, token), t);
      assert Total(db, t) == Total(before, t) + if t in todo then 0 else Share(reward, size, t);
    }
    forall f: Entry<string>
      ensures AmountOf(next, f) == AmountOf(before, f)
              + if f.key == receiver && f.token !in left then Share(reward, size, f.token) else 0
    {
      assert AmountOf(db, f) == AmountOf(before, f)
             + if f.key == receiver && f.token !in todo then Share(reward, size, f.token) else 0;
    }
  }

  method PayOne(before: Accounts, receiver: string, reward: Rewards, size: nat) returns (db: Accounts)
    requires size > 0
    ensures OnePaid(before, db, receiver, reward, size, {})
  {
    db := before;
    var todo := reward.Keys;
    while todo != {}
      invariant todo <= reward.Keys && OnePaid(before, db, receiver, reward, size, todo)
      decreases todo
    {
      var token :| token in todo;
      OnePaidStep(before, db, receiver, reward, size, todo, token);
      db := Add(db, Entry(receiver, token), reward[token] / size);
      todo := todo - {token};
    }
  }

  /** What the shard has paid after the first n members. */
  ghost predicate Paid(before: Accounts, db: Accounts, stakers: seq<Staker>, n: nat, shards: nat, shard: nat,
                       reward: Rewards, size: nat)
    requires n <= |stakers| && shards >= 1 && size > 0
  {
    && (forall t: Token ::
        Total(db, t) == Total(before, t) + Members(stakers, n, shards, shard) * Share(reward, size, t))
    && forall e: Entry<string> :: AmountOf(db, e)
         == AmountOf(before, e) + MembersFor(stakers, n, shards, shard, e.key) * Share(reward, size, e.token)
  }

  lemma {:induction false} PaidStep(before: Accounts, db: Accounts, next: Accounts, stakers: seq<Staker>, n: nat,
                                    shards: nat, shard: nat, reward: Rewards, size: nat)
    requires n < |stakers| && shards >= 1 && size > 0 && Paid(before, db, stakers, n, shards, shard, reward, size)
    requires if PaidIn(stakers[n], shards, shard) then OnePaid(db, next, stakers[n].receiver, reward, size, {})
        else next == db
    ensures Paid(before, next, stakers, n + 1, shards, shard, reward, size)
  {
    forall t: Token
      ensures Total(next, t) == Total(before, t) + Members(stakers, n + 1, shards, shard) * Share(reward, size, t)
    {
      assert Total(db, t) == Total(before, t) + Members(stakers, n, shards, shard) * Share(reward, size, t);
      MulStep(Members(stakers, n, shards, shard) + 1, Share(reward, size, t));
      if PaidIn(stakers[n], shards, shard) {
        assert Total(next, t) == Total(db, t) + if t in {} then 0 else Share(reward, size, t);
      }
    }
    forall e: Entry<string>
      ensures AmountOf(next, e)
           == AmountOf(before, e) + MembersFor(stakers, n + 1, shards, shard, e.key) * Share(reward, size, e.token)
    {
      assert AmountOf(db, e)
          == AmountOf(before, e) + MembersFor(stakers, n, shards, shard, e.key) * Share(reward, size, e.token);
      MulStep(MembersFor(stakers, n, shards, shard, e.key) + 1, Share(reward, size, e.token));
      if PaidIn(stakers[n], shards, shard) {
        assert AmountOf(next, e) == AmountOf(db, e)
               + if e.key == stakers[n].receiver && e.token !in {} then Share(reward, size, e.token) else 0;
      }
    }
  }

  method AddShardCommitteeReward(before: Accounts, shards: nat, shard: nat, reward: Rewards, stakers: seq<Staker>)
    returns (db: Accounts)
    requires shards >= 1
    ensures stakers == [] ==> db == before
    ensures stakers != [] ==> Paid(before, db, stakers, |stakers|, shards, shard, reward, |stakers|)
  {
    db := before;
    var committeeSize := |stakers|;
    if committeeSize == 0 {
      return;
    }
    for i := 0 to |stakers|
      invariant Paid(before, db, stakers, i, shards, shard, reward, committeeSize)
    {
      ghost var was := db;
      if ShardOf(stakers[i], shards) == shard {
        db := PayOne(db, stakers[i].receiver, reward, committeeSize);
      }
      PaidStep(before, was, db, stakers, i, shards, shard, reward, committeeSize);
    }
  }

  // ---------------------------------------------------------------------------------------------
  // All shards together
  // ---------------------------------------------------------------------------------------------

  /** Members paid by the first k shards. */
  function MembersOver(stakers: seq<Staker>, n: nat, shards: nat, k: nat): nat
    requires n <= |stakers| && shards >= 1
  {
    if k == 0 then 0 else MembersOver(stakers, n, shards, k - 1) + Members(stakers, n, shards, k - 1)
  }

  lemma {:induction false} OneMoreMember(stakers: seq<Staker>, n: nat, shards: nat, k: nat)
    requires n < |stakers| && shards >= 1 && k <= shards
    ensures MembersOver(stakers, n + 1, shards, k)
         == MembersOver(stakers, n, shards, k) + if ShardOf(stakers[n], shards) < k then 1 else 0
  {
    if k > 0 { OneMoreMember(stakers, n, shards, k - 1); }
  }

  /** Over all shards the members paid are all members. */
  lemma {:induction false} AllMembersPaid(stakers: seq<Staker>, n: nat, shards: nat)
    requires n <= |stakers| && shards >= 1
    ensures MembersOver(stakers, n, shards, shards) == n
  {
    if n == 0 {
      NoMembers(stakers, shards, shards);
    } else {
      AllMembersPaid(stakers, n - 1, shards);
      OneMoreMember(stakers, n - 1, shards, shards);
    }
  }

  lemma {:induction false} NoMembers(stakers: seq<Staker>, shards: nat, k: nat)
    requires shards >= 1
    ensures MembersOver(stakers, 0, shards, k) == 0
  {
    if k > 0 { NoMembers(stakers, shards, k - 1); }
  }

  /** Growth of one token over the accounts of the first k shards. */
  ghost function Growth(befores: seq<Accounts>, afters: seq<Accounts>, k: nat, t: Token): int
    requires k <= |befores| && k <= |afters|
  {
    if k == 0 then 0 else Growth(befores, afters, k - 1, t) + Total(afters[k - 1], t) - Total(befores[k - 1], t)
  }

  lemma {:induction false} GrowthIsShares(befores: seq<Accounts>, afters: seq<Accounts>, stakers: seq<Staker>,
                                          shards: nat, reward: Rewards, k: nat, t: Token)
    requires stakers != [] && shards >= 1 && k <= shards && |befores| == |afters| == shards
    requires forall s: nat :: s < shards ==>
               Paid(befores[s], afters[s], stakers, |stakers|, shards, s, reward, |stakers|)
    ensures Growth(befores, afters, k, t) == MembersOver(stakers, |stakers|, shards, k) * Share(reward, |stakers|, t)
  {
    if k > 0 {
      GrowthIsShares(befores, afters, stakers, shards, reward, k - 1, t);
      var s: nat, share := k - 1, Share(reward, |stakers|, t);
      assert Paid(befores[s], afters[s], stakers, |stakers|, shards, s, reward, |stakers|);
      assert Total(afters[s], t) == Total(befores[s], t) + Members(stakers, |stakers|, shards, s) * share;
      Distribute(MembersOver(stakers, |stakers|, shards, s), Members(stakers, |stakers|, shards, s), share);
    }
  }

  lemma {:induction false} Distribute(a: int, b: int, x: int)
    ensures (a + b) * x == a * x + b * x
  {
  }

  /** When all shards process the same instruction, the committee gets size * (value / size) of each
      token in all: never more than the value, and less by fewer units than it has members. */
  lemma {:induction false} RewardIsSplit(befores: seq<Accounts>, afters: seq<Accounts>, stakers: seq<Staker>,
                                         shards: nat, reward: Rewards, t: Token)
    requires stakers != [] && shards >= 1 && |befores| == |afters| == shards && t in reward
    requires forall s: nat :: s < shards ==>
               Paid(befores[s], afters[s], stakers, |stakers|, shards, s, reward, |stakers|)
    ensures Growth(befores, afters, shards, t) == |stakers| * (reward[t] / |stakers|)
    ensures reward[t] - |stakers| < Growth(befores, afters, shards, t) <= reward[t]
  {
    GrowthIsShares(befores, afters, stakers, shards, reward, shards, t);
    AllMembersPaid(stakers, |stakers|, shards);
    SplitBounds(reward[t], |stakers|);
  }

  lemma {:induction false} SplitBounds(value: nat, size: nat)
    requires size > 0
    ensures value - size < size * (value / size) <= value
  {
    DivMod(value, size);
  }

  // ---------------------------------------------------------------------------------------------
  // Member by member
  // ---------------------------------------------------------------------------------------------

  /** Members among the first n with the given receiver. */
  function WithReceiver(stakers: seq<Staker>, n: nat, receiver: string): nat
    requires n <= |stakers|
  {
    if n == 0 then 0
    else WithReceiver(stakers, n - 1, receiver) + if stakers[n - 1].receiver == receiver then 1 else 0
  }

  /** Members with the given receiver that the first k shards pay. */
  function ReceiverOver(stakers: seq<Staker>, n: nat, shards: nat, k: nat, receiver: string): nat
    requires n <= |stakers| && shards >= 1
  {
    if k == 0 then 0
    else ReceiverOver(stakers, n, shards, k - 1, receiver) + MembersFor(stakers, n, shards, k - 1, receiver)
  }

  lemma {:induction false} OneMoreFor(stakers: seq<Staker>, n: nat, shards: nat, k: nat, receiver: string)
    requires n < |stakers| && shards >= 1 && k <= shards
    ensures ReceiverOver(stakers, n + 1, shards, k, receiver) == ReceiverOver(stakers, n, shards, k, receiver)
            + if ShardOf(stakers[n], shards) < k && stakers[n].receiver == receiver then 1 else 0
  {
    if k > 0 { OneMoreFor(stakers, n, shards, k - 1, receiver); }
  }

  lemma {:induction false} NoneFor(stakers: seq<Staker>, shards: nat, k: nat, receiver: string)
    requires shards >= 1
    ensures ReceiverOver(stakers, 0, shards, k, receiver) == 0
  {
    if k > 0 { NoneFor(stakers, shards, k - 1, receiver); }
  }

  /** Every member is paid in one shard and in no other, so that over all shards each receiver is paid
      once for every member it receives for. */
  lemma {:induction false} EveryMemberPaidOnce(stakers: seq<Staker>, n: nat, shards: nat, receiver: string)
    requires n <= |stakers| && shards >= 1
    ensures forall i :: 0 <= i < n ==> PaidInOne(stakers[i], shards)
    ensures ReceiverOver(stakers, n, shards, shards, receiver) == WithReceiver(stakers, n, receiver)
  {
    if n == 0 {
      NoneFor(stakers, shards, shards, receiver);
    } else {
      EveryMemberPaidOnce(stakers, n - 1, shards, receiver);
      OneMoreFor(stakers, n - 1, shards, shards, receiver);
      assert PaidIn(stakers[n - 1], shards, ShardOf(stakers[n - 1], shards));
    }
  }

  /** Exactly one of the shards pays the member. */
  ghost predicate PaidInOne(s: Staker, shards: nat)
    requires shards >= 1
  {
    && (exists shard: nat :: shard < shards && PaidIn(s, shards, shard))
    && forall a: nat, b: nat :: PaidIn(s, shards, a) && PaidIn(s, shards, b) ==> a == b
  }

  /** The shard that pays a member is the remainder of its receiver's last key byte. */
  lemma {:induction false} MemberIsPaidIn(s: Staker, shards: nat, q: nat, k: nat)
    requires k < shards && s.lastByte == q * shards + k
    ensures forall shard: nat :: PaidIn(s, shards, shard) <==> shard == k
  {
    DivUnique(s.lastByte, shards, q);
  }

  /** All members with the receiver of one member have that receiver's key. */
  ghost predicate OneKey(stakers: seq<Staker>, receiver: string, lastByte: nat)
  {
    forall i :: 0 <= i < |stakers| && stakers[i].receiver == receiver ==> stakers[i].lastByte == lastByte
  }

  lemma {:induction false} MembersAtHome(stakers: seq<Staker>, n: nat, shards: nat, shard: nat, receiver: string,
                                         q: nat, k: nat)
    requires n <= |stakers| && k < shards && OneKey(stakers, receiver, q * shards + k)
    ensures MembersFor(stakers, n, shards, shard, receiver)
         == if shard == k then WithReceiver(stakers, n, receiver) else 0
  {
    if n > 0 {
      MembersAtHome(stakers, n - 1, shards, shard, receiver, q, k);
      if stakers[n - 1].receiver == receiver { MemberIsPaidIn(stakers[n - 1], shards, q, k); }
    }
  }

  /** A receiver's account grows in the shard of its key, by a share per member, and in no other. */
  lemma {:induction false} PaidAtHome(before: Accounts, after: Accounts, stakers: seq<Staker>, shards: nat, shard: nat,
                                      reward: Rewards, e: Entry<string>, q: nat, k: nat)
    requires stakers != [] && k < shards && e.token in reward && OneKey(stakers, e.key, q * shards + k)
    requires Paid(before, after, stakers, |stakers|, shards, shard, reward, |stakers|)
    ensures AmountOf(after, e) == AmountOf(before, e)
            + if shard == k then WithReceiver(stakers, |stakers|, e.key) * (reward[e.token] / |stakers|) else 0
  {
    MembersAtHome(stakers, |stakers|, shards, shard, e.key, q, k);
  }

  /** Growth of one account over the first k shards. */
  ghost function AccountGrowth(befores: seq<Accounts>, afters: seq<Accounts>, k: nat, e: Entry<string>): int
    requires k <= |befores| && k <= |afters|
  {
    if k == 0 then 0
    else AccountGrowth(befores, afters, k - 1, e) + AmountOf(afters[k - 1], e) - AmountOf(befores[k - 1], e)
  }

  lemma {:induction false} AccountGrowthIsShares(befores: seq<Accounts>, afters: seq<Accounts>, stakers: seq<Staker>,
                                                 shards: nat, reward: Rewards, k: nat, e: Entry<string>)
    requires stakers != [] && shards >= 1 && k <= shards && |befores| == |afters| == shards
    requires forall s: nat :: s < shards ==>
               Paid(befores[s], afters[s], stakers, |stakers|, shards, s, reward, |stakers|)
    ensures AccountGrowth(befores, afters, k, e)
         == ReceiverOver(stakers, |stakers|, shards, k, e.key) * Share(reward, |stakers|, e.token)
  {
    if k > 0 {
      AccountGrowthIsShares(befores, afters, stakers, shards, reward, k - 1, e);
      var s: nat, share := k - 1, Share(reward, |stakers|, e.token);
      assert Paid(befores[s], afters[s], stakers, |stakers|, shards, s, reward, |stakers|);
      assert AmountOf(afters[s], e)
          == AmountOf(befores[s], e) + MembersFor(stakers, |stakers|, shards, s, e.key) * share;
      Distribute(ReceiverOver(stakers, |stakers|, shards, s, e.key), MembersFor(stakers, |stakers|, shards, s, e.key),
                 share);
    }
  }

  // ---------------------------------------------------------------------------------------------
  // The filtered committee
  // ---------------------------------------------------------------------------------------------

  /** The members a reward instruction pays: the subset first, then without the slashed ones. */
  function Payees(committees: seq<Staker>, subset: nat, slashed: set<string>): seq<Staker>
  {
    NonSlashed(Subset(committees, subset, |committees|), slashed)
  }

  /** One shard's share of a reward instruction, filters included. */
  method PayInstruction(before: Accounts, shards: nat, shard: nat, reward: Rewards, committees: seq<Staker>,
                        subset: nat, slashing: seq<string>) returns (db: Accounts)
    requires shards >= 1
    ensures PaidBy(before, db, Payees(committees, subset, set k | k in slashing), shards, shard, reward)
  {
    var inSubset := GetCommitteeToPayRewardMultiset(committees, subset);
    var payees := FilterNonSlashingCommittee(inSubset, slashing);
    db := AddShardCommitteeReward(before, shards, shard, reward, payees);
  }

  ghost predicate PaidBy(before: Accounts, db: Accounts, payees: seq<Staker>, shards: nat, shard: nat, reward: Rewards)
    requires shards >= 1
  {
    if payees == [] then db == before
    else Paid(before, db, payees, |payees|, shards, shard, reward, |payees|)
  }

  /** When all shards process the same instruction, each member of the subset that is not slashed is paid
      in exactly one shard, each account grows by one share per payee it receives for, and
      in all size * (value / size) of each token is credited. */
  lemma {:induction false} InstructionIsSplit(befores: seq<Accounts>, afters: seq<Accounts>, committees: seq<Staker>,
                                              subset: nat, slashed: set<string>, shards: nat, reward: Rewards,
                                              e: Entry<string>)
    requires shards >= 1 && |befores| == |afters| == shards && e.token in reward
    requires var payees := Payees(committees, subset, slashed);
             forall s: nat :: s < shards ==> PaidBy(befores[s], afters[s], payees, shards, s, reward)
    ensures forall s :: s in Payees(committees, subset, slashed) ==> s.committeeKey !in slashed && PaidInOne(s, shards)
    ensures forall s :: multiset(Payees(committees, subset, slashed))[s]
              == if s.committeeKey in slashed then 0 else multiset(Subset(committees, subset, |committees|))[s]
    ensures var payees, value := Payees(committees, subset, slashed), reward[e.token];
            payees != [] ==>
              && AccountGrowth(befores, afters, shards, e)
                 == WithReceiver(payees, |payees|, e.key) * (value / |payees|)
              && Growth(befores, afters, shards, e.token) == |payees| * (value / |payees|)
              && value - |payees| < Growth(befores, afters, shards, e.token) <= value
  {
    var payees := Payees(committees, subset, slashed);
    forall s: Staker
      ensures multiset(payees)[s]
           == if s.committeeKey in slashed then 0 else multiset(Subset(committees, subset, |committees|))[s]
    {
      NonSlashedKeepsTheRest(Subset(committees, subset, |committees|), slashed, s);
    }
    EveryMemberPaidOnce(payees, |payees|, shards, e.key);
    if payees != [] {
      forall s: nat | s < shards
        ensures Paid(befores[s], afters[s], payees, |payees|, shards, s, reward, |payees|)
      {
        assert PaidBy(befores[s], afters[s], payees, shards, s, reward);
      }
      RewardIsSplit(befores, afters, payees, shards, reward, e.token);
      AccountGrowthIsShares(befores, afters, payees, shards, reward, shards, e);
    }
  }

  /** Where an instruction pays a receiver whose key ends in byte q * shards + k: in shard k alone. */
  lemma {:induction false} InstructionPaysAtHome(before: Accounts, after: Accounts, committees: seq<Staker>,
                                                 subset: nat, slashed: set<string>, shards: nat, shard: nat,
                                                 reward: Rewards, e: Entry<string>, q: nat, k: nat)
    requires k < shards && e.token in reward
    requires var payees := Payees(committees, subset, slashed);
             OneKey(payees, e.key, q * shards + k) && PaidBy(before, after, payees, shards, shard, reward)
    ensures var payees := Payees(committees, subset, slashed);
            AmountOf(after, e) == AmountOf(before, e)
            + if payees != [] && shard == k then WithReceiver(payees, |payees|, e.key) * (reward[e.token] / |payees|)
              else 0
  {
    var payees := Payees(committees, subset, slashed);
    if payees != [] { PaidAtHome(before, after, payees, shards, shard, reward, e, q, k); }
  }
}
