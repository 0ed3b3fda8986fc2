/**
 Stake requests on their way into a beacon block body (blockchain/beaconproducer.go): filtering
 against known stakers, returning rejected stakes, all over parallel lists.
 */
module Staking {
  import opened Lists

  /** Keys, transaction hashes and receivers are only ever copied and compared. */
  type Key = nat
  type Text = nat

  /** The parallel lists of a stake instruction. */
  datatype StakeInstruction = StakeInstruction(
    publicKeys: seq<Key>, txStakes: seq<Text>, rewardReceivers: seq<Text>, autoStakingFlag: seq<bool>)

  /** One staking request. */
  datatype Stake = Stake(key: Key, tx: Text, receiver: Text, autoStaking: bool)

  predicate Aligned(inst: StakeInstruction)
  {
    |inst.publicKeys| == |inst.txStakes| == |inst.rewardReceivers| == |inst.autoStakingFlag|
  }

  predicate AllAligned(insts: seq<StakeInstruction>)
  {
    forall i :: 0 <= i < |insts| ==> Aligned(insts[i])
  }

  function StakeAt(inst: StakeInstruction, i: nat): Stake
    requires Aligned(inst) && i < |inst.publicKeys|
  {
    Stake(inst.publicKeys[i], inst.txStakes[i], inst.rewardReceivers[i], inst.autoStakingFlag[i])
  }

  /** The first n requests of an instruction. */
  function StakesOf(inst: StakeInstruction, n: nat): (stakes: seq<Stake>)
    requires Aligned(inst) && n <= |inst.publicKeys|
    ensures |stakes| == n
  {
    if n == 0 then [] else StakesOf(inst, n - 1) + [StakeAt(inst, n - 1)]
  }

  lemma {:induction false} StakesAt(inst: StakeInstruction, n: nat, i: nat)
    requires Aligned(inst) && i < n <= |inst.publicKeys|
    ensures StakesOf(inst, n)[i] == StakeAt(inst, i)
  {
    if i < n - 1 { StakesAt(inst, n - 1, i); }
  }

  function Stakes(inst: StakeInstruction): seq<Stake>
    requires Aligned(inst)
  {
    StakesOf(inst, |inst.publicKeys|)
  }

  function KeySet(keys: seq<Key>): set<Key>
  {
    set k | k in keys
  }

  /** Of the first n requests those whose key is free (or, with `free` false, taken), in order. */
  function Select(inst: StakeInstruction, n: nat, taken: set<Key>, free: bool): seq<Stake>
    requires Aligned(inst) && n <= |inst.publicKeys|
  {
    if n == 0 then []
    else Select(inst, n - 1, taken, free)
         + if (inst.publicKeys[n - 1] !in taken) == free then [StakeAt(inst, n - 1)] else []
  }

  function Selected(inst: StakeInstruction, taken: set<Key>, free: bool): seq<Stake>
    requires Aligned(inst)
  {
    Select(inst, |inst.publicKeys|, taken, free)
  }

  /** Keys that occur in the first n instructions. */
  function Seen(insts: seq<StakeInstruction>, n: nat): set<Key>
    requires n <= |insts|
  {
    if n == 0 then {} else Seen(insts, n - 1) + KeySet(insts[n - 1].publicKeys)
  }

  /** Requests of the first n instructions with the given verdict: a request is free when its key is
      not taken and no earlier instruction asks for it. */
  function Judged(insts: seq<StakeInstruction>, n: nat, taken: set<Key>, free: bool): seq<Stake>
    requires AllAligned(insts) && n <= |insts|
  {
    if n == 0 then []
    else Judged(insts, n - 1, taken, free) + Selected(insts[n - 1], taken + Seen(insts, n - 1), free)
  }

  function Accepted(insts: seq<StakeInstruction>, taken: set<Key>): seq<Stake>
    requires AllAligned(insts)
  {
    Judged(insts, |insts|, taken, true)
  }

  function Rejected(insts: seq<StakeInstruction>, taken: set<Key>): seq<Stake>
    requires AllAligned(insts)
  {
    Judged(insts, |insts|, taken, false)
  }

  /** All requests of the first n instructions, in order. */
  function AllStakes(insts: seq<StakeInstruction>, n: nat): seq<Stake>
    requires AllAligned(insts) && n <= |insts|
  {
    if n == 0 then [] else AllStakes(insts, n - 1) + Stakes(insts[n - 1])
  }

  // ---------------------------------------------------------------------------------------------
  // What acceptance means
  // ---------------------------------------------------------------------------------------------

  lemma {:induction false} SelectSplits(inst: StakeInstruction, n: nat, taken: set<Key>)
    requires Aligned(inst) && n <= |inst.publicKeys|
    ensures Splits(Select(inst, n, taken, true), Select(inst, n, taken, false), StakesOf(inst, n))
  {
    if n > 0 {
      SelectSplits(inst, n - 1, taken);
      var s := StakeAt(inst, n - 1);
      var kept, dropped := if s.key !in taken then [s] else [], if s.key !in taken then [] else [s];
      SplitsAppend(Select(inst, n - 1, taken, true), Select(inst, n - 1, taken, false), StakesOf(inst, n - 1),
                   kept, dropped, [s]);
    }
  }

  /** No request is lost, none is counted twice: each ends up accepted or rejected. */
  lemma {:induction false} AcceptedOrRejected(insts: seq<StakeInstruction>, n: nat, taken: set<Key>)
    requires AllAligned(insts) && n <= |insts|
    ensures Splits(Judged(insts, n, taken, true), Judged(insts, n, taken, false), AllStakes(insts, n))
  {
    if n > 0 {
      AcceptedOrRejected(insts, n - 1, taken);
      var inst, now := insts[n - 1], taken + Seen(insts, n - 1);
      SelectSplits(inst, |inst.publicKeys|, now);
      SplitsAppend(Judged(insts, n - 1, taken, true), Judged(insts, n - 1, taken, false), AllStakes(insts, n - 1),
                   Selected(inst, now, true), Selected(inst, now, false), Stakes(inst));
    }
  }

  predicate HasKey(stakes: seq<Stake>, k: Key)
  {
    exists i :: 0 <= i < |stakes| && stakes[i].key == k
  }

  lemma {:induction false} HasKeyConcat(a: seq<Stake>, b: seq<Stake>, k: Key)
    ensures HasKey(a + b, k) <==> HasKey(a, k) || HasKey(b, k)
  {
    var c := a + b;
    if HasKey(a, k) {
      var i :| 0 <= i < |a| && a[i].key == k;
      assert c[i].key == k;
    }
    if HasKey(b, k) {
      var i :| 0 <= i < |b| && b[i].key == k;
      assert c[|a| + i].key == k;
    }
    if i :| 0 <= i < |c| && c[i].key == k {
      assert i < |a| ==> a[i].key == k;
      assert i >= |a| ==> b[i - |a|].key == k;
    }
  }

  lemma {:induction false} SelectKeys(inst: StakeInstruction, n: nat, taken: set<Key>, free: bool, k: Key)
    requires Aligned(inst) && n <= |inst.publicKeys|
    ensures HasKey(Select(inst, n, taken, free), k) <==> k in inst.publicKeys[..n] && (k !in taken) == free
  {
    if n > 0 {
      SelectKeys(inst, n - 1, taken, free, k);
      assert inst.publicKeys[..n] == inst.publicKeys[..n - 1] + [inst.publicKeys[n - 1]];
      var last := if (inst.publicKeys[n - 1] !in taken) == free then [StakeAt(inst, n - 1)] else [];
      HasKeyConcat(Select(inst, n - 1, taken, free), last, k);
      assert HasKey(last, k) <==> inst.publicKeys[n - 1] == k && (k !in taken) == free by {
        if inst.publicKeys[n - 1] == k && (k !in taken) == free { assert last[0].key == k; }
      }
    }
  }

  lemma {:induction false} SelectedKeys(inst: StakeInstruction, taken: set<Key>, k: Key)
    requires Aligned(inst)
    ensures HasKey(Selected(inst, taken, true), k) <==> k in KeySet(inst.publicKeys) && k !in taken
  {
    SelectKeys(inst, |inst.publicKeys|, taken, true, k);
    assert inst.publicKeys[..|inst.publicKeys|] == inst.publicKeys;
  }

  /** A key is accepted exactly when some instruction asks for it and it was not taken before. */
  lemma {:induction false} AcceptedKeys(insts: seq<StakeInstruction>, n: nat, taken: set<Key>, k: Key)
    requires AllAligned(insts) && n <= |insts|
    ensures HasKey(Judged(insts, n, taken, true), k) <==> k in Seen(insts, n) && k !in taken
  {
    if n > 0 {
      AcceptedKeys(insts, n - 1, taken, k);
      SelectedKeys(insts[n - 1], taken + Seen(insts, n - 1), k);
      HasKeyConcat(Judged(insts, n - 1, taken, true), Selected(insts[n - 1], taken + Seen(insts, n - 1), true), k);
    }
  }

  ghost predicate DistinctKeys(stakes: seq<Stake>)
  {
    forall i, j :: 0 <= i < j < |stakes| ==> stakes[i].key != stakes[j].key
  }

  /** Within each instruction a key occurs once. */
  ghost predicate EachWithoutRepeats(insts: seq<StakeInstruction>)
  {
    forall i :: 0 <= i < |insts| ==> NoRepeats(insts[i].publicKeys)
  }

  lemma {:induction false} DistinctConcat(a: seq<Stake>, b: seq<Stake>)
    requires DistinctKeys(a) && DistinctKeys(b) && forall i :: 0 <= i < |b| ==> !HasKey(a, b[i].key)
    ensures DistinctKeys(a + b)
  {
    var c := a + b;
    forall i, j | 0 <= i < j < |c|
      ensures c[i].key != c[j].key
    {
      if i < |a| <= j { assert !HasKey(a, b[j - |a|].key); }
    }
  }

  lemma {:induction false} SelectDistinct(inst: StakeInstruction, n: nat, taken: set<Key>, free: bool)
    requires Aligned(inst) && n <= |inst.publicKeys| && NoRepeats(inst.publicKeys)
    ensures DistinctKeys(Select(inst, n, taken, free))
  {
    if n > 0 {
      SelectDistinct(inst, n - 1, taken, free);
      SelectKeys(inst, n - 1, taken, free, inst.publicKeys[n - 1]);
      DistinctConcat(Select(inst, n - 1, taken, free), [StakeAt(inst, n - 1)]);
    }
  }

  /** With distinct keys inside each instruction, accepted keys are distinct over all of them. */
  lemma {:induction false} AcceptedAreDistinct(insts: seq<StakeInstruction>, n: nat, taken: set<Key>)
    requires AllAligned(insts) && n <= |insts| && EachWithoutRepeats(insts)
    ensures DistinctKeys(Judged(insts, n, taken, true))
  {
    if n > 0 {
      AcceptedAreDistinct(insts, n - 1, taken);
      var inst, now := insts[n - 1], taken + Seen(insts, n - 1);
      SelectDistinct(inst, |inst.publicKeys|, now, true);
      var a, b := Judged(insts, n - 1, taken, true), Selected(inst, now, true);
      forall i | 0 <= i < |b|
        ensures !HasKey(a, b[i].key)
      {
        assert HasKey(b, b[i].key);
        SelectedKeys(inst, now, b[i].key);
        AcceptedKeys(insts, n - 1, taken, b[i].key);
      }
      DistinctConcat(a, b);
    }
  }

  lemma {:induction false} Prefix(a: seq<StakeInstruction>, b: seq<StakeInstruction>, n: nat, taken: set<Key>,
                                  free: bool)
    requires AllAligned(a) && AllAligned(a + b) && n <= |a|
    ensures Seen(a + b, n) == Seen(a, n) && AllStakes(a + b, n) == AllStakes(a, n)
    ensures Judged(a + b, n, taken, free) == Judged(a, n, taken, free)
  {
    if n > 0 { Prefix(a, b, n - 1, taken, free); }
  }

  lemma {:induction false} SeenConcat(a: seq<StakeInstruction>, b: seq<StakeInstruction>, n: nat)
    requires AllAligned(a) && AllAligned(a + b) && n <= |b|
    ensures Seen(a + b, |a| + n) == Seen(a, |a|) + Seen(b, n)
  {
    if n == 0 { Prefix(a, b, |a|, {}, true); } else { SeenConcat(a, b, n - 1); }
  }

  lemma {:induction false} Associative<T>(a: seq<T>, b: seq<T>, c: seq<T>)
    ensures (a + b) + c == a + (b + c)
  {
  }

  lemma {:induction false} AllStakesConcat(a: seq<StakeInstruction>, b: seq<StakeInstruction>, n: nat)
    requires AllAligned(a) && AllAligned(b) && AllAligned(a + b) && n <= |b|
    ensures AllStakes(a + b, |a| + n) == AllStakes(a, |a|) + AllStakes(b, n)
  {
    if n == 0 {
      Prefix(a, b, |a|, {}, true);
    } else {
      AllStakesConcat(a, b, n - 1);
      var all, m, last := a + b, |a| + n - 1, Stakes(b[n - 1]);
      assert all[m] == b[n - 1];
      assert AllStakes(all, m + 1) == AllStakes(all, m) + last;
      Associative(AllStakes(a, |a|), AllStakes(b, n - 1), last);
    }
  }

  /** Shard block by shard block is the same as all instructions in one go: what earlier blocks asked
      for simply counts as taken. */
  lemma {:induction false} JudgedConcat(a: seq<StakeInstruction>, b: seq<StakeInstruction>, n: nat, taken: set<Key>,
                                        free: bool)
    requires AllAligned(a) && AllAligned(b) && AllAligned(a + b) && n <= |b|
    ensures Judged(a + b, |a| + n, taken, free) == Judged(a, |a|, taken, free)
        + Judged(b, n, taken + Seen(a, |a|), free)
  {
    if n == 0 {
      Prefix(a, b, |a|, taken, free);
    } else {
      JudgedConcat(a, b, n - 1, taken, free);
      SeenConcat(a, b, n - 1);
      var mid := taken + Seen(a, |a|);
      assert (a + b)[|a| + n - 1] == b[n - 1];
      assert taken + Seen(a + b, |a| + n - 1) == mid + Seen(b, n - 1);
      Associative(Judged(a, |a|, taken, free), Judged(b, n - 1, mid, free),
                  Selected(b[n - 1], mid + Seen(b, n - 1), free));
    }
  }

  // ---------------------------------------------------------------------------------------------
  // The loops over parallel lists
  // ---------------------------------------------------------------------------------------------

  /** Of the first n keys those outside the set, in order. */
  function Without(keys: seq<Key>, n: nat, out: set<Key>): (r: seq<Key>)
    requires n <= |keys|
    ensures |r| <= n
  {
    if n == 0 then [] else Without(keys, n - 1, out) + if keys[n - 1] !in out then [keys[n - 1]] else []
  }

  lemma {:induction false} WithoutHas(keys: seq<Key>, n: nat, out: set<Key>, k: Key)
    requires n <= |keys|
    ensures k in Without(keys, n, out) <==> k in keys[..n] && k !in out
  {
    if n > 0 {
      WithoutHas(keys, n - 1, out, k);
      assert keys[..n] == keys[..n - 1] + [keys[n - 1]];
    }
  }

  lemma {:induction false} WithoutPrefix(a: seq<Key>, b: seq<Key>, n: nat, out: set<Key>)
    requires n <= |a|
    ensures Without(a + b, n, out) == Without(a, n, out)
  {
    if n > 0 { WithoutPrefix(a, b, n - 1, out); }
  }

  /** Leaving out one set and then another is leaving out both. */
  lemma {:induction false} WithoutBoth(keys: seq<Key>, n: nat, a: set<Key>, b: set<Key>)
    requires n <= |keys|
    ensures Without(Without(keys, n, a), |Without(keys, n, a)|, b) == Without(keys, n, a + b)
  {
    if n > 0 {
      WithoutBoth(keys, n - 1, a, b);
      var rest, last := Without(keys, n - 1, a), keys[n - 1];
      if last !in a {
        WithoutPrefix(rest, [last], |rest|, b);
        var longer := rest + [last];
        assert longer[|rest|] == last;
        assert Without(longer, |rest| + 1, b) == Without(rest, |rest|, b) + if last !in b then [last] else [];
      } else {
        assert Without(keys, n, a) == rest;
      }
    }
  }

  /** Nothing was left out exactly when the length stayed the same. */
  lemma {:induction false} WithoutNone(keys: seq<Key>, n: nat, out: set<Key>)
    requires n <= |keys|
    ensures |Without(keys, n, out)| == n <==> forall i :: 0 <= i < n ==> keys[i] !in out
  {
    if n > 0 { WithoutNone(keys, n - 1, out); }
  }

  /** The stakers that are not in the committee, in order. */
  method GetValidStaker(committees: seq<Key>, stakers: seq<Key>) returns (valid: seq<Key>)
    ensures valid == Without(stakers, |stakers|, KeySet(committees))
  {
    valid := [];
    for i := 0 to |stakers|
      invariant valid == Without(stakers, i, KeySet(committees))
    {
      if stakers[i] !in committees {
        valid := valid + [stakers[i]];
      }
    }
  }

  /** The elements of the longer list that the shorter one lacks. */
  method DifferentElements(src1: seq<Key>, src2: seq<Key>) returns (res: seq<Key>)
    ensures |src1| >= |src2| ==> res == Without(src1, |src1|, KeySet(src2))
    ensures |src1| < |src2| ==> res == Without(src2, |src2|, KeySet(src1))
  {
    var long, short := src1, src2;
    if |src1| < |src2| { long, short := src2, src1; }
    res := [];
    for i := 0 to |long|
      invariant res == Without(long, i, KeySet(short))
    {
      if long[i] !in short {
        res := res + [long[i]];
      }
    }
  }

  function Append(a: StakeInstruction, b: StakeInstruction): StakeInstruction
  {
    StakeInstruction(a.publicKeys + b.publicKeys, a.txStakes + b.txStakes,
                     a.rewardReceivers + b.rewardReceivers, a.autoStakingFlag + b.autoStakingFlag)
  }

  lemma {:induction false} AppendStakes(a: StakeInstruction, b: StakeInstruction)
    requires Aligned(a) && Aligned(b)
    ensures Aligned(Append(a, b)) && Stakes(Append(a, b)) == Stakes(a) + Stakes(b)
  {
    var c, whole := Append(a, b), Stakes(a) + Stakes(b);
    forall i | 0 <= i < |c.publicKeys|
      ensures Stakes(c)[i] == whole[i]
    {
      StakesAt(c, |c.publicKeys|, i);
      if i < |a.publicKeys| {
        StakesAt(a, |a.publicKeys|, i);
      } else {
        StakesAt(b, |b.publicKeys|, i - |a.publicKeys|);
      }
    }
  }

  lemma {:induction false} KeysOfStakes(inst: StakeInstruction, k: Key)
    requires Aligned(inst)
    ensures k in inst.publicKeys <==> HasKey(Stakes(inst), k)
  {
    if k in inst.publicKeys {
      var i :| 0 <= i < |inst.publicKeys| && inst.publicKeys[i] == k;
      StakesAt(inst, |inst.publicKeys|, i);
    }
    if i :| 0 <= i < |Stakes(inst)| && Stakes(inst)[i].key == k {
      StakesAt(inst, |inst.publicKeys|, i);
    }
  }

  function EntryAt(inst: StakeInstruction, i: nat): (one: StakeInstruction)
    requires Aligned(inst) && i < |inst.publicKeys|
    ensures Aligned(one) && Stakes(one) == [StakeAt(inst, i)]
  {
    var one := StakeInstruction([inst.publicKeys[i]], [inst.txStakes[i]], [inst.rewardReceivers[i]],
                                [inst.autoStakingFlag[i]]);
    assert Stakes(one) == StakesOf(one, 0) + [StakeAt(one, 0)];
    one
  }

  /** The keys were filtered on their own; the other three lists are filtered by looking each key up
      among them. Together they are again aligned, entry by entry. */
  method Pick(inst: StakeInstruction, keys: seq<Key>, ghost out: set<Key>) returns (picked: StakeInstruction)
    requires Aligned(inst) && keys == Without(inst.publicKeys, |inst.publicKeys|, out)
    ensures Aligned(picked) && picked.publicKeys == keys && Stakes(picked) == Selected(inst, out, true)
  {
    var txs, receivers, flags := [], [], [];
    ghost var soFar := StakeInstruction([], [], [], []);
    for i := 0 to |inst.publicKeys|
      invariant soFar == StakeInstruction(Without(inst.publicKeys, i, out), txs, receivers, flags)
      invariant Aligned(soFar) && Stakes(soFar) == Select(inst, i, out, true)
    {
      WithoutHas(inst.publicKeys, |inst.publicKeys|, out, inst.publicKeys[i]);
      if inst.publicKeys[i] in keys {
        AppendStakes(soFar, EntryAt(inst, i));
        soFar := Append(soFar, EntryAt(inst, i));
        txs := txs + [inst.txStakes[i]];
        receivers := receivers + [inst.rewardReceivers[i]];
        flags := flags + [inst.autoStakingFlag[i]];
      }
    }
    picked := StakeInstruction(keys, txs, receivers, flags);
  }

  /** Selecting outside one set is selecting inside another when the two disagree on every key. */
  lemma {:induction false} SelectOther(inst: StakeInstruction, n: nat, out: set<Key>, taken: set<Key>)
    requires Aligned(inst) && n <= |inst.publicKeys|
    requires forall i :: 0 <= i < n ==> (inst.publicKeys[i] !in out <==> inst.publicKeys[i] in taken)
    ensures Select(inst, n, out, true) == Select(inst, n, taken, false)
  {
    if n > 0 { SelectOther(inst, n - 1, out, taken); }
  }

  lemma {:induction false} SelectNone(inst: StakeInstruction, n: nat, taken: set<Key>)
    requires Aligned(inst) && n <= |inst.publicKeys|
    requires forall i :: 0 <= i < n ==> inst.publicKeys[i] !in taken
    ensures Select(inst, n, taken, false) == []
  {
    if n > 0 { SelectNone(inst, n - 1, taken); }
  }

  /** An instruction's keys, filtered against four lists one after the other. */
  method FreeKeys(keys: seq<Key>, stakers: seq<Key>, earlier: seq<Key>, valid: seq<Key>, candidates: seq<Key>)
    returns (free: seq<Key>)
    ensures free == Without(keys, |keys|, KeySet(stakers) + KeySet(earlier) + KeySet(valid) + KeySet(candidates))
  {
    var s, e, v := KeySet(stakers), KeySet(earlier), KeySet(valid);
    free := GetValidStaker(stakers, keys);
    free := GetValidStaker(earlier, free);
    WithoutBoth(keys, |keys|, s, e);
    free := GetValidStaker(valid, free);
    WithoutBoth(keys, |keys|, s + e, v);
    free := GetValidStaker(candidates, free);
    WithoutBoth(keys, |keys|, s + e + v, KeySet(candidates));
  }

  /** An instruction without entries is not written at all. */
  function NonEmpty(inst: StakeInstruction): (r: seq<StakeInstruction>)
    requires Aligned(inst)
    ensures AllAligned(r) && AllStakes(r, |r|) == Stakes(inst)
    ensures |r| <= 1 && forall i :: 0 <= i < |r| ==> r[i].publicKeys != []
  {
    assert AllStakes([inst], 0) == [];
    if |inst.publicKeys| > 0 then [inst] else []
  }

  /** The rejected entries of an instruction, or none. */
  method Duplicates(inst: StakeInstruction, free: seq<Key>, ghost taken: set<Key>)
    returns (duplicates: seq<StakeInstruction>)
    requires Aligned(inst) && free == Without(inst.publicKeys, |inst.publicKeys|, taken)
    ensures AllAligned(duplicates) && AllStakes(duplicates, |duplicates|) == Selected(inst, taken, false)
    ensures |duplicates| <= 1 && forall i :: 0 <= i < |duplicates| ==> duplicates[i].publicKeys != []
  {
    var n := |inst.publicKeys|;
    if n == |free| {
      WithoutNone(inst.publicKeys, n, taken);
      SelectNone(inst, n, taken);
      return [];
    }
    var keys := DifferentElements(inst.publicKeys, free);
    forall i | 0 <= i < n
      ensures inst.publicKeys[i] !in KeySet(free) <==> inst.publicKeys[i] in taken
    {
      WithoutHas(inst.publicKeys, n, taken, inst.publicKeys[i]);
    }
    SelectOther(inst, n, KeySet(free), taken);
    var rest := Pick(inst, keys, KeySet(free));
    duplicates := NonEmpty(rest);
  }

  /** The keys a stake request must avoid before the first instruction of a shard block. */
  function Taken(stakers: seq<Key>, valid: seq<Key>, candidates: seq<Key>): set<Key>
  {
    KeySet(stakers) + KeySet(valid) + KeySet(candidates)
  }

  function Joined(a: seq<StakeInstruction>, b: seq<StakeInstruction>): (r: seq<StakeInstruction>)
    requires AllAligned(a) && AllAligned(b)
    ensures AllAligned(r) && AllStakes(r, |r|) == AllStakes(a, |a|) + AllStakes(b, |b|)
  {
    AllStakesConcat(a, b, |b|);
    a + b
  }

  /** processShardStakeInstructionFromShardBlock: `stakers` and `candidates` are the view's own keys,
      `valid` those accepted from earlier shard blocks; `returnsRejected` holds after self-swap. */
  method ProcessShardStake(insts: seq<StakeInstruction>, stakers: seq<Key>, candidates: seq<Key>, valid: seq<Key>,
                           returnsRejected: bool)
    returns (stakes: seq<StakeInstruction>, duplicates: seq<StakeInstruction>)
    requires AllAligned(insts)
    ensures AllAligned(stakes) && AllStakes(stakes, |stakes|) == Accepted(insts, Taken(stakers, valid, candidates))
    ensures |stakes| <= 1 && forall i :: 0 <= i < |stakes| ==> stakes[i].publicKeys != []
    ensures AllAligned(duplicates)
    ensures returnsRejected ==>
        AllStakes(duplicates, |duplicates|) == Rejected(insts, Taken(stakers, valid, candidates))
    ensures !returnsRejected ==> duplicates == []
  {
    var stake := StakeInstruction([], [], [], []);
    duplicates := [];
    ghost var taken := Taken(stakers, valid, candidates);
    for i := 0 to |insts|
      invariant Aligned(stake) && Stakes(stake) == Judged(insts, i, taken, true)
      invariant AllAligned(duplicates)
      invariant returnsRejected ==> AllStakes(duplicates, |duplicates|) == Judged(insts, i, taken, false)
      invariant !returnsRejected ==> duplicates == []
    {
      var picked, rest := Judge(insts, i, stake, stakers, candidates, valid);
      AppendStakes(stake, picked);
      stake := Append(stake, picked);
      if returnsRejected {
        duplicates := Joined(duplicates, rest);
      }
    }
    stakes := NonEmpty(stake);
  }

  /** One instruction: its accepted and its rejected entries. */
  method Judge(insts: seq<StakeInstruction>, i: nat, stake: StakeInstruction, stakers: seq<Key>, candidates: seq<Key>,
               valid: seq<Key>)
    returns (picked: StakeInstruction, rest: seq<StakeInstruction>)
    requires AllAligned(insts) && i < |insts| && Aligned(stake)
    requires Stakes(stake) == Judged(insts, i, Taken(stakers, valid, candidates), true)
    ensures Aligned(picked)
        && Stakes(picked) == Selected(insts[i], Taken(stakers, valid, candidates) + Seen(insts, i), true)
    ensures AllAligned(rest)
        && AllStakes(rest, |rest|) == Selected(insts[i], Taken(stakers, valid, candidates) + Seen(insts, i), false)
  {
    var inst := insts[i];
    ghost var own := Taken(stakers, valid, candidates);
    ghost var now := own + Seen(insts, i);
    var keys := FreeKeys(inst.publicKeys, stakers, stake.publicKeys, valid, candidates);
    ghost var out := KeySet(stakers) + KeySet(stake.publicKeys) + KeySet(valid) + KeySet(candidates);
    forall k
      ensures k in out <==> k in now
    {
      KeysOfStakes(stake, k);
      AcceptedKeys(insts, i, own, k);
    }
    assert out == now;
    picked := Pick(inst, keys, now);
    rest := Duplicates(inst, keys, now);
  }
}
