/**
 Epochs with two lengths and the random-number flag (blockchain/blockchain.go:964-1118,
 blockchain/beaconprocess.go, blockchain/beaconproducer.go).

 Epochs before the break point have the old length, those from it on the new one.
 */
module Epoch {
  import opened Arithmetic

  datatype Params = Params(length: nat, breakPoint: nat, lengthV2: nat, randomTime: nat, randomTimeV2: nat)

  /** What the functions below presuppose of the configuration. */
  predicate Configured(p: Params)
  {
    && p.breakPoint >= 1 && p.length >= 2 && p.lengthV2 >= 2
    && 0 < p.randomTime < p.length && 0 < p.randomTimeV2 < p.lengthV2
  }

  function BlocksBeforeBreakPoint(p: Params): nat
    requires p.breakPoint >= 1
  {
    p.length * (p.breakPoint - 1)
  }

  /** x divided by d, rounded up. */
  function CeilDiv(x: nat, d: nat): nat
    requires d > 0
  {
    if x % d == 0 then x / d else x / d + 1
  }

  function GetEpochByHeight(p: Params, height: nat): nat
    requires Configured(p)
  {
    var total := BlocksBeforeBreakPoint(p);
    if height < total + 1 then CeilDiv(height, p.length)
    else Quotient(total, p.length) + CeilDiv(height - total, p.lengthV2)
  }

  function GetEpochAndIsFirstHeightInEpoch(p: Params, height: nat): (nat, bool)
    requires Configured(p)
  {
    var total := BlocksBeforeBreakPoint(p);
    if height < total + 1 then
      var newEpoch := Quotient(height, p.length) + 1;
      if height % p.length == 1 then (newEpoch, height != 1)
      else if height % p.length == 0 then (newEpoch - 1, false)
      else (newEpoch, false)
    else
      (p.breakPoint - 1 + CeilDiv(height - total, p.lengthV2), (height - total) % p.lengthV2 == 1)
  }

  predicate IsFirstBeaconHeightInEpoch(p: Params, height: nat)
    requires Configured(p)
  {
    GetEpochAndIsFirstHeightInEpoch(p, height).1
  }

  function GetRandomTimeInEpoch(p: Params, epoch: nat): nat
    requires Configured(p) && epoch >= 1
  {
    if epoch < p.breakPoint then (epoch - 1) * p.length + p.randomTime
    else BlocksBeforeBreakPoint(p) + ((epoch - p.breakPoint) * p.lengthV2 + p.randomTimeV2)
  }

  function GetFirstBeaconHeightInEpoch(p: Params, epoch: nat): nat
    requires Configured(p) && epoch >= 1
  {
    if epoch < p.breakPoint then (epoch - 1) * p.length + 1
    else BlocksBeforeBreakPoint(p) + ((epoch - p.breakPoint) * p.lengthV2 + 1)
  }

  function GetLastBeaconHeightInEpoch(p: Params, epoch: nat): nat
    requires Configured(p) && epoch >= 1
  {
    if epoch < p.breakPoint then epoch * p.length
    else BlocksBeforeBreakPoint(p) + (epoch - p.breakPoint + 1) * p.lengthV2
  }

  predicate IsGreaterThanRandomTime(p: Params, height: nat)
    requires Configured(p)
  {
    var total := BlocksBeforeBreakPoint(p);
    if height < total then height % p.length > p.randomTime
    else (height - total) % p.lengthV2 > p.randomTimeV2
  }

  predicate IsEqualToRandomTime(p: Params, height: nat)
    requires Configured(p)
  {
    var total := BlocksBeforeBreakPoint(p);
    if height < total then height % p.length == p.randomTime
    else (height - total) % p.lengthV2 == p.randomTimeV2
  }

  // ---------------------------------------------------------------------------------------------
  // One stretch of equal epochs
  // ---------------------------------------------------------------------------------------------

  /** x is the r-th of the d places of group c: what its quotient and remainder are. */
  lemma {:induction false} InGroup(x: nat, d: nat, c: nat, r: nat)
    requires d > 0 && c >= 1 && 1 <= r <= d && x == (c - 1) * d + r
    ensures CeilDiv(x, d) == c
    ensures x % d == if r == d then 0 else r
    ensures x / d == if r == d then c else c - 1
  {
    if r == d {
      assert x == c * d;
      DivUnique(x, d, c);
    } else {
      DivUnique(x, d, c - 1);
    }
  }

  /** Every x >= 1 has its place. */
  lemma {:induction false} GroupOf(x: nat, d: nat) returns (c: nat, r: nat)
    requires d > 0 && x >= 1
    ensures c >= 1 && 1 <= r <= d && x == (c - 1) * d + r
  {
    DivMod(x, d);
    DivNonNegative(x, d);
    if x % d == 0 {
      c, r := x / d, d;
    } else {
      c, r := x / d + 1, x % d;
    }
  }

  /** Groups of a smaller number come first. */
  lemma {:induction false} GroupBound(x: nat, d: nat, c: nat, r: nat, groups: nat)
    requires d > 0 && c >= 1 && 1 <= r <= d && x == (c - 1) * d + r
    ensures x <= groups * d <==> c <= groups
  {
    if c <= groups { MulMonotone(c, groups, d); } else { MulMonotone(groups, c - 1, d); }
  }

  // ---------------------------------------------------------------------------------------------
  // Heights and epochs
  // ---------------------------------------------------------------------------------------------

  function LengthOf(p: Params, epoch: nat): nat
  {
    if epoch < p.breakPoint then p.length else p.lengthV2
  }

  function RandomTimeOf(p: Params, epoch: nat): nat
  {
    if epoch < p.breakPoint then p.randomTime else p.randomTimeV2
  }

  /** The r-th height of an epoch. */
  function HeightOf(p: Params, epoch: nat, r: nat): nat
    requires Configured(p) && epoch >= 1
  {
    if epoch < p.breakPoint then (epoch - 1) * p.length + r
    else BlocksBeforeBreakPoint(p) + (epoch - p.breakPoint) * p.lengthV2 + r
  }

  lemma {:induction false} BoundariesOfEpoch(p: Params, epoch: nat)
    requires Configured(p) && epoch >= 1
    ensures GetFirstBeaconHeightInEpoch(p, epoch) == HeightOf(p, epoch, 1)
    ensures GetLastBeaconHeightInEpoch(p, epoch) == HeightOf(p, epoch, LengthOf(p, epoch))
    ensures GetRandomTimeInEpoch(p, epoch) == HeightOf(p, epoch, RandomTimeOf(p, epoch))
    ensures HeightOf(p, epoch + 1, 0) == HeightOf(p, epoch, LengthOf(p, epoch))
  {
    assert (epoch - 1) * p.length + p.length == epoch * p.length;
  }

  /** Every height from 1 on has its epoch and its place there. */
  lemma {:induction false} PlaceOf(p: Params, height: nat) returns (epoch: nat, r: nat)
    requires Configured(p) && height >= 1
    ensures epoch >= 1 && 1 <= r <= LengthOf(p, epoch) && height == HeightOf(p, epoch, r)
  {
    var total := BlocksBeforeBreakPoint(p);
    if height <= total {
      epoch, r := GroupOf(height, p.length);
      GroupBound(height, p.length, epoch, r, p.breakPoint - 1);
    } else {
      var c;
      c, r := GroupOf(height - total, p.lengthV2);
      epoch := p.breakPoint - 1 + c;
    }
  }

  /** What all the height functions say about the r-th height of an epoch. */
  ghost predicate PlaceAgrees(p: Params, epoch: nat, r: nat)
    requires Configured(p) && epoch >= 1
  {
    var height := HeightOf(p, epoch, r);
    && height >= 1
    && GetEpochByHeight(p, height) == epoch
    && GetEpochAndIsFirstHeightInEpoch(p, height) == (epoch, r == 1 && (height != 1 || p.breakPoint == 1))
    && (IsEqualToRandomTime(p, height) <==> r == RandomTimeOf(p, epoch))
    && (IsGreaterThanRandomTime(p, height) <==> RandomTimeOf(p, epoch) < r < LengthOf(p, epoch))
  }

  /** The functions at a height before the break point, from its quotient and remainder. */
  lemma {:induction false} FunctionsBefore(p: Params, height: nat, epoch: nat, r: nat)
    requires Configured(p) && 1 <= epoch < p.breakPoint && 1 <= r <= p.length
    requires 1 <= height <= BlocksBeforeBreakPoint(p) && (height == BlocksBeforeBreakPoint(p) ==> r == p.length)
    requires CeilDiv(height, p.length) == epoch && 0 % p.lengthV2 == 0
    requires height % p.length == (if r == p.length then 0 else r)
    requires Quotient(height, p.length) == if r == p.length then epoch else epoch - 1
    ensures GetEpochByHeight(p, height) == epoch
    ensures GetEpochAndIsFirstHeightInEpoch(p, height) == (epoch, r == 1 && height != 1)
    ensures IsEqualToRandomTime(p, height) <==> r == p.randomTime
    ensures IsGreaterThanRandomTime(p, height) <==> p.randomTime < r < p.length
  {
  }

  lemma {:induction false} LastOfStretch(d: nat, groups: nat, c: nat, r: nat)
    requires d > 0 && 1 <= c <= groups && 1 <= r <= d && (c - 1) * d + r == groups * d
    ensures r == d
  {
    MulMonotone(c, groups, d);
    assert (c - 1) * d == c * d - d;
  }

  /** Quotient and remainder of the r-th place of group c, among `groups` groups of d. */
  lemma {:induction false} PlaceInStretch(d: nat, groups: nat, c: nat, r: nat, x: nat, total: nat)
    requires d > 0 && 1 <= c <= groups && 1 <= r <= d && x == (c - 1) * d + r && total == groups * d
    ensures 1 <= x <= total && (x == total ==> r == d)
    ensures CeilDiv(x, d) == c && x % d == (if r == d then 0 else r) && Quotient(x, d) == if r == d then c else c - 1
  {
    MulMonotone(0, c - 1, d);
    InGroup(x, d, c, r);
    GroupBound(x, d, c, r, groups);
    if x == total { LastOfStretch(d, groups, c, r); }
  }

  lemma {:induction false} AtPlaceBefore(p: Params, epoch: nat, r: nat)
    requires Configured(p) && 1 <= epoch < p.breakPoint && 1 <= r <= p.length
    ensures PlaceAgrees(p, epoch, r)
  {
    var height, total := HeightOf(p, epoch, r), BlocksBeforeBreakPoint(p);
    assert total == (p.breakPoint - 1) * p.length;
    PlaceInStretch(p.length, p.breakPoint - 1, epoch, r, height, total);
    MulDiv(0, p.lengthV2);
    FunctionsBefore(p, height, epoch, r);
  }

  lemma {:induction false} AtPlaceAfter(p: Params, epoch: nat, r: nat)
    requires Configured(p) && epoch >= p.breakPoint && 1 <= r <= p.lengthV2
    ensures PlaceAgrees(p, epoch, r)
  {
    var total, height, c := BlocksBeforeBreakPoint(p), HeightOf(p, epoch, r), epoch - p.breakPoint + 1;
    MulDiv(p.breakPoint - 1, p.length);
    assert total == (p.breakPoint - 1) * p.length;
    MulMonotone(0, c - 1, p.lengthV2);
    InGroup(height - total, p.lengthV2, c, r);
  }

  lemma {:induction false} AtPlace(p: Params, epoch: nat, r: nat)
    requires Configured(p) && epoch >= 1 && 1 <= r <= LengthOf(p, epoch)
    ensures PlaceAgrees(p, epoch, r)
  {
    if epoch < p.breakPoint { AtPlaceBefore(p, epoch, r); } else { AtPlaceAfter(p, epoch, r); }
  }

  /** The five functions agree: epoch(h) = e exactly between First(e) and Last(e), epochs adjoin, the
      second epoch function and the random-time test answer alike; height 1 alone is not reported as
      a first height, unless the break point is 1. */
  lemma {:induction false} EpochFunctionsAgree(p: Params, height: nat, epoch: nat)
    requires Configured(p) && height >= 1 && epoch >= 1
    ensures GetEpochByHeight(p, height) == epoch <==>
            GetFirstBeaconHeightInEpoch(p, epoch) <= height <= GetLastBeaconHeightInEpoch(p, epoch)
    ensures GetLastBeaconHeightInEpoch(p, epoch) + 1 == GetFirstBeaconHeightInEpoch(p, epoch + 1)
    ensures GetEpochByHeight(p, height) >= 1
    ensures GetEpochAndIsFirstHeightInEpoch(p, height).0 == GetEpochByHeight(p, height)
    ensures IsFirstBeaconHeightInEpoch(p, height) <==>
            height == GetFirstBeaconHeightInEpoch(p, GetEpochByHeight(p, height)) && (height != 1 || p.breakPoint == 1)
    ensures IsEqualToRandomTime(p, height) <==> height == GetRandomTimeInEpoch(p, GetEpochByHeight(p, height))
  {
    var e, r := PlaceOf(p, height);
    AtPlace(p, e, r);
    BoundariesOfEpoch(p, e);
    BoundariesOfEpoch(p, epoch);
    BoundariesOfEpoch(p, epoch + 1);
    if GetFirstBeaconHeightInEpoch(p, epoch) <= height <= GetLastBeaconHeightInEpoch(p, epoch) {
      var place := height - HeightOf(p, epoch, 0);
      AtPlace(p, epoch, place);
    }
  }

  // ---------------------------------------------------------------------------------------------
  // Runs
  // ---------------------------------------------------------------------------------------------

  datatype View = View(height: nat, epoch: nat, gotRandom: bool)

  datatype Header = Header(height: nat, epoch: nat, hasRandom: bool)

  const GENESIS := View(1, 1, false)

  /** The height and epoch checks on a new block. */
  predicate Accepts(p: Params, v: View, b: Header)
    requires Configured(p)
  {
    && b.height == v.height + 1
    && b.epoch == if IsFirstBeaconHeightInEpoch(p, b.height) then v.epoch + 1 else v.epoch
  }

  /** A random instruction sets the flag, the first height of an epoch clears it. */
  function NextFlag(isFirst: bool, hasRandom: bool, gotRandom: bool): bool
  {
    !isFirst && (gotRandom || hasRandom)
  }

  /** State after a block. */
  function Process(p: Params, b: Header, v: View): View
    requires Configured(p)
  {
    var isFirst := IsFirstBeaconHeightInEpoch(p, b.height) && b.height != 1;
    View(b.height, b.epoch, NextFlag(isFirst, b.hasRandom, v.gotRandom))
  }

  /** The block a producer builds on a view. */
  function Produce(p: Params, v: View): Header
    requires Configured(p)
  {
    Header(v.height + 1, GetEpochAndIsFirstHeightInEpoch(p, v.height + 1).0,
           IsGreaterThanRandomTime(p, v.height + 1) && !v.gotRandom)
  }

  function ViewAfter(p: Params, blocks: seq<Header>): View
    requires Configured(p)
  {
    if blocks == [] then GENESIS else Process(p, blocks[|blocks| - 1], ViewAfter(p, blocks[..|blocks| - 1]))
  }

  predicate AcceptedRun(p: Params, blocks: seq<Header>)
    requires Configured(p)
  {
    blocks != [] ==>
      AcceptedRun(p, blocks[..|blocks| - 1]) && Accepts(p, ViewAfter(p, blocks[..|blocks| - 1]), blocks[|blocks| - 1])
  }

  /** The next height is in the next epoch exactly when it is reported as a first height. */
  lemma {:induction false} NextHeight(p: Params, height: nat)
    requires Configured(p) && height >= 1
    ensures GetEpochByHeight(p, height + 1)
         == GetEpochByHeight(p, height) + if IsFirstBeaconHeightInEpoch(p, height + 1) then 1 else 0
  {
    var e, r := PlaceOf(p, height);
    AtPlace(p, e, r);
    if r < LengthOf(p, e) {
      AtPlace(p, e, r + 1);
    } else {
      BoundariesOfEpoch(p, e);
      AtPlace(p, e + 1, 1);
    }
  }

  /** Every accepted run keeps the state's epoch equal to the epoch of its height. */
  lemma {:induction false} AcceptedRunKeepsEpoch(p: Params, blocks: seq<Header>)
    requires Configured(p) && AcceptedRun(p, blocks)
    ensures var v := ViewAfter(p, blocks);
            v.height == |blocks| + 1 && v.epoch == GetEpochByHeight(p, v.height)
  {
    if blocks == [] {
      GenesisEpoch(p);
    } else {
      var front := blocks[..|blocks| - 1];
      AcceptedRunKeepsEpoch(p, front);
      NextHeight(p, |front| + 1);
    }
  }

  lemma {:induction false} GenesisEpoch(p: Params)
    requires Configured(p)
    ensures GetEpochByHeight(p, 1) == 1
  {
    AtPlace(p, 1, 1);
  }

  /** What producers build is accepted. */
  lemma {:induction false} ProducedIsAccepted(p: Params, blocks: seq<Header>)
    requires Configured(p) && AcceptedRun(p, blocks)
    ensures Accepts(p, ViewAfter(p, blocks), Produce(p, ViewAfter(p, blocks)))
  {
    AcceptedRunKeepsEpoch(p, blocks);
    NextHeight(p, |blocks| + 1);
    EpochFunctionsAgree(p, |blocks| + 2, 1);
  }

  /** The blocks built one on the other from genesis; block i has height i + 2. */
  function Produced(p: Params, n: nat): (blocks: seq<Header>)
    requires Configured(p)
    ensures |blocks| == n
  {
    if n == 0 then [] else Produced(p, n - 1) + [Produce(p, ViewAfter(p, Produced(p, n - 1)))]
  }

  lemma {:induction false} ProducedRunAccepted(p: Params, n: nat)
    requires Configured(p)
    ensures AcceptedRun(p, Produced(p, n))
  {
    if n > 0 {
      ProducedRunAccepted(p, n - 1);
      ProducedIsAccepted(p, Produced(p, n - 1));
      assert Produced(p, n)[..n - 1] == Produced(p, n - 1);
    }
  }

  /** The epoch leaves room for a random instruction between the random time and its last height. */
  predicate HasRoom(p: Params, epoch: nat)
  {
    RandomTimeOf(p, epoch) + 1 < LengthOf(p, epoch)
  }

  /** The flag part of building and processing one block at the r-th of `length` heights. */
  lemma {:induction false} FlagStep(isFirst: bool, isGreater: bool, got: bool, r: nat, randomTime: nat, length: nat)
    requires 1 <= r <= length && 0 < randomTime < length
    requires isGreater <==> randomTime < r < length
    requires isFirst <==> r == 1
    requires r > 1 ==> (got <==> randomTime + 1 < length && r - 1 > randomTime)
    ensures NextFlag(isFirst, isGreater && !got, got) <==> randomTime + 1 < length && r > randomTime
    ensures isGreater && !got <==> randomTime + 1 < length && r == randomTime + 1
  {
  }

  /** Definition of a produced run, one block at a time. */
  lemma {:induction false} ProducedStep(p: Params, n: nat)
    requires Configured(p) && n > 0
    ensures var v, b := ViewAfter(p, Produced(p, n - 1)), Produced(p, n)[n - 1];
            && v.height == n && b.height == n + 1
            && b.hasRandom == (IsGreaterThanRandomTime(p, n + 1) && !v.gotRandom)
            && ViewAfter(p, Produced(p, n)).gotRandom
               == NextFlag(IsFirstBeaconHeightInEpoch(p, n + 1), b.hasRandom, v.gotRandom)
  {
    var front := Produced(p, n - 1);
    ProducedRunAccepted(p, n - 1);
    AcceptedRunKeepsEpoch(p, front);
    assert Produced(p, n)[..n - 1] == front;
  }

  ghost predicate FlagRight(p: Params, n: nat, epoch: nat, r: nat)
    requires Configured(p)
  {
    && (ViewAfter(p, Produced(p, n)).gotRandom <==> HasRoom(p, epoch) && r > RandomTimeOf(p, epoch))
    && (n > 0 ==> (Produced(p, n)[n - 1].hasRandom <==> HasRoom(p, epoch) && r == RandomTimeOf(p, epoch) + 1))
  }

  lemma {:induction false} FlagAfterStep(p: Params, n: nat, epoch: nat, r: nat)
    requires Configured(p) && epoch >= 1 && 1 <= r <= LengthOf(p, epoch) && n > 0 && n + 1 == HeightOf(p, epoch, r)
    requires r > 1 ==> FlagRight(p, n - 1, epoch, r - 1)
    ensures FlagRight(p, n, epoch, r)
  {
    AtPlace(p, epoch, r);
    ProducedStep(p, n);
    FlagStep(IsFirstBeaconHeightInEpoch(p, n + 1), IsGreaterThanRandomTime(p, n + 1),
             ViewAfter(p, Produced(p, n - 1)).gotRandom, r, RandomTimeOf(p, epoch), LengthOf(p, epoch));
  }

  /** At the r-th height of an epoch the flag is up exactly once the random time has passed. */
  lemma {:induction false} FlagInRun(p: Params, n: nat, epoch: nat, r: nat)
    requires Configured(p) && epoch >= 1 && 1 <= r <= LengthOf(p, epoch) && n + 1 == HeightOf(p, epoch, r)
    ensures FlagRight(p, n, epoch, r)
    decreases n
  {
    HeightsPositive(p, epoch);
    if n > 0 {
      if r > 1 { FlagInRun(p, n - 1, epoch, r - 1); }
      FlagAfterStep(p, n, epoch, r);
    }
  }

  lemma {:induction false} HeightsPositive(p: Params, epoch: nat)
    requires Configured(p) && epoch >= 1
    ensures HeightOf(p, epoch, 0) >= 0
  {
    MulMonotone(0, epoch - 1, p.length);
    if epoch >= p.breakPoint { MulMonotone(0, epoch - p.breakPoint, p.lengthV2); }
  }

  /** In every producer-built run from genesis, a block carries the random instruction exactly when
      its height is one past the random time of its epoch and the epoch has room for it. */
  lemma {:induction false} RandomInstructionAt(p: Params, n: nat, height: nat) returns (epoch: nat)
    requires Configured(p) && 2 <= height <= n + 1
    ensures epoch >= 1 && epoch == GetEpochByHeight(p, height)
    ensures Produced(p, n)[height - 2].height == height
    ensures HasRandomAt(p, n, height) <==> height == GetRandomTimeInEpoch(p, epoch) + 1 && HasRoom(p, epoch)
  {
    var r;
    epoch, r := PlaceOf(p, height);
    AtPlace(p, epoch, r);
    BoundariesOfEpoch(p, epoch);
    HasRandomAtPlace(p, n, height, epoch, r);
  }

  lemma {:induction false} HasRandomAtPlace(p: Params, n: nat, height: nat, epoch: nat, r: nat)
    requires Configured(p) && 2 <= height <= n + 1
    requires epoch >= 1 && 1 <= r <= LengthOf(p, epoch) && height == HeightOf(p, epoch, r)
    ensures Produced(p, n)[height - 2].height == height
    ensures HasRandomAt(p, n, height) <==> HasRoom(p, epoch) && r == RandomTimeOf(p, epoch) + 1
  {
    FlagInRun(p, height - 1, epoch, r);
    ProducedPrefix(p, n, height - 1);
    ProducedStep(p, height - 1);
  }

  /** Of n produced blocks, the one at the given height carries a random instruction. */
  predicate HasRandomAt(p: Params, n: nat, height: nat)
    requires Configured(p)
  {
    2 <= height <= n + 1 && Produced(p, n)[height - 2].hasRandom
  }

  lemma {:induction false} ProducedPrefix(p: Params, n: nat, k: nat)
    requires Configured(p) && 1 <= k <= n
    ensures Produced(p, n)[k - 1] == Produced(p, k)[k - 1]
  {
    if k < n { ProducedPrefix(p, n - 1, k); }
  }

  /** Random instructions among the first n produced blocks whose height lies in the epoch. */
  ghost function RandomHeights(p: Params, n: nat, epoch: nat): set<nat>
    requires Configured(p) && epoch >= 1
  {
    set height: nat | 2 <= height <= n + 1 && HasRandomAt(p, n, height)
                      && GetFirstBeaconHeightInEpoch(p, epoch) <= height <= GetLastBeaconHeightInEpoch(p, epoch)
  }

  /** An epoch that runs to its end holds exactly one random instruction if it has room for one
      after the random time, and none otherwise; it stands one past the random time. */
  lemma {:induction false} ExactlyOneRandomPerEpoch(p: Params, n: nat, epoch: nat)
    requires Configured(p) && epoch >= 1 && GetLastBeaconHeightInEpoch(p, epoch) <= n + 1
    ensures RandomHeights(p, n, epoch) == if HasRoom(p, epoch) then {GetRandomTimeInEpoch(p, epoch) + 1} else {}
  {
    BoundariesOfEpoch(p, epoch);
    HeightsPositive(p, epoch);
    var at := GetRandomTimeInEpoch(p, epoch) + 1;
    forall height: nat | 2 <= height <= n + 1
      ensures height in RandomHeights(p, n, epoch) <==> height == at && HasRoom(p, epoch)
    {
      var e := RandomInstructionAt(p, n, height);
      EpochFunctionsAgree(p, height, epoch);
    }
  }
}
