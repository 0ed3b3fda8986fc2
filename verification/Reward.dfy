/**
 Block rewards: yearly decay, the minted total at the default block time, and the year of a height
 across changes of block time (blockchain/salary.go, blockchain/blockchain.go).
 */
module Reward {
  import opened Arithmetic
  import opened Timeslot

  // ---------------------------------------------------------------------------------------------
  // Decay
  // ---------------------------------------------------------------------------------------------

  /** The reward after n yearly cuts to 91 percent, rounded down each time. */
  function Decayed(basicReward: nat, n: nat): nat
  {
    if n == 0 then basicReward else Decayed(basicReward, n - 1) * 91 / 100
  }

  function Power(b: nat, n: nat): nat
  {
    if n == 0 then 1 else b * Power(b, n - 1)
  }

  method GetRewardAmountV2(basicReward: nat, year: nat) returns (reward: nat)
    ensures reward == Decayed(basicReward, year)
  {
    reward := basicReward;
    var n := year;
    while n > 0
      invariant reward == Decayed(basicReward, year - n)
    {
      reward := reward * 91;
      reward := reward / 100;
      n := n - 1;
    }
  }

  lemma {:induction false} DecayNeverGrows(basicReward: nat, n: nat)
    ensures Decayed(basicReward, n + 1) <= Decayed(basicReward, n)
    ensures 100 * Decayed(basicReward, n + 1) <= 91 * Decayed(basicReward, n) < 100 * Decayed(basicReward, n + 1) + 100
  {
  }

  /** After n roundings the reward lies below the exact value basicReward * (91/100)^n by less than
      11 units; everything is scaled by 100^n to stay in the integers. */
  lemma {:induction false} DecayIsClose(basicReward: nat, n: nat)
    ensures Decayed(basicReward, n) * Power(100, n) <= basicReward * Power(91, n)
    ensures basicReward * Power(91, n) - Decayed(basicReward, n) * Power(100, n) <= 11 * (Power(100, n) - Power(91, n))
    ensures basicReward * Power(91, n) < (Decayed(basicReward, n) + 11) * Power(100, n)
  {
    PowerPositive(91, n);
    if n > 0 {
      var r, s, p, q := Decayed(basicReward, n - 1), Decayed(basicReward, n), Power(100, n - 1), Power(91, n - 1);
      DecayIsClose(basicReward, n - 1);
      DecayNeverGrows(basicReward, n - 1);
      DecayStep(basicReward, r, s, p, q);
    }
    WithinEleven(basicReward * Power(91, n), Decayed(basicReward, n), Power(100, n), Power(91, n));
  }

  lemma {:induction false} WithinEleven(exact: int, reward: nat, p: nat, q: nat)
    requires exact - reward * p <= 11 * (p - q) && q >= 1
    ensures exact < (reward + 11) * p
  {
    assert (reward + 11) * p == reward * p + 11 * p;
  }

  lemma {:induction false} PowerPositive(b: nat, n: nat)
    requires b >= 1
    ensures Power(b, n) >= 1
  {
    if n > 0 { PowerPositive(b, n - 1); }
  }

  /** One rounding: r is the reward before it, s after it, p and q the powers of 100 and 91. */
  lemma {:induction false} DecayStep(basic: nat, r: nat, s: nat, p: nat, q: nat)
    requires r * p <= basic * q && basic * q - r * p <= 11 * (p - q)
    requires 100 * s <= 91 * r < 100 * s + 100
    ensures s * (100 * p) <= basic * (91 * q)
    ensures basic * (91 * q) - s * (100 * p) <= 11 * (100 * p - 91 * q)
  {
    MulMonotone(100 * s, 91 * r, p);
    MulMonotone(91 * r, 100 * s + 99, p);
    assert s * (100 * p) == (100 * s) * p;
    assert basic * (91 * q) == 91 * (basic * q);
    assert (91 * r) * p == 91 * (r * p);
    assert (100 * s + 99) * p == (100 * s) * p + 99 * p;
  }

  // ---------------------------------------------------------------------------------------------
  // Minted total
  // ---------------------------------------------------------------------------------------------

  /** Reward of block b (counted from 0) at the default block time: its year is b / perYear + 1. */
  function BlockReward(basicReward: nat, perYear: nat, b: nat): nat
    requires perYear > 0
  {
    Decayed(basicReward, YearOf(perYear, b))
  }

  function YearOf(perYear: nat, b: nat): nat
    requires perYear > 0
  {
    DivNonNegative(b, perYear);
    b / perYear + 1
  }

  /** Rewards of the first `height` blocks of a shard, block by block. */
  function ShardMinted(basicReward: nat, perYear: nat, height: nat): nat
    requires perYear > 0
  {
    if height == 0 then 0
    else ShardMinted(basicReward, perYear, height - 1) + BlockReward(basicReward, perYear, height - 1)
  }

  function HeightOf(heights: map<nat, nat>, shard: nat): nat
  {
    if shard in heights then heights[shard] else 0
  }

  function Minted(basicReward: nat, perYear: nat, heights: map<nat, nat>, shards: nat): nat
    requires perYear > 0
  {
    if shards == 0 then 0
    else Minted(basicReward, perYear, heights, shards - 1)
         + ShardMinted(basicReward, perYear, HeightOf(heights, shards - 1))
  }

  /** Rewards of n full years, year by year. */
  function YearTotal(basicReward: nat, perYear: nat, n: nat): nat
  {
    if n == 0 then 0 else YearTotal(basicReward, perYear, n - 1) + Decayed(basicReward, n) * perYear
  }

  lemma {:induction false} SameYear(basicReward: nat, perYear: nat, from: nat, n: nat, year: nat)
    requires perYear > 0 && forall b: nat :: from <= b < from + n ==> YearOf(perYear, b) == year
    ensures ShardMinted(basicReward, perYear, from + n)
         == ShardMinted(basicReward, perYear, from) + n * Decayed(basicReward, year)
  {
    if n > 0 {
      SameYear(basicReward, perYear, from, n - 1, year);
      MulStep(n, Decayed(basicReward, year));
      assert YearOf(perYear, from + n - 1) == year;
    }
  }

  lemma {:induction false} BlocksOfYear(perYear: nat, years: nat, from: nat)
    requires perYear > 0 && from == years * perYear
    ensures forall b: nat :: from <= b < from + perYear ==> YearOf(perYear, b) == years + 1
  {
    forall b: nat | from <= b < from + perYear
      ensures YearOf(perYear, b) == years + 1
    {
      DivUnique(b, perYear, years);
    }
  }

  lemma {:induction false} FullYears(basicReward: nat, perYear: nat, years: nat, top: nat)
    requires perYear > 0 && top == years * perYear
    ensures ShardMinted(basicReward, perYear, top) == YearTotal(basicReward, perYear, years)
  {
    if years > 0 {
      var from := OneYearBefore(perYear, years, top);
      FullYears(basicReward, perYear, years - 1, from);
      OneYear(basicReward, perYear, years, from);
    }
  }

  lemma {:induction false} OneYearBefore(perYear: nat, years: nat, top: nat) returns (from: nat)
    requires years > 0 && top == years * perYear
    ensures from == (years - 1) * perYear && from + perYear == top
  {
    MulMonotone(0, years - 1, perYear);
    MulStep(years, perYear);
    from := (years - 1) * perYear;
  }

  lemma {:induction false} OneYear(basicReward: nat, perYear: nat, years: nat, from: nat)
    requires perYear > 0 && years > 0 && from == (years - 1) * perYear
    ensures ShardMinted(basicReward, perYear, from + perYear)
         == ShardMinted(basicReward, perYear, from) + Decayed(basicReward, years) * perYear
  {
    BlocksOfYear(perYear, years - 1, from);
    SameYear(basicReward, perYear, from, perYear, years);
  }

  /** Full years first, then the rest of the running year. */
  lemma {:induction false} MintedByYears(basicReward: nat, perYear: nat, height: nat, years: nat, remainder: nat)
    requires perYear > 0 && years == height / perYear && remainder == height % perYear
    ensures ShardMinted(basicReward, perYear, height)
         == YearTotal(basicReward, perYear, years) + remainder * Decayed(basicReward, years + 1)
  {
    DivMod(height, perYear);
    var top := years * perYear;
    FullYears(basicReward, perYear, years, top);
    BlocksOfYear(perYear, years, top);
    SameYear(basicReward, perYear, top, remainder, years + 1);
  }

  /** The closed form by years equals the block-by-block sum. */
  method CalculateMintedPRVWithDefaultBlocktime(basicReward: nat, perYear: nat, heights: map<nat, nat>, shards: nat)
    returns (total: nat)
    requires perYear > 0
    ensures total == Minted(basicReward, perYear, heights, shards)
  {
    total := 0;
    for shard := 0 to shards
      invariant total == Minted(basicReward, perYear, heights, shard)
    {
      var height := HeightOf(heights, shard);
      DivNonNegative(height, perYear);
      var years, remainder := height / perYear, height % perYear;
      var fullYears := MintedInFullYears(basicReward, perYear, years);
      var reward := GetRewardAmountV2(basicReward, years + 1);
      MintedByYears(basicReward, perYear, height, years, remainder);
      total := total + fullYears;
      total := total + remainder * reward;
    }
  }

  /** Without blocks nothing is minted, and one more block of a shard mints its own reward, whatever the
      other shards have: this fixes the total for all heights. */
  lemma {:induction false} MintedGrows(basicReward: nat, perYear: nat, heights: map<nat, nat>, shards: nat, shard: nat)
    requires perYear > 0 && shard in heights
    ensures Minted(basicReward, perYear, map[], shards) == 0
    ensures Minted(basicReward, perYear, heights[shard := heights[shard] + 1], shards)
         == Minted(basicReward, perYear, heights, shards)
            + if shard < shards then BlockReward(basicReward, perYear, heights[shard]) else 0
  {
    if shards > 0 { MintedGrows(basicReward, perYear, heights, shards - 1, shard); }
  }

  /** The inner loop over the full years of one shard. */
  method MintedInFullYears(basicReward: nat, perYear: nat, years: nat) returns (total: nat)
    ensures total == YearTotal(basicReward, perYear, years)
  {
    total := 0;
    for year := 1 to years + 1
      invariant total == YearTotal(basicReward, perYear, year - 1)
    {
      var reward := GetRewardAmountV2(basicReward, year);
      total := total + reward * perYear;
    }
  }

  lemma {:induction false} ScaledDecay(d: nat, e: nat, perYear: nat)
    requires 100 * d <= 91 * e
    ensures 100 * (d * perYear) <= 91 * (e * perYear)
  {
    MulMonotone(100 * d, 91 * e, perYear);
  }

  /** Nine parts of the full years' rewards, with what later years can still pay, stay within 91
      parts of one undecayed year. */
  lemma {:induction false} YearTotalBound(basicReward: nat, perYear: nat, n: nat)
    ensures 9 * YearTotal(basicReward, perYear, n) + 91 * (Decayed(basicReward, n) * perYear)
         <= 91 * (basicReward * perYear)
  {
    if n > 0 {
      YearTotalBound(basicReward, perYear, n - 1);
      DecayNeverGrows(basicReward, n - 1);
      ScaledDecay(Decayed(basicReward, n), Decayed(basicReward, n - 1), perYear);
    }
  }

  lemma {:induction false} ShardMintedBound(basicReward: nat, perYear: nat, height: nat)
    requires perYear > 0
    ensures 9 * ShardMinted(basicReward, perYear, height) <= 91 * (basicReward * perYear)
  {
    DivMod(height, perYear);
    DivNonNegative(height, perYear);
    var years, remainder := height / perYear, height % perYear;
    MintedByYears(basicReward, perYear, height, years, remainder);
    YearTotalBound(basicReward, perYear, years + 1);
    MulMonotone(remainder, perYear, Decayed(basicReward, years + 1));
    MulMonotone(0, perYear, Decayed(basicReward, years + 1));
  }

  /** The minted total never exceeds shards * perYear * basicReward * 91/9, whatever the heights. */
  lemma {:induction false} MintedBound(basicReward: nat, perYear: nat, heights: map<nat, nat>, shards: nat,
                                       oneYear: nat)
    requires perYear > 0 && oneYear == basicReward * perYear
    ensures 9 * Minted(basicReward, perYear, heights, shards) <= shards * (91 * oneYear)
  {
    if shards > 0 {
      MintedBound(basicReward, perYear, heights, shards - 1, oneYear);
      ShardMintedBound(basicReward, perYear, HeightOf(heights, shards - 1));
      MulStep(shards, 91 * oneYear);
    }
  }

  // ---------------------------------------------------------------------------------------------
  // The year of a height
  // ---------------------------------------------------------------------------------------------

  const SECONDS_PER_YEAR: nat := 31557600

  function Min(a: nat, b: nat): nat
  {
    if a <= b then a else b
  }

  /** Configured block time of a feature; 0 for an unknown one. */
  type BlockTimes = map<string, nat>

  function TimeOf(times: BlockTimes, feature: string): nat
  {
    if feature in times then times[feature] else 0
  }

  ghost predicate SortedFrom(start: nat, anchors: seq<Anchor>)
  {
    && (forall i :: 0 <= i < |anchors| ==> start <= anchors[i].blockHeight)
    && forall i, j :: 0 <= i < j < |anchors| ==> anchors[i].blockHeight <= anchors[j].blockHeight
  }

  /** Heights of one segment, from `start` to `end`, both capped at `height`. */
  function Span(start: nat, end: nat, height: nat): int
  {
    Min(end, height) - Min(start, height)
  }

  function Product(blocks: int, blockTime: nat): int
  {
    blocks * blockTime
  }

  /** A segment's blocks turned into default blocks, rounded down. */
  function Share(blocks: int, blockTime: nat, defaultTime: nat): int
    requires defaultTime > 0
  {
    Product(blocks, blockTime) / defaultTime
  }

  /** Block-seconds of the heights from `start` to `height`. */
  function Seconds(times: BlockTimes, anchors: seq<Anchor>, start: nat, blockTime: nat, height: nat): int
    decreases |anchors|
  {
    if anchors == [] then Product(Span(start, height, height), blockTime)
    else Product(Span(start, anchors[0].blockHeight, height), blockTime)
         + Seconds(times, anchors[1..], anchors[0].blockHeight, TimeOf(times, anchors[0].feature), height)
  }

  /** The same, each segment turned into default blocks and rounded down. */
  function DefaultBlocks(times: BlockTimes, defaultTime: nat, anchors: seq<Anchor>, start: nat, blockTime: nat,
                         height: nat): int
    requires defaultTime > 0
    decreases |anchors|
  {
    if anchors == [] then Share(Span(start, height, height), blockTime, defaultTime)
    else Share(Span(start, anchors[0].blockHeight, height), blockTime, defaultTime)
         + DefaultBlocks(times, defaultTime, anchors[1..], anchors[0].blockHeight,
                         TimeOf(times, anchors[0].feature), height)
  }

  lemma {:induction false} SortedTail(start: nat, anchors: seq<Anchor>)
    requires SortedFrom(start, anchors) && anchors != []
    ensures start <= anchors[0].blockHeight && SortedFrom(anchors[0].blockHeight, anchors[1..])
  {
  }

  ghost predicate SortedUpTo(anchors: seq<Anchor>, height: nat)
  {
    SortedFrom(0, anchors) && forall i :: 0 <= i < |anchors| ==> anchors[i].blockHeight <= height
  }

  /** Anchors carry the height of the block that adds them, so a growing chain keeps them sorted. */
  lemma {:induction false} BeaconStepKeepsSorted(defaultTime: int, m: Manager, version: int, proposeTime: int,
                                                 height: nat, first: seq<Feature>, second: seq<Feature>)
    requires defaultTime > 0 && Positive(m.anchors) && SortedUpTo(m.anchors, height)
    ensures SortedUpTo(BeaconStep(defaultTime, m, version, proposeTime, height, first, second).anchors, height)
  {
  }

  /** In the beacon's copy of a shard's manager they carry the height of the block before. */
  lemma {:induction false} ShardStepKeepsSorted(defaultTime: int, m: Manager, version: int, proposeTime: int,
                                                height: nat, fs: seq<Feature>)
    requires defaultTime > 0 && Positive(m.anchors) && Configured(fs)
    requires height >= 1 && SortedUpTo(m.anchors, height - 1)
    ensures SortedUpTo(ShardStep(defaultTime, m, version, proposeTime, height, fs).anchors, height - 1)
  {
  }

  /** A beacon chain from the empty manager: heights never go down. */
  ghost predicate BeaconChainOf(defaultTime: int, ms: seq<Manager>, bs: seq<BeaconBlock>)
  {
    && |ms| == |bs| + 1 && defaultTime > 0 && ms[0] == Manager([], 0, 0, 0)
    && (forall i :: 0 <= i < |bs| ==> Configured(bs[i].first) && Configured(bs[i].second))
    && (forall i, j :: 0 <= i < j < |bs| ==> bs[i].height <= bs[j].height)
    && forall i :: 0 <= i < |bs| ==> BeaconStepOf(defaultTime, ms[i], bs[i], ms[i + 1])
  }

  ghost predicate BeaconStepOf(defaultTime: int, m: Manager, b: BeaconBlock, next: Manager)
    requires defaultTime > 0
  {
    Positive(m.anchors) ==> next == StepBlock(defaultTime, m, b)
  }

  /** Along every beacon chain the anchors are sorted by height, as the year function needs them. */
  lemma {:induction false} BeaconAnchorsSorted(defaultTime: int, ms: seq<Manager>, bs: seq<BeaconBlock>, n: nat)
    requires BeaconChainOf(defaultTime, ms, bs) && n <= |bs|
    ensures Positive(ms[n].anchors) && SortedFrom(0, ms[n].anchors)
    ensures n > 0 ==> SortedUpTo(ms[n].anchors, bs[n - 1].height)
  {
    if n > 0 {
      BeaconAnchorsSorted(defaultTime, ms, bs, n - 1);
      var m, b := ms[n - 1], bs[n - 1];
      assert BeaconStepOf(defaultTime, m, b, ms[n]);
      BeaconStepKeepsSorted(defaultTime, m, b.version, b.proposeTime, b.height, b.first, b.second);
    }
  }

  /** The confirmed blocks of a shard from the empty manager: heights never go down. */
  ghost predicate ShardChainOf(defaultTime: int, ms: seq<Manager>, bs: seq<ShardBlock>)
  {
    && |ms| == |bs| + 1 && defaultTime > 0 && ms[0] == Manager([], 0, 0, 0)
    && (forall i :: 0 <= i < |bs| ==> Configured(bs[i].features) && bs[i].height >= 1)
    && (forall i, j :: 0 <= i < j < |bs| ==> bs[i].height <= bs[j].height)
    && forall i :: 0 <= i < |bs| ==> ShardStepOf(defaultTime, ms[i], bs[i], ms[i + 1])
  }

  ghost predicate ShardStepOf(defaultTime: int, m: Manager, b: ShardBlock, next: Manager)
    requires defaultTime > 0 && Configured(b.features) && b.height >= 1
  {
    Positive(m.anchors) ==> next == StepShardBlock(defaultTime, m, b)
  }

  lemma {:induction false} ShardAnchorsSorted(defaultTime: int, ms: seq<Manager>, bs: seq<ShardBlock>, n: nat)
    requires ShardChainOf(defaultTime, ms, bs) && n <= |bs|
    ensures Positive(ms[n].anchors) && SortedFrom(0, ms[n].anchors)
    ensures n > 0 ==> SortedUpTo(ms[n].anchors, bs[n - 1].height - 1)
  {
    if n > 0 {
      ShardAnchorsSorted(defaultTime, ms, bs, n - 1);
      var m, b := ms[n - 1], bs[n - 1];
      assert ShardStepOf(defaultTime, m, b, ms[n]);
      ShardStepKeepsSorted(defaultTime, m, b.version, b.proposeTime, b.height, b.features);
    }
  }

  /** The rounded value stays within n default blocks below the exact one. */
  ghost predicate Close(exact: int, rounded: int, defaultTime: nat, n: nat)
  {
    0 <= exact - defaultTime * rounded < defaultTime * n
  }

  lemma {:induction false} SegmentClose(blocks: int, blockTime: nat, defaultTime: nat)
    requires blocks >= 0 && defaultTime > 0
    ensures 0 <= Share(blocks, blockTime, defaultTime)
    ensures Close(Product(blocks, blockTime), Share(blocks, blockTime, defaultTime), defaultTime, 1)
  {
    MulMonotone(0, blocks, blockTime);
    DivMod(blocks * blockTime, defaultTime);
    DivNonNegative(blocks * blockTime, defaultTime);
  }

  lemma {:induction false} CloseAdd(e: int, r: int, f: int, s: int, defaultTime: nat, n: nat)
    requires Close(e, r, defaultTime, 1) && Close(f, s, defaultTime, n)
    ensures Close(e + f, r + s, defaultTime, n + 1)
  {
  }

  /** Rounding costs less than one default block per segment, and no segment is negative. */
  lemma {:induction false} DefaultBlocksClose(times: BlockTimes, defaultTime: nat, anchors: seq<Anchor>, start: nat,
                                              blockTime: nat, height: nat)
    requires defaultTime > 0 && SortedFrom(start, anchors)
    ensures DefaultBlocks(times, defaultTime, anchors, start, blockTime, height) >= 0
    ensures Close(Seconds(times, anchors, start, blockTime, height),
                  DefaultBlocks(times, defaultTime, anchors, start, blockTime, height), defaultTime, |anchors| + 1)
    decreases |anchors|
  {
    if anchors == [] {
      SegmentClose(Span(start, height, height), blockTime, defaultTime);
    } else {
      SortedTail(start, anchors);
      var a, rest := anchors[0], anchors[1..];
      var span, time := Span(start, a.blockHeight, height), TimeOf(times, a.feature);
      SegmentClose(span, blockTime, defaultTime);
      DefaultBlocksClose(times, defaultTime, rest, a.blockHeight, time, height);
      CloseAdd(Product(span, blockTime), Share(span, blockTime, defaultTime),
               Seconds(times, rest, a.blockHeight, time, height),
               DefaultBlocks(times, defaultTime, rest, a.blockHeight, time, height), defaultTime, |anchors|);
    }
  }

  lemma {:induction false} ShareMonotone(a: int, b: int, blockTime: nat, defaultTime: nat)
    requires a <= b && defaultTime > 0
    ensures Share(a, blockTime, defaultTime) <= Share(b, blockTime, defaultTime)
  {
    MulMonotone(a, b, blockTime);
    DivMonotone(a * blockTime, b * blockTime, defaultTime);
  }

  lemma {:induction false} DefaultBlocksMonotone(times: BlockTimes, defaultTime: nat, anchors: seq<Anchor>, start: nat,
                                                 blockTime: nat, h: nat, k: nat)
    requires defaultTime > 0 && SortedFrom(start, anchors) && h <= k
    ensures DefaultBlocks(times, defaultTime, anchors, start, blockTime, h)
         <= DefaultBlocks(times, defaultTime, anchors, start, blockTime, k)
    decreases |anchors|
  {
    if anchors == [] {
      ShareMonotone(Span(start, h, h), Span(start, k, k), blockTime, defaultTime);
    } else {
      SortedTail(start, anchors);
      var a := anchors[0];
      ShareMonotone(Span(start, a.blockHeight, h), Span(start, a.blockHeight, k), blockTime, defaultTime);
      DefaultBlocksMonotone(times, defaultTime, anchors[1..], a.blockHeight, TimeOf(times, a.feature), h, k);
    }
  }

  lemma {:induction false} EmptySegment(blockTime: nat, defaultTime: nat)
    requires defaultTime > 0
    ensures Share(0, blockTime, defaultTime) == 0
  {
    MulDiv(0, defaultTime);
  }

  /** Recording an anchor twice changes nothing. */
  lemma {:induction false} RepeatedAnchor(times: BlockTimes, defaultTime: nat, before: seq<Anchor>, a: Anchor,
                                          after: seq<Anchor>, start: nat, blockTime: nat, height: nat)
    requires defaultTime > 0
    ensures DefaultBlocks(times, defaultTime, before + [a, a] + after, start, blockTime, height)
         == DefaultBlocks(times, defaultTime, before + [a] + after, start, blockTime, height)
    decreases |before|
  {
    var twice, once := before + [a, a] + after, before + [a] + after;
    if before == [] {
      assert twice[1..] == once && once[1..] == after;
      EmptySegment(TimeOf(times, a.feature), defaultTime);
    } else {
      assert twice[1..] == before[1..] + [a, a] + after && once[1..] == before[1..] + [a] + after;
      RepeatedAnchor(times, defaultTime, before[1..], a, after, before[0].blockHeight,
                     TimeOf(times, before[0].feature), height);
    }
  }

  /** Years of a chain by height; the anchors ascend in height, so no subtraction goes below zero. */
  function YearAt(times: BlockTimes, defaultTime: nat, anchors: seq<Anchor>, height: nat): int
    requires 0 < defaultTime <= SECONDS_PER_YEAR
  {
    BlocksPerYearPositive(defaultTime);
    DefaultBlocks(times, defaultTime, anchors, 0, defaultTime, height) / (SECONDS_PER_YEAR / defaultTime)
  }

  lemma {:induction false} BlocksPerYearPositive(defaultTime: nat)
    requires 0 < defaultTime <= SECONDS_PER_YEAR
    ensures SECONDS_PER_YEAR / defaultTime >= 1
  {
    DivMonotone(defaultTime, SECONDS_PER_YEAR, defaultTime);
    MulDiv(1, defaultTime);
  }

  method GetYearOfBlockChain(times: BlockTimes, defaultTime: nat, anchors: seq<Anchor>, height: nat)
    returns (year: int)
    requires 0 < defaultTime <= SECONDS_PER_YEAR && SortedFrom(0, anchors)
    ensures year == YearAt(times, defaultTime, anchors, height) >= 0
  {
    var totalBlock := TotalDefaultBlocks(times, defaultTime, anchors, height);
    BlocksPerYearPositive(defaultTime);
    DefaultBlocksClose(times, defaultTime, anchors, 0, defaultTime, height);
    DivNonNegative(totalBlock, SECONDS_PER_YEAR / defaultTime);
    year := totalBlock / (SECONDS_PER_YEAR / defaultTime);
  }

  /** The loop over the anchors; `blocks` is a natural number at every step. */
  method TotalDefaultBlocks(times: BlockTimes, defaultTime: nat, anchors: seq<Anchor>, height: nat)
    returns (totalBlock: int)
    requires defaultTime > 0 && SortedFrom(0, anchors)
    ensures totalBlock == DefaultBlocks(times, defaultTime, anchors, 0, defaultTime, height)
  {
    var startBlkHeight: nat, endBlkHeight: nat := 0, 0;
    var prevBlockTime := defaultTime;
    totalBlock := 0;
    ghost var last: nat, whole := 0, DefaultBlocks(times, defaultTime, anchors, 0, defaultTime, height);
    assert anchors[0..] == anchors;
    for i := 0 to |anchors|
      invariant SortedFrom(last, anchors[i..])
      invariant startBlkHeight == endBlkHeight == Min(last, height)
      invariant totalBlock + DefaultBlocks(times, defaultTime, anchors[i..], last, prevBlockTime, height) == whole
    {
      var anchor := anchors[i];
      assert anchors[i..][0] == anchor && anchors[i..][1..] == anchors[i + 1..];
      SortedTail(last, anchors[i..]);
      endBlkHeight := anchor.blockHeight;
      if endBlkHeight > height {
        endBlkHeight := height;
      }
      var blocks: nat := endBlkHeight - startBlkHeight;
      totalBlock := totalBlock + Share(blocks, prevBlockTime, defaultTime);
      startBlkHeight := endBlkHeight;
      prevBlockTime := TimeOf(times, anchor.feature);
      last := anchor.blockHeight;
    }
    assert anchors[|anchors|..] == [];
    EmptySegment(prevBlockTime, defaultTime);
    if endBlkHeight < height {
      endBlkHeight := height;
      var blocks: nat := endBlkHeight - startBlkHeight;
      totalBlock := totalBlock + Share(blocks, prevBlockTime, defaultTime);
    }
  }

  /** The year never goes back with height, and a doubly recorded anchor leaves it unchanged. */
  lemma {:induction false} YearMonotone(times: BlockTimes, defaultTime: nat, anchors: seq<Anchor>, h: nat, k: nat)
    requires 0 < defaultTime <= SECONDS_PER_YEAR && SortedFrom(0, anchors) && h <= k
    ensures YearAt(times, defaultTime, anchors, h) <= YearAt(times, defaultTime, anchors, k)
  {
    DefaultBlocksMonotone(times, defaultTime, anchors, 0, defaultTime, h, k);
    BlocksPerYearPositive(defaultTime);
    DivMonotone(DefaultBlocks(times, defaultTime, anchors, 0, defaultTime, h),
                DefaultBlocks(times, defaultTime, anchors, 0, defaultTime, k), SECONDS_PER_YEAR / defaultTime);
  }

  lemma {:induction false} YearIgnoresRepeat(times: BlockTimes, defaultTime: nat, before: seq<Anchor>, a: Anchor,
                                             after: seq<Anchor>, h: nat)
    requires 0 < defaultTime <= SECONDS_PER_YEAR
    ensures YearAt(times, defaultTime, before + [a, a] + after, h)
         == YearAt(times, defaultTime, before + [a] + after, h)
  {
    RepeatedAnchor(times, defaultTime, before, a, after, 0, defaultTime, h);
  }

  // ---------------------------------------------------------------------------------------------
  // Block by block
  // ---------------------------------------------------------------------------------------------

  /** The block time in force for the block at a height: that of the last anchor below it, or the one
      given. */
  function TimeAt(times: BlockTimes, anchors: seq<Anchor>, blockTime: nat, height: nat): nat
    decreases |anchors|
  {
    if anchors == [] || height <= anchors[0].blockHeight then blockTime
    else TimeAt(times, anchors[1..], TimeOf(times, anchors[0].feature), height)
  }

  /** An anchor rules from the block after it to the block of the next one. */
  lemma {:induction false} AnchorRules(times: BlockTimes, anchors: seq<Anchor>, blockTime: nat, height: nat, i: nat)
    requires SortedFrom(0, anchors) && i < |anchors| && anchors[i].blockHeight < height
    requires i + 1 < |anchors| ==> height <= anchors[i + 1].blockHeight
    ensures TimeAt(times, anchors, blockTime, height)
         == if anchors[i].feature in times then times[anchors[i].feature] else 0
    decreases |anchors|
  {
    assert anchors[0].blockHeight <= anchors[i].blockHeight;
    if i > 0 {
      AnchorRules(times, anchors[1..], TimeOf(times, anchors[0].feature), height, i - 1);
    }
  }

  /** Block times of the blocks after `start` up to `height`, one by one. */
  function SumOfTimes(times: BlockTimes, anchors: seq<Anchor>, start: nat, blockTime: nat, height: nat): nat
  {
    if height <= start then 0
    else SumOfTimes(times, anchors, start, blockTime, height - 1) + TimeAt(times, anchors, blockTime, height)
  }

  lemma {:induction false} NoSeconds(times: BlockTimes, anchors: seq<Anchor>, start: nat, blockTime: nat, height: nat)
    requires SortedFrom(start, anchors) && height <= start
    ensures Seconds(times, anchors, start, blockTime, height) == 0
    decreases |anchors|
  {
    if anchors != [] {
      SortedTail(start, anchors);
      NoSeconds(times, anchors[1..], anchors[0].blockHeight, TimeOf(times, anchors[0].feature), height);
    }
  }

  /** One more block adds its own block time. */
  lemma {:induction false} OneMoreBlock(times: BlockTimes, anchors: seq<Anchor>, start: nat, blockTime: nat,
                                        height: nat)
    requires SortedFrom(start, anchors) && height > start
    ensures Seconds(times, anchors, start, blockTime, height)
         == Seconds(times, anchors, start, blockTime, height - 1) + TimeAt(times, anchors, blockTime, height)
    decreases |anchors|
  {
    if anchors == [] {
      MulStep(height - start, blockTime);
    } else {
      var end, next := anchors[0].blockHeight, TimeOf(times, anchors[0].feature);
      SortedTail(start, anchors);
      if height <= end {
        MulStep(height - start, blockTime);
        NoSeconds(times, anchors[1..], end, next, height);
        NoSeconds(times, anchors[1..], end, next, height - 1);
      } else {
        OneMoreBlock(times, anchors[1..], end, next, height);
      }
    }
  }

  /** The exact block-seconds behind the year are the block times of all blocks, each by the feature in
      force at its height. */
  lemma {:induction false} SecondsAreSummed(times: BlockTimes, anchors: seq<Anchor>, start: nat, blockTime: nat,
                                            height: nat)
    requires SortedFrom(start, anchors)
    ensures Seconds(times, anchors, start, blockTime, height) == SumOfTimes(times, anchors, start, blockTime, height)
    decreases height
  {
    if height <= start {
      NoSeconds(times, anchors, start, blockTime, height);
    } else {
      SecondsAreSummed(times, anchors, start, blockTime, height - 1);
      OneMoreBlock(times, anchors, start, blockTime, height);
    }
  }

  lemma {:induction false} AppendedTime(times: BlockTimes, anchors: seq<Anchor>, added: seq<Anchor>, blockTime: nat,
                                        height: nat, k: nat)
    requires forall i :: 0 <= i < |anchors| ==> anchors[i].blockHeight <= k
    requires forall i :: 0 <= i < |added| ==> added[i].blockHeight == k
    ensures TimeAt(times, anchors + added, blockTime, height)
         == if height <= k || added == [] then TimeAt(times, anchors, blockTime, height)
            else TimeOf(times, added[|added| - 1].feature)
    decreases |anchors| + |added|
  {
    if anchors != [] {
      assert (anchors + added)[1..] == anchors[1..] + added;
      AppendedTime(times, anchors[1..], added, TimeOf(times, anchors[0].feature), height, k);
    } else if added != [] {
      assert anchors + added == added && added[1..] == [] + added[1..];
      AppendedTime(times, [], added[1..], TimeOf(times, added[0].feature), height, k);
    }
  }

  /** A feature a beacon block triggers sets the block time of all later heights and of no earlier one. */
  lemma {:induction false} FeatureTakesEffect(times: BlockTimes, defaultTime: nat, m: Manager, b: BeaconBlock,
                                              height: nat)
    requires defaultTime > 0 && Positive(m.anchors) && SortedUpTo(m.anchors, b.height)
    ensures var fs, next := b.first + b.second, StepBlock(defaultTime, m, b).anchors;
            TimeAt(times, next, defaultTime, height)
            == if height <= b.height || fs == [] then TimeAt(times, m.anchors, defaultTime, height)
               else if fs[|fs| - 1].name in times then times[fs[|fs| - 1].name] else 0
  {
    var fs, slot := b.first + b.second, SlotAt(defaultTime, m.anchors, b.proposeTime);
    AppendedTime(times, m.anchors, BeaconAnchors(fs, b.proposeTime, slot, b.height), defaultTime, height, b.height);
  }

  /** A feature of a shard block's new version sets the block time from that block on. */
  lemma {:induction false} ShardFeatureTakesEffect(times: BlockTimes, defaultTime: nat, m: Manager, b: ShardBlock,
                                                   height: nat)
    requires defaultTime > 0 && Positive(m.anchors) && Configured(b.features) && b.height >= 1
    requires SortedUpTo(m.anchors, b.height - 1)
    ensures var fs, next := b.features, StepShardBlock(defaultTime, m, b).anchors;
            TimeAt(times, next, defaultTime, height)
            == if height < b.height || fs == [] || m.version == b.version
               then TimeAt(times, m.anchors, defaultTime, height)
               else if fs[|fs| - 1].name in times then times[fs[|fs| - 1].name] else 0
  {
    var added := if m.version == b.version then []
                 else ShardAnchors(b.features, m.proposeTime, b.proposeTime, m.slot, b.height);
    AppendedTime(times, m.anchors, added, defaultTime, height, b.height - 1);
  }

  /** The year is the number of whole years of default blocks, a year being 365.25 days. */
  lemma {:induction false} YearIsWholeYears(times: BlockTimes, defaultTime: nat, anchors: seq<Anchor>, height: nat,
                                            year: int)
    requires 0 < defaultTime <= 31557600
    ensures var blocks := DefaultBlocks(times, defaultTime, anchors, 0, defaultTime, height);
            var perYear := 31557600 / defaultTime;
            YearAt(times, defaultTime, anchors, height) == year <==> year * perYear <= blocks < year * perYear + perYear
  {
    var blocks := DefaultBlocks(times, defaultTime, anchors, 0, defaultTime, height);
    var perYear := 31557600 / defaultTime;
    BlocksPerYearPositive(defaultTime);
    DivMod(blocks, perYear);
    if year * perYear <= blocks < year * perYear + perYear { DivUnique(blocks, perYear, year); }
  }
}
