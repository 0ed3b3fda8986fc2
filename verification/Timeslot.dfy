/**
 The timeslot manager (blockchain/timeslot.go) and the two rules that append anchors to it
 (blockchain/beaconprocess.go, checkpoint part of updateBeaconBestState).

 An anchor opens a segment of the time axis with its own block time.  `defaultTime` is the
 configured default block time; configured block times are positive.
 */
module Timeslot {
  import opened Arithmetic

  datatype Anchor = Anchor(
    previousEndTime: int, startTime: int, startTimeslot: int, timeslot: int, feature: string, blockHeight: nat)

  /** A block-time feature and its configured block time. */
  datatype Feature = Feature(name: string, blockTime: int)

  /** The slot of t in the segment of one anchor. */
  function SlotIn(a: Anchor, t: int): int
    requires a.timeslot > 0
  {
    a.startTimeslot + (if t > a.startTime then t - a.startTime else 0) / a.timeslot
  }

  function DefaultAnchor(defaultTime: int): Anchor
  {
    Anchor(0, 0, 0, defaultTime, "blocktimedef", 1)
  }

  /** Index of the last of the first n anchors that t has reached, or -1. */
  function Reached(anchors: seq<Anchor>, n: nat, t: int): (i: int)
    requires n <= |anchors|
    ensures -1 <= i < n
    ensures i >= 0 ==> t >= anchors[i].previousEndTime
    ensures forall k :: i < k < n ==> t < anchors[k].previousEndTime
  {
    if n == 0 then -1
    else if t >= anchors[n - 1].previousEndTime then n - 1
    else Reached(anchors, n - 1, t)
  }

  ghost predicate Positive(anchors: seq<Anchor>)
  {
    forall i :: 0 <= i < |anchors| ==> anchors[i].timeslot > 0
  }

  /** The slot of t: by the last anchor reached, by the latest one if none is, by the default if
      there are none. */
  function SlotAt(defaultTime: int, anchors: seq<Anchor>, t: int): int
    requires defaultTime > 0 && Positive(anchors)
  {
    if anchors == [] then SlotIn(DefaultAnchor(defaultTime), t)
    else
      var i := Reached(anchors, |anchors|, t);
      SlotIn(if i < 0 then anchors[|anchors| - 1] else anchors[i], t)
  }

  /** Anchor i + 1 takes over where anchor i left off. */
  ghost predicate Follows(a: Anchor, b: Anchor)
    requires a.timeslot > 0
  {
    a.previousEndTime <= b.previousEndTime && b.startTimeslot == SlotIn(a, b.previousEndTime)
  }

  ghost predicate Continuous(anchors: seq<Anchor>)
  {
    && Positive(anchors)
    && (forall i :: 0 <= i < |anchors| ==> anchors[i].startTime >= anchors[i].previousEndTime)
    && forall i :: 0 < i < |anchors| ==> Follows(anchors[i - 1], anchors[i])
  }

  // ---------------------------------------------------------------------------------------------
  // The slot function
  // ---------------------------------------------------------------------------------------------

  lemma {:induction false} SlotInMonotone(a: Anchor, t: int, u: int)
    requires a.timeslot > 0 && t <= u
    ensures a.startTimeslot <= SlotIn(a, t) <= SlotIn(a, u)
  {
    var x, y := if t > a.startTime then t - a.startTime else 0, if u > a.startTime then u - a.startTime else 0;
    DivNonNegative(x, a.timeslot);
    DivMonotone(x, y, a.timeslot);
  }

  lemma {:induction false} SegmentsMonotone(anchors: seq<Anchor>, i: nat, j: nat, t: int, u: int)
    requires Continuous(anchors) && i <= j < |anchors| && t <= u
    requires forall k :: i < k < |anchors| ==> t <= anchors[k].previousEndTime
    requires u >= anchors[j].previousEndTime
    ensures SlotIn(anchors[i], t) <= SlotIn(anchors[j], u)
    decreases j - i
  {
    if i == j {
      SlotInMonotone(anchors[i], t, u);
    } else {
      var b := anchors[i + 1];
      SlotInMonotone(anchors[i], t, b.previousEndTime);
      assert Follows(anchors[i], b);
      AnchorsSorted(anchors, i + 1, j);
      SlotInMonotone(b, b.previousEndTime, b.previousEndTime);
      assert SlotIn(b, b.previousEndTime) == b.startTimeslot;
      AnchorsSortedFrom(anchors, i + 1);
      SegmentsMonotone(anchors, i + 1, j, b.previousEndTime, u);
    }
  }

  lemma {:induction false} AnchorsSorted(anchors: seq<Anchor>, i: nat, j: nat)
    requires Continuous(anchors) && i <= j < |anchors|
    ensures anchors[i].previousEndTime <= anchors[j].previousEndTime
  {
    if i < j {
      AnchorsSorted(anchors, i, j - 1);
      assert Follows(anchors[j - 1], anchors[j]);
    }
  }

  lemma {:induction false} AnchorsSortedFrom(anchors: seq<Anchor>, i: nat)
    requires Continuous(anchors) && i < |anchors|
    ensures forall k :: i <= k < |anchors| ==> anchors[i].previousEndTime <= anchors[k].previousEndTime
  {
    forall k | i <= k < |anchors|
      ensures anchors[i].previousEndTime <= anchors[k].previousEndTime
    {
      AnchorsSorted(anchors, i, k);
    }
  }

  /** Time t lies in a governed segment: there are no anchors, or it has reached the first one. */
  predicate Governed(anchors: seq<Anchor>, t: int)
  {
    anchors == [] || t >= anchors[0].previousEndTime
  }

  /** On governed times the slot function never goes back. */
  lemma {:induction false} SlotMonotone(defaultTime: int, anchors: seq<Anchor>, t: int, u: int)
    requires defaultTime > 0 && Continuous(anchors) && Governed(anchors, t) && t <= u
    ensures SlotAt(defaultTime, anchors, t) <= SlotAt(defaultTime, anchors, u)
  {
    if anchors == [] {
      SlotInMonotone(DefaultAnchor(defaultTime), t, u);
    } else {
      var i, j := Reached(anchors, |anchors|, t), Reached(anchors, |anchors|, u);
      SegmentsMonotone(anchors, i, j, t, u);
    }
  }

  lemma {:induction false} ContinuousPrefix(anchors: seq<Anchor>, a: Anchor)
    requires Continuous(anchors + [a])
    ensures Continuous(anchors) && a.timeslot > 0 && a.startTime >= a.previousEndTime
    ensures anchors != [] ==> Follows(anchors[|anchors| - 1], a)
  {
    var next := anchors + [a];
    assert forall i :: 0 <= i < |anchors| ==> next[i] == anchors[i];
    assert next[|anchors|] == a;
    forall i | 0 < i < |anchors|
      ensures Follows(anchors[i - 1], anchors[i])
    {
      assert Follows(next[i - 1], next[i]);
    }
    if anchors != [] { assert Follows(next[|anchors| - 1], next[|anchors|]); }
  }

  /** Appending an anchor that follows on keeps every governed slot up to its own start. */
  lemma {:induction false} AppendKeepsSlots(defaultTime: int, anchors: seq<Anchor>, a: Anchor, t: int)
    requires defaultTime > 0 && anchors != [] && Continuous(anchors + [a])
    requires Governed(anchors, t) && t <= a.previousEndTime
    ensures Continuous(anchors)
    ensures SlotAt(defaultTime, anchors + [a], t) == SlotAt(defaultTime, anchors, t)
  {
    ContinuousPrefix(anchors, a);
    if t == a.previousEndTime {
      LastReached(anchors + [a], t);
      LastReached(anchors, t);
    } else {
      ReachedPrefix(anchors, a, |anchors|, t);
    }
  }

  lemma {:induction false} ReachedPrefix(anchors: seq<Anchor>, a: Anchor, n: nat, t: int)
    requires n <= |anchors|
    ensures Reached(anchors + [a], n, t) == Reached(anchors, n, t)
  {
    if n > 0 { ReachedPrefix(anchors, a, n - 1, t); }
  }

  /** Before the first anchor the latest one answers, and at most with its own first slot when that
      anchor starts no earlier: such times never look later than any governed one. */
  lemma {:induction false} FallbackIsLow(defaultTime: int, anchors: seq<Anchor>, t: int, u: int)
    requires defaultTime > 0 && Continuous(anchors) && !Governed(anchors, t)
    requires u >= anchors[|anchors| - 1].previousEndTime
    ensures SlotAt(defaultTime, anchors, t) == anchors[|anchors| - 1].startTimeslot <= SlotAt(defaultTime, anchors, u)
  {
    var last := anchors[|anchors| - 1];
    AnchorsSortedFrom(anchors, 0);
    assert Reached(anchors, |anchors|, t) == -1;
    assert Reached(anchors, |anchors|, u) == |anchors| - 1;
    SlotInMonotone(last, last.previousEndTime, u);
  }

  /** At the very start of the first segment the slot is the first anchor's own, however many anchors
      took over at that same time. */
  lemma {:induction false} FirstSlot(defaultTime: int, anchors: seq<Anchor>)
    requires defaultTime > 0 && anchors != [] && Continuous(anchors)
    ensures SlotAt(defaultTime, anchors, anchors[0].previousEndTime) == anchors[0].startTimeslot
  {
    var t := anchors[0].previousEndTime;
    var i := Reached(anchors, |anchors|, t);
    SameStart(anchors, i);
  }

  lemma {:induction false} SameStart(anchors: seq<Anchor>, i: nat)
    requires Continuous(anchors) && i < |anchors| && anchors[i].previousEndTime <= anchors[0].previousEndTime
    ensures anchors[i].previousEndTime == anchors[0].previousEndTime
    ensures anchors[i].startTimeslot == anchors[0].startTimeslot
  {
    AnchorsSorted(anchors, 0, i);
    if i > 0 {
      assert Follows(anchors[i - 1], anchors[i]);
      SameStart(anchors, i - 1);
    }
  }

  /** When exactly a time keeps its order with every later one: it has reached the first anchor, or all
      anchors start with the same slot. */
  lemma {:induction false} OrderKeptIff(defaultTime: int, anchors: seq<Anchor>, t: int)
    requires defaultTime > 0 && anchors != [] && Continuous(anchors)
    ensures (forall u :: t <= u ==> SlotAt(defaultTime, anchors, t) <= SlotAt(defaultTime, anchors, u)) <==>
            Governed(anchors, t) || anchors[|anchors| - 1].startTimeslot <= anchors[0].startTimeslot
  {
    var first, last := anchors[0], anchors[|anchors| - 1];
    FirstSlot(defaultTime, anchors);
    if Governed(anchors, t) {
      forall u | t <= u
        ensures SlotAt(defaultTime, anchors, t) <= SlotAt(defaultTime, anchors, u)
      {
        SlotMonotone(defaultTime, anchors, t, u);
      }
    } else {
      FallbackIsLow(defaultTime, anchors, t, last.previousEndTime);
      if last.startTimeslot <= first.startTimeslot {
        forall u | t <= u
          ensures SlotAt(defaultTime, anchors, t) <= SlotAt(defaultTime, anchors, u)
        {
          if Governed(anchors, u) {
            SlotMonotone(defaultTime, anchors, first.previousEndTime, u);
          } else {
            FallbackIsLow(defaultTime, anchors, u, last.previousEndTime);
          }
        }
      } else {
        assert SlotAt(defaultTime, anchors, t) > SlotAt(defaultTime, anchors, first.previousEndTime);
      }
    }
  }

  /** A time before the first of two anchors gets a later slot than the first anchor's own time. */
  lemma {:induction false} FallbackExample()
    ensures var anchors := [Anchor(100, 100, 10, 20, "a", 2), Anchor(300, 300, 20, 10, "b", 9)];
            Continuous(anchors) && SlotAt(10, anchors, 50) == 20 && SlotAt(10, anchors, 100) == 10
  {
    var anchors := [Anchor(100, 100, 10, 20, "a", 2), Anchor(300, 300, 20, 10, "b", 9)];
    assert Follows(anchors[0], anchors[1]);
    assert Reached(anchors, 1, 50) == -1 && Reached(anchors, 2, 50) == -1;
    assert Reached(anchors, 1, 100) == 0 && Reached(anchors, 2, 100) == 0;
  }

  // ---------------------------------------------------------------------------------------------
  // The manager
  // ---------------------------------------------------------------------------------------------

  datatype Manager = Manager(anchors: seq<Anchor>, version: int, slot: int, proposeTime: int)

  /** What every manager built by the two rules satisfies. */
  ghost predicate Reachable(defaultTime: int, m: Manager)
  {
    && defaultTime > 0 && Continuous(m.anchors)
    && (m.anchors != [] ==> m.anchors[|m.anchors| - 1].previousEndTime <= m.proposeTime)
    && m.slot == SlotAt(defaultTime, m.anchors, m.proposeTime)
  }

  lemma {:induction false} InitialIsReachable(defaultTime: int)
    requires defaultTime > 0
    ensures Reachable(defaultTime, Manager([], 0, 0, 0))
  {
  }

  /** The anchor of one feature as the beacon rule records it. */
  function BeaconAnchor(f: Feature, proposeTime: int, slot: int, height: nat): Anchor
  {
    Anchor(proposeTime, proposeTime, slot, f.blockTime, f.name, height)
  }

  function BeaconAnchors(fs: seq<Feature>, proposeTime: int, slot: int, height: nat): seq<Anchor>
  {
    seq(|fs|, i requires 0 <= i < |fs| => BeaconAnchor(fs[i], proposeTime, slot, height))
  }

  ghost predicate Configured(fs: seq<Feature>)
  {
    forall i :: 0 <= i < |fs| ==> fs[i].blockTime > 0
  }

  /** A beacon block at the given time; `first` and `second` are the features it triggers, in the
      orders the two loops meet them. */
  function BeaconStep(defaultTime: int, m: Manager, version: int, proposeTime: int, height: nat, first: seq<Feature>,
                      second: seq<Feature>): Manager
    requires defaultTime > 0 && Positive(m.anchors)
  {
    var slot := SlotAt(defaultTime, m.anchors, proposeTime);
    Manager(m.anchors + BeaconAnchors(first + second, proposeTime, slot, height), version, slot, proposeTime)
  }

  /** The check is in force: version 2 or above but not 3, after a block with a propose time. */
  predicate SlotChecked(m: Manager, version: int)
  {
    version >= 2 && m.proposeTime > 0 && version != 3
  }

  /** The timeslot check of verifyPreProcessingBeaconBlock. */
  predicate SlotCheckPasses(defaultTime: int, m: Manager, version: int, proposeTime: int)
    requires defaultTime > 0 && Positive(m.anchors)
  {
    SlotChecked(m, version) ==>
      SlotAt(defaultTime, m.anchors, proposeTime) > SlotAt(defaultTime, m.anchors, m.proposeTime)
  }

  /** What the check asks of a block on a reachable manager: nothing of versions below 2 or equal to 3 or
      after a block without propose time, else a slot after the recorded one. */
  lemma {:induction false} CheckPassesIff(defaultTime: int, m: Manager, version: int, proposeTime: int)
    requires Reachable(defaultTime, m)
    ensures SlotCheckPasses(defaultTime, m, version, proposeTime) <==>
            version < 2 || version == 3 || m.proposeTime <= 0 || SlotAt(defaultTime, m.anchors, proposeTime) > m.slot
  {
  }

  /** A checked block is proposed strictly later, even though early times use the fallback. */
  lemma {:induction false} CheckedIsLater(defaultTime: int, m: Manager, version: int, proposeTime: int)
    requires Reachable(defaultTime, m) && SlotChecked(m, version)
        && SlotCheckPasses(defaultTime, m, version, proposeTime)
    ensures proposeTime > m.proposeTime
    ensures SlotAt(defaultTime, m.anchors, proposeTime) > m.slot
  {
    if proposeTime <= m.proposeTime {
      if Governed(m.anchors, proposeTime) {
        SlotMonotone(defaultTime, m.anchors, proposeTime, m.proposeTime);
      } else {
        FallbackIsLow(defaultTime, m.anchors, proposeTime, m.proposeTime);
      }
    }
  }

  /** An anchor that takes over at the given time with the given slot. */
  ghost predicate TakesOver(a: Anchor, time: int, slot: int)
  {
    a.previousEndTime == time && a.startTime >= time && a.startTimeslot == slot && a.timeslot > 0
  }

  lemma {:induction false} TakesOverSlot(a: Anchor, time: int, slot: int)
    requires TakesOver(a, time, slot)
    ensures SlotIn(a, time) == slot
  {
  }

  /** Any number of anchors may take over at one and the same time. */
  lemma {:induction false} AppendSameTime(anchors: seq<Anchor>, added: seq<Anchor>, time: int, slot: int)
    requires Continuous(anchors)
    requires anchors != [] ==>
               anchors[|anchors| - 1].previousEndTime <= time && SlotIn(anchors[|anchors| - 1], time) == slot
    requires forall i :: 0 <= i < |added| ==> TakesOver(added[i], time, slot)
    ensures Continuous(anchors + added)
  {
    var all := anchors + added;
    forall i | 0 <= i < |all|
      ensures all[i].timeslot > 0 && all[i].startTime >= all[i].previousEndTime
    {
      if i >= |anchors| { assert TakesOver(added[i - |anchors|], time, slot); }
    }
    forall i | 0 < i < |all|
      ensures Follows(all[i - 1], all[i])
    {
      if i < |anchors| {
        assert Follows(anchors[i - 1], anchors[i]);
      } else {
        assert TakesOver(added[i - |anchors|], time, slot);
        if i > |anchors| { TakesOverSlot(added[i - 1 - |anchors|], time, slot); }
      }
    }
  }

  lemma {:induction false} LastReached(anchors: seq<Anchor>, t: int)
    requires anchors != [] && t >= anchors[|anchors| - 1].previousEndTime
    ensures Reached(anchors, |anchors|, t) == |anchors| - 1
  {
  }

  /** Beacon blocks that do not go back in time keep the manager reachable, whatever features they
      trigger and in whatever order. */
  lemma {:induction false} BeaconStepKeepsReachable(defaultTime: int, m: Manager, version: int, proposeTime: int,
                                                    height: nat, first: seq<Feature>, second: seq<Feature>)
    requires Reachable(defaultTime, m) && proposeTime >= m.proposeTime
    requires Configured(first) && Configured(second)
    ensures Reachable(defaultTime, BeaconStep(defaultTime, m, version, proposeTime, height, first, second))
  {
    var fs, slot := first + second, SlotAt(defaultTime, m.anchors, proposeTime);
    var next := BeaconStep(defaultTime, m, version, proposeTime, height, first, second);
    if m.anchors != [] { LastReached(m.anchors, proposeTime); }
    AppendSameTime(m.anchors, BeaconAnchors(fs, proposeTime, slot, height), proposeTime, slot);
    if fs == [] {
      assert next.anchors == m.anchors;
    } else {
      assert next.anchors[|next.anchors| - 1] == BeaconAnchor(fs[|fs| - 1], proposeTime, slot, height);
      TakesOverSlot(next.anchors[|next.anchors| - 1], proposeTime, slot);
      LastReached(next.anchors, proposeTime);
    }
  }

  /** Recomputing a block's slot after its own anchors gives the same slot. */
  lemma {:induction false} SlotAfterOwnAnchors(defaultTime: int, anchors: seq<Anchor>, fs: seq<Feature>,
                                               proposeTime: int, height: nat)
    requires defaultTime > 0 && Positive(anchors) && Configured(fs)
    ensures var slot := SlotAt(defaultTime, anchors, proposeTime);
            var all := anchors + BeaconAnchors(fs, proposeTime, slot, height);
            Positive(all) && SlotAt(defaultTime, all, proposeTime) == slot
  {
    var slot := SlotAt(defaultTime, anchors, proposeTime);
    var all := anchors + BeaconAnchors(fs, proposeTime, slot, height);
    if fs == [] {
      assert all == anchors;
    } else {
      assert all[|all| - 1] == BeaconAnchor(fs[|fs| - 1], proposeTime, slot, height);
      TakesOverSlot(all[|all| - 1], proposeTime, slot);
      LastReached(all, proposeTime);
    }
  }

  datatype BeaconBlock = BeaconBlock(version: int, proposeTime: int, height: nat,
                                     first: seq<Feature>, second: seq<Feature>)

  function StepBlock(defaultTime: int, m: Manager, b: BeaconBlock): Manager
    requires defaultTime > 0 && Positive(m.anchors)
  {
    BeaconStep(defaultTime, m, b.version, b.proposeTime, b.height, b.first, b.second)
  }

  /** States before and after each block, every block in force of the check and passing it. */
  ghost predicate CheckedRun(defaultTime: int, ms: seq<Manager>, bs: seq<BeaconBlock>)
  {
    && |ms| == |bs| + 1 && Reachable(defaultTime, ms[0])
    && forall i :: 0 <= i < |bs| ==> CheckedStep(defaultTime, ms[i], bs[i], ms[i + 1])
  }

  ghost predicate CheckedStep(defaultTime: int, m: Manager, b: BeaconBlock, next: Manager)
  {
    && defaultTime > 0 && Positive(m.anchors)
    && Configured(b.first) && Configured(b.second)
    && m.proposeTime > 0 && b.version >= 2 && b.version != 3
    && SlotCheckPasses(defaultTime, m, b.version, b.proposeTime)
    && next == StepBlock(defaultTime, m, b)
  }

  lemma {:induction false} CheckedRunReachable(defaultTime: int, ms: seq<Manager>, bs: seq<BeaconBlock>, n: nat)
    requires CheckedRun(defaultTime, ms, bs) && n <= |bs|
    ensures Reachable(defaultTime, ms[n])
    ensures n > 0 ==> ms[n].proposeTime > ms[n - 1].proposeTime && ms[n].slot > ms[n - 1].slot
  {
    if n > 0 {
      CheckedRunReachable(defaultTime, ms, bs, n - 1);
      var m, b := ms[n - 1], bs[n - 1];
      assert CheckedStep(defaultTime, m, b, ms[n]);
      CheckedIsLater(defaultTime, m, b.version, b.proposeTime);
      BeaconStepKeepsReachable(defaultTime, m, b.version, b.proposeTime, b.height, b.first, b.second);
    }
  }

  /** Along every run of checked beacon blocks, propose times and slots strictly increase. */
  lemma {:induction false} CheckedRunIncreases(defaultTime: int, ms: seq<Manager>, bs: seq<BeaconBlock>, i: nat, j: nat)
    requires CheckedRun(defaultTime, ms, bs) && i < j <= |bs|
    ensures ms[i].proposeTime < ms[j].proposeTime && ms[i].slot < ms[j].slot
    decreases j
  {
    CheckedRunReachable(defaultTime, ms, bs, j);
    if i < j - 1 { CheckedRunIncreases(defaultTime, ms, bs, i, j - 1); }
  }

  // ---------------------------------------------------------------------------------------------
  // The shard rule
  // ---------------------------------------------------------------------------------------------

  function AnchorStart(endTime: int, proposeTime: int, blockTime: int): int
    requires blockTime > 0
  {
    endTime + (proposeTime - endTime) % blockTime
  }

  function ShardAnchor(f: Feature, endTime: int, proposeTime: int, lastSlot: int, height: nat): Anchor
    requires f.blockTime > 0 && height >= 1
  {
    Anchor(endTime, AnchorStart(endTime, proposeTime, f.blockTime), lastSlot, f.blockTime, f.name, height - 1)
  }

  function ShardAnchors(fs: seq<Feature>, endTime: int, proposeTime: int, lastSlot: int, height: nat): seq<Anchor>
    requires Configured(fs) && height >= 1
  {
    seq(|fs|, i requires 0 <= i < |fs| => ShardAnchor(fs[i], endTime, proposeTime, lastSlot, height))
  }

  /** Every new block time fits between the last block and this one; otherwise the source panics. */
  ghost predicate EnoughTime(fs: seq<Feature>, endTime: int, proposeTime: int)
  {
    forall i :: 0 <= i < |fs| ==> proposeTime - fs[i].blockTime >= endTime
  }

  /** A shard state: `fs` are the features of its version, met only when the version changes. */
  function ShardStep(defaultTime: int, m: Manager, version: int, proposeTime: int, height: nat,
                     fs: seq<Feature>): (next: Manager)
    requires defaultTime > 0 && Positive(m.anchors) && Configured(fs) && height >= 1
    ensures Positive(next.anchors)
  {
    var anchors := m.anchors
      + if m.version == version then [] else ShardAnchors(fs, m.proposeTime, proposeTime, m.slot, height);
    Manager(anchors, version, SlotAt(defaultTime, anchors, proposeTime), proposeTime)
  }

  lemma {:induction false} WholeBlockTimes(d: int, blockTime: int)
    requires blockTime > 0
    ensures 0 <= d % blockTime < blockTime
    ensures d >= 0 ==> d % blockTime <= d && (d - d % blockTime) / blockTime == d / blockTime
  {
    DivMod(d, blockTime);
    MulDiv(d / blockTime, blockTime);
    if d >= 0 { DivNonNegative(d, blockTime); }
  }

  lemma {:induction false} StartWithinBlockTime(endTime: int, proposeTime: int, blockTime: int)
    requires blockTime > 0
    ensures endTime <= AnchorStart(endTime, proposeTime, blockTime) < endTime + blockTime
    ensures proposeTime >= endTime ==>
              && AnchorStart(endTime, proposeTime, blockTime) <= proposeTime
              && (proposeTime - AnchorStart(endTime, proposeTime, blockTime)) / blockTime
                  == (proposeTime - endTime) / blockTime
  {
    var d := proposeTime - endTime;
    WholeBlockTimes(d, blockTime);
    assert proposeTime - AnchorStart(endTime, proposeTime, blockTime) == d - d % blockTime;
  }

  lemma {:induction false} ShardAnchorsTakeOver(fs: seq<Feature>, endTime: int, proposeTime: int, lastSlot: int,
                                                height: nat)
    requires Configured(fs) && height >= 1
    ensures forall i :: 0 <= i < |fs| ==>
              TakesOver(ShardAnchors(fs, endTime, proposeTime, lastSlot, height)[i], endTime, lastSlot)
  {
    forall i | 0 <= i < |fs|
      ensures TakesOver(ShardAnchors(fs, endTime, proposeTime, lastSlot, height)[i], endTime, lastSlot)
    {
      StartWithinBlockTime(endTime, proposeTime, fs[i].blockTime);
    }
  }

  /** Shard blocks that do not go back in time keep the manager reachable. */
  lemma {:induction false} ShardStepKeepsReachable(defaultTime: int, m: Manager, version: int, proposeTime: int,
                                                   height: nat, fs: seq<Feature>)
    requires Reachable(defaultTime, m) && Configured(fs) && height >= 1 && proposeTime >= m.proposeTime
    ensures Reachable(defaultTime, ShardStep(defaultTime, m, version, proposeTime, height, fs))
  {
    if m.anchors != [] { LastReached(m.anchors, m.proposeTime); }
    ShardAnchorsTakeOver(fs, m.proposeTime, proposeTime, m.slot, height);
    AppendSameTime(m.anchors, ShardAnchors(fs, m.proposeTime, proposeTime, m.slot, height), m.proposeTime, m.slot);
    var next := ShardStep(defaultTime, m, version, proposeTime, height, fs);
    if m.version == version || fs == [] {
      assert next.anchors == m.anchors;
    } else {
      assert next.anchors[|next.anchors| - 1] == ShardAnchor(fs[|fs| - 1], m.proposeTime, proposeTime, m.slot, height);
    }
  }

  /** The slot of a shard block that changes the block time: whole new block times since the last
      block, on top of the last slot, and at least one more. */
  lemma {:induction false} ShardChangeSlot(defaultTime: int, m: Manager, version: int, proposeTime: int, height: nat,
                                           fs: seq<Feature>)
    requires Reachable(defaultTime, m) && Configured(fs) && fs != [] && height >= 1 && m.version != version
    requires EnoughTime(fs, m.proposeTime, proposeTime)
    ensures var blockTime := fs[|fs| - 1].blockTime;
            ShardStep(defaultTime, m, version, proposeTime, height, fs).slot
            == m.slot + (proposeTime - m.proposeTime) / blockTime >= m.slot + 1
  {
    var f := fs[|fs| - 1];
    StartWithinBlockTime(m.proposeTime, proposeTime, f.blockTime);
    var next := ShardStep(defaultTime, m, version, proposeTime, height, fs);
    assert next.anchors[|next.anchors| - 1] == ShardAnchor(f, m.proposeTime, proposeTime, m.slot, height);
    LastReached(next.anchors, proposeTime);
    MulDiv(1, f.blockTime);
    DivMonotone(f.blockTime, proposeTime - m.proposeTime, f.blockTime);
  }

  /** Appending by either rule keeps every governed slot up to the new segment, and no slot of a
      reachable manager ever goes back on governed times. */
  lemma {:induction false} StepKeepsGovernedSlots(defaultTime: int, before: seq<Anchor>, added: seq<Anchor>, t: int)
    requires defaultTime > 0 && before != [] && Continuous(before + added) && Governed(before, t)
    requires forall i :: 0 <= i < |added| ==> t <= added[i].previousEndTime
    ensures Continuous(before)
    ensures SlotAt(defaultTime, before + added, t) == SlotAt(defaultTime, before, t)
    decreases |added|
  {
    if added == [] {
      assert before + added == before;
    } else {
      var front, a := added[..|added| - 1], added[|added| - 1];
      assert before + added == before + front + [a];
      AppendKeepsSlots(defaultTime, before + front, a, t);
      StepKeepsGovernedSlots(defaultTime, before, front, t);
    }
  }

  // ---------------------------------------------------------------------------------------------
  // Slots ahead
  // ---------------------------------------------------------------------------------------------

  /** Without anchors a slot lasts one configured default block time, from time 0 on. */
  lemma {:induction false} DefaultSlots(defaultTime: int, t: int)
    requires defaultTime > 0
    ensures SlotAt(defaultTime, [], t) == if t >= 0 then t / defaultTime else 0
  {
    MulDiv(0, defaultTime);
  }

  /** From the last of the anchors a block adds on, slots are counted in its block time. */
  lemma {:induction false} LastAnchorRules(defaultTime: int, anchors: seq<Anchor>, t: int)
    requires defaultTime > 0 && Positive(anchors) && anchors != []
    requires var a := anchors[|anchors| - 1]; t >= a.startTime >= a.previousEndTime
    ensures var a := anchors[|anchors| - 1];
            SlotAt(defaultTime, anchors, t) == a.startTimeslot + (t - a.startTime) / a.timeslot
  {
    LastReached(anchors, t);
    MulDiv(0, anchors[|anchors| - 1].timeslot);
  }

  /** After a beacon block the slots go on in the block time of the last feature it triggers, and as
      before if it triggers none. */
  lemma {:induction false} BeaconSlotsAhead(defaultTime: int, m: Manager, b: BeaconBlock, t: int)
    requires Reachable(defaultTime, m) && b.proposeTime >= m.proposeTime && Configured(b.first) && Configured(b.second)
    requires t >= b.proposeTime
    ensures var fs, next := b.first + b.second, StepBlock(defaultTime, m, b);
            && Reachable(defaultTime, next)
            && SlotAt(defaultTime, next.anchors, t)
               == if fs == [] then SlotAt(defaultTime, m.anchors, t)
                  else next.slot + (t - b.proposeTime) / fs[|fs| - 1].blockTime
  {
    BeaconStepKeepsReachable(defaultTime, m, b.version, b.proposeTime, b.height, b.first, b.second);
    var fs, next := b.first + b.second, StepBlock(defaultTime, m, b);
    if fs == [] {
      assert next.anchors == m.anchors;
    } else {
      assert next.anchors[|next.anchors| - 1] == BeaconAnchor(fs[|fs| - 1], b.proposeTime, next.slot, b.height);
      LastAnchorRules(defaultTime, next.anchors, t);
    }
  }

  // ---------------------------------------------------------------------------------------------
  // Slots of the past
  // ---------------------------------------------------------------------------------------------

  /** A beacon block changes no governed slot up to its own propose time. */
  lemma {:induction false} BeaconStepKeepsSlots(defaultTime: int, m: Manager, b: BeaconBlock, t: int)
    requires Reachable(defaultTime, m) && b.proposeTime >= m.proposeTime && Configured(b.first) && Configured(b.second)
    requires m.anchors != [] && Governed(m.anchors, t) && t <= b.proposeTime
    ensures Reachable(defaultTime, StepBlock(defaultTime, m, b))
    ensures SlotAt(defaultTime, StepBlock(defaultTime, m, b).anchors, t) == SlotAt(defaultTime, m.anchors, t)
  {
    BeaconStepKeepsReachable(defaultTime, m, b.version, b.proposeTime, b.height, b.first, b.second);
    var slot := SlotAt(defaultTime, m.anchors, b.proposeTime);
    var added := BeaconAnchors(b.first + b.second, b.proposeTime, slot, b.height);
    StepKeepsGovernedSlots(defaultTime, m.anchors, added, t);
  }

  /** A governed time that the chain of a reachable manager has reached. */
  ghost predicate Past(defaultTime: int, m: Manager, t: int)
  {
    Reachable(defaultTime, m) && m.anchors != [] && Governed(m.anchors, t) && t <= m.proposeTime
  }

  lemma {:induction false} CheckedStepKeepsSlots(defaultTime: int, m: Manager, b: BeaconBlock, next: Manager, t: int)
    requires Past(defaultTime, m, t) && CheckedStep(defaultTime, m, b, next)
    ensures Past(defaultTime, next, t)
    ensures SlotAt(defaultTime, next.anchors, t) == SlotAt(defaultTime, m.anchors, t)
  {
    CheckedIsLater(defaultTime, m, b.version, b.proposeTime);
    BeaconStepKeepsSlots(defaultTime, m, b, t);
  }

  /** Along every checked run of beacon blocks, the slot of a governed time stays what it was when the
      chain had reached that time. */
  lemma {:induction false} CheckedRunKeepsSlots(defaultTime: int, ms: seq<Manager>, bs: seq<BeaconBlock>, i: nat,
                                                j: nat, t: int)
    requires CheckedRun(defaultTime, ms, bs) && i <= j <= |bs| && Past(defaultTime, ms[i], t)
    ensures Past(defaultTime, ms[j], t)
    ensures SlotAt(defaultTime, ms[j].anchors, t) == SlotAt(defaultTime, ms[i].anchors, t)
    decreases j
  {
    if i < j {
      CheckedRunKeepsSlots(defaultTime, ms, bs, i, j - 1, t);
      CheckedStepKeepsSlots(defaultTime, ms[j - 1], bs[j - 1], ms[j], t);
    }
  }

  datatype ShardBlock = ShardBlock(version: int, proposeTime: int, height: nat, features: seq<Feature>)

  function StepShardBlock(defaultTime: int, m: Manager, b: ShardBlock): Manager
    requires defaultTime > 0 && Positive(m.anchors) && Configured(b.features) && b.height >= 1
  {
    ShardStep(defaultTime, m, b.version, b.proposeTime, b.height, b.features)
  }

  /** A confirmed shard block changes no governed slot up to the block before it. */
  lemma {:induction false} ShardStepKeepsSlots(defaultTime: int, m: Manager, b: ShardBlock, t: int)
    requires Reachable(defaultTime, m) && b.proposeTime >= m.proposeTime && Configured(b.features) && b.height >= 1
    requires m.anchors != [] && Governed(m.anchors, t) && t <= m.proposeTime
    ensures Reachable(defaultTime, StepShardBlock(defaultTime, m, b))
    ensures SlotAt(defaultTime, StepShardBlock(defaultTime, m, b).anchors, t) == SlotAt(defaultTime, m.anchors, t)
  {
    ShardStepKeepsReachable(defaultTime, m, b.version, b.proposeTime, b.height, b.features);
    var added := if m.version == b.version then []
                 else ShardAnchors(b.features, m.proposeTime, b.proposeTime, m.slot, b.height);
    StepKeepsGovernedSlots(defaultTime, m.anchors, added, t);
  }

  /** After a shard block that changes the version the slots go on in the block time of its last
      feature, and as before if it has none. */
  lemma {:induction false} ShardSlotsAhead(defaultTime: int, m: Manager, b: ShardBlock, t: int)
    requires Reachable(defaultTime, m) && Configured(b.features) && b.height >= 1
    requires m.version != b.version && EnoughTime(b.features, m.proposeTime, b.proposeTime)
    requires t >= b.proposeTime
    ensures var fs, next := b.features, StepShardBlock(defaultTime, m, b);
            SlotAt(defaultTime, next.anchors, t)
            == if fs == [] then SlotAt(defaultTime, m.anchors, t)
               else next.slot + (t - b.proposeTime) / fs[|fs| - 1].blockTime
  {
    var fs, next := b.features, StepShardBlock(defaultTime, m, b);
    if fs == [] {
      assert next.anchors == m.anchors;
    } else {
      var f := fs[|fs| - 1];
      var start, d := AnchorStart(m.proposeTime, b.proposeTime, f.blockTime), b.proposeTime - m.proposeTime;
      StartWithinBlockTime(m.proposeTime, b.proposeTime, f.blockTime);
      assert next.anchors[|next.anchors| - 1] == ShardAnchor(f, m.proposeTime, b.proposeTime, m.slot, b.height);
      LastAnchorRules(defaultTime, next.anchors, t);
      LastAnchorRules(defaultTime, next.anchors, b.proposeTime);
      DivMod(d, f.blockTime);
      assert b.proposeTime - start == (d / f.blockTime) * f.blockTime;
      DivShift(d / f.blockTime, t - b.proposeTime, f.blockTime);
      DivShift(d / f.blockTime, 0, f.blockTime);
      MulDiv(0, f.blockTime);
    }
  }

  /** A version takes effect once: a further block of the same version adds no anchor. */
  lemma {:induction false} VersionTakenOnce(defaultTime: int, m: Manager, b: ShardBlock, c: ShardBlock)
    requires defaultTime > 0 && Positive(m.anchors) && Configured(b.features) && b.height >= 1
    requires Configured(c.features) && c.height >= 1 && c.version == b.version
    ensures var next := StepShardBlock(defaultTime, m, b);
            StepShardBlock(defaultTime, next, c).anchors == next.anchors
  {
    var next := StepShardBlock(defaultTime, m, b);
    assert next.anchors + [] == next.anchors;
  }

  /** Confirmed shard blocks that do not go back in time and, at a change of version, leave the new
      block time room. */
  ghost predicate ShardRun(defaultTime: int, ms: seq<Manager>, bs: seq<ShardBlock>)
  {
    && |ms| == |bs| + 1 && Reachable(defaultTime, ms[0])
    && forall i: nat :: i < |bs| ==> ShardRunStepAt(defaultTime, ms, bs, i)
  }

  ghost predicate ShardRunStepAt(defaultTime: int, ms: seq<Manager>, bs: seq<ShardBlock>, i: nat)
    requires |ms| == |bs| + 1 && i < |bs|
  {
    ShardRunStep(defaultTime, ms[i], bs[i], ms[i + 1])
  }

  ghost predicate ShardRunStep(defaultTime: int, m: Manager, b: ShardBlock, next: Manager)
  {
    && defaultTime > 0 && Positive(m.anchors) && Configured(b.features) && b.height >= 1
    && b.proposeTime >= m.proposeTime
    && (m.version != b.version ==> EnoughTime(b.features, m.proposeTime, b.proposeTime))
    && next == StepShardBlock(defaultTime, m, b)
  }

  /** Every state of such a run is reachable and no block's slot is before its predecessor's. */
  lemma {:induction false} ShardRunReachable(defaultTime: int, ms: seq<Manager>, bs: seq<ShardBlock>, n: nat)
    requires ShardRun(defaultTime, ms, bs) && n <= |bs|
    ensures Reachable(defaultTime, ms[n])
    ensures n > 0 ==> ms[n].proposeTime >= ms[n - 1].proposeTime && ms[n].slot >= ms[n - 1].slot
  {
    if n > 0 {
      ShardRunReachable(defaultTime, ms, bs, n - 1);
      assert ShardRunStepAt(defaultTime, ms, bs, n - 1);
      ShardRunNext(defaultTime, ms[n - 1], bs[n - 1], ms[n]);
    }
  }

  lemma {:induction false} ShardRunNext(defaultTime: int, m: Manager, b: ShardBlock, next: Manager)
    requires Reachable(defaultTime, m) && ShardRunStep(defaultTime, m, b, next)
    ensures Reachable(defaultTime, next) && next.proposeTime >= m.proposeTime && next.slot >= m.slot
  {
    ShardStepKeepsReachable(defaultTime, m, b.version, b.proposeTime, b.height, b.features);
    if m.version != b.version && b.features != [] {
      ShardChangeSlot(defaultTime, m, b.version, b.proposeTime, b.height, b.features);
    } else {
      assert next.anchors == m.anchors;
      if m.anchors != [] { AnchorsSorted(m.anchors, 0, |m.anchors| - 1); }
      SlotMonotone(defaultTime, m.anchors, m.proposeTime, b.proposeTime);
    }
  }

  lemma {:induction false} ShardRunStepKeepsSlots(defaultTime: int, m: Manager, b: ShardBlock, next: Manager, t: int)
    requires Past(defaultTime, m, t) && ShardRunStep(defaultTime, m, b, next)
    ensures Past(defaultTime, next, t)
    ensures SlotAt(defaultTime, next.anchors, t) == SlotAt(defaultTime, m.anchors, t)
  {
    ShardStepKeepsSlots(defaultTime, m, b, t);
  }

  /** Along every such run the slot of a governed time that the shard has reached never changes. */
  lemma {:induction false} ShardRunKeepsSlots(defaultTime: int, ms: seq<Manager>, bs: seq<ShardBlock>, i: nat, j: nat,
                                              t: int)
    requires ShardRun(defaultTime, ms, bs) && i <= j <= |bs| && Past(defaultTime, ms[i], t)
    ensures Past(defaultTime, ms[j], t)
    ensures SlotAt(defaultTime, ms[j].anchors, t) == SlotAt(defaultTime, ms[i].anchors, t)
    decreases j
  {
    if i < j {
      ShardRunKeepsSlots(defaultTime, ms, bs, i, j - 1, t);
      assert ShardRunStepAt(defaultTime, ms, bs, j - 1);
      ShardRunStepKeepsSlots(defaultTime, ms[j - 1], bs[j - 1], ms[j], t);
    }
  }
}
