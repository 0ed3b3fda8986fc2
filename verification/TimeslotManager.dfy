/** The timeslot manager as an object: anchors are appended, current fields overwritten. */
module TimeslotManager {
  import opened Arithmetic
  import opened Timeslot

  class TSManager {
    var anchors: seq<Anchor>
    var currentBlockVersion: int
    var currentBlockTS: int
    var currentProposeTime: int

    ghost function State(): Manager
      reads this
    {
      Manager(anchors, currentBlockVersion, currentBlockTS, currentProposeTime)
    }

    constructor ()
      ensures State() == Manager([], 0, 0, 0)
    {
      anchors, currentBlockVersion, currentBlockTS, currentProposeTime := [], 0, 0, 0;
    }

    method UpdateNewAnchor(previousEndTime: int, startTime: int, startTS: int, timeslot: int, feature: string,
                           blockHeight: nat)
      modifies this`anchors
      ensures anchors == old(anchors) + [Anchor(previousEndTime, startTime, startTS, timeslot, feature, blockHeight)]
    {
      anchors := anchors + [Anchor(previousEndTime, startTime, startTS, timeslot, feature, blockHeight)];
    }

    method UpdateCurrentInfo(version: int, currentTS: int, proposeTime: int)
      modifies this`currentBlockVersion, this`currentBlockTS, this`currentProposeTime
      ensures currentBlockVersion == version && currentBlockTS == currentTS && currentProposeTime == proposeTime
    {
      currentBlockVersion, currentBlockTS, currentProposeTime := version, currentTS, proposeTime;
    }

    /** Scan the anchors from the latest to the first that t has reached. */
    method CalculateTimeslot(defaultTime: int, t: int) returns (slot: int)
      requires defaultTime > 0 && Positive(anchors)
      ensures slot == SlotAt(defaultTime, anchors, t)
    {
      var checkpoint := if anchors == [] then Anchor(0, 0, 0, 0, "", 0) else anchors[|anchors| - 1];
      var i := |anchors|;
      ghost var reached := Reached(anchors, |anchors|, t);
      while i > 0
        invariant 0 <= i <= |anchors| && reached == Reached(anchors, i, t)
        invariant anchors != [] ==> checkpoint == anchors[|anchors| - 1]
        invariant anchors == [] ==> checkpoint.timeslot == 0
      {
        i := i - 1;
        if t >= anchors[i].previousEndTime {
          checkpoint := anchors[i];
          break;
        }
      }
      if checkpoint.timeslot == 0 {
        checkpoint := DefaultAnchor(defaultTime);
      }
      var rangeTS := 0;
      if t > checkpoint.startTime {
        rangeTS := t - checkpoint.startTime;
      }
      slot := checkpoint.startTimeslot + rangeTS / checkpoint.timeslot;
    }

    /** The timeslot check on a received beacon block. */
    method CheckTimeslot(defaultTime: int, version: int, proposeTime: int) returns (ok: bool)
      requires defaultTime > 0 && Positive(anchors)
      ensures ok <==> SlotCheckPasses(defaultTime, State(), version, proposeTime)
    {
      if version >= 2 && currentProposeTime > 0 && version != 3 {
        var slot := CalculateTimeslot(defaultTime, proposeTime);
        var lastSlot := CalculateTimeslot(defaultTime, currentProposeTime);
        return slot > lastSlot;
      }
      ok := true;
    }

    method AppendBeaconAnchors(features: seq<Feature>, proposeTime: int, slot: int, height: nat)
      modifies this`anchors
      ensures anchors == old(anchors) + BeaconAnchors(features, proposeTime, slot, height)
    {
      for i := 0 to |features|
        invariant anchors == old(anchors) + BeaconAnchors(features, proposeTime, slot, height)[..i]
      {
        UpdateNewAnchor(proposeTime, proposeTime, slot, features[i].blockTime, features[i].name, height);
      }
    }

    /** The beacon part of the checkpoint: one pass before the current fields are set and, after the
        shards, a second pass that recomputes the slot and finds it unchanged. */
    method BeaconCheckpoint(defaultTime: int, version: int, proposeTime: int, height: nat, first: seq<Feature>,
                            second: seq<Feature>)
      requires defaultTime > 0 && Positive(anchors) && Configured(first) && Configured(second)
      modifies this
      ensures State() == BeaconStep(defaultTime, old(State()), version, proposeTime, height, first, second)
    {
      ghost var m := State();
      SlotAfterOwnAnchors(defaultTime, anchors, first, proposeTime, height);
      var curTS := CalculateTimeslot(defaultTime, proposeTime);
      AppendBeaconAnchors(first, proposeTime, curTS, height);
      UpdateCurrentInfo(version, curTS, proposeTime);
      var again := CalculateTimeslot(defaultTime, proposeTime);
      AppendBeaconAnchors(second, proposeTime, again, height);
      assert again == curTS;
      assert anchors == m.anchors + BeaconAnchors(first + second, proposeTime, curTS, height);
    }

    /** Walk the start time back in whole block times; `ok` is false where the source panics. */
    method FindAnchorStart(endTime: int, proposeTime: int, blockTime: int) returns (startTime: int, ok: bool)
      requires blockTime > 0
      ensures ok <==> proposeTime - blockTime >= endTime
      ensures ok ==> startTime == AnchorStart(endTime, proposeTime, blockTime)
    {
      startTime := proposeTime - blockTime;
      ghost var n := 1;
      while startTime >= endTime + blockTime
        invariant n >= 1 && startTime == proposeTime - n * blockTime
        invariant startTime >= endTime || n == 1
        invariant proposeTime - blockTime >= endTime ==> startTime >= endTime
        decreases startTime - endTime
      {
        startTime := startTime - blockTime;
        n := n + 1;
      }
      ok := startTime >= endTime;
      if ok {
        assert proposeTime - endTime == n * blockTime + (startTime - endTime);
        DivUnique(proposeTime - endTime, blockTime, n);
        MulMonotone(1, n, blockTime);
      }
    }

    /** The shard part of the checkpoint for one shard state; false where the source panics. */
    method ShardCheckpoint(defaultTime: int, version: int, proposeTime: int, height: nat, features: seq<Feature>)
      returns (ok: bool)
      requires defaultTime > 0 && Positive(anchors) && Configured(features) && height >= 1
      modifies this
      ensures ok <==> old(currentBlockVersion) == version || EnoughTime(features, old(currentProposeTime), proposeTime)
      ensures ok ==> State() == ShardStep(defaultTime, old(State()), version, proposeTime, height, features)
    {
      ghost var m := State();
      if currentBlockVersion != version {
        var lastTS, endTime := currentBlockTS, currentProposeTime;
        for i := 0 to |features|
          invariant EnoughTime(features[..i], endTime, proposeTime)
          invariant anchors == m.anchors + ShardAnchors(features, endTime, proposeTime, lastTS, height)[..i]
          invariant State() == m.(anchors := anchors)
        {
          var startTime, fits := FindAnchorStart(endTime, proposeTime, features[i].blockTime);
          if !fits {
            return false;
          }
          UpdateNewAnchor(endTime, startTime, lastTS, features[i].blockTime, features[i].name, height - 1);
        }
        assert features[..|features|] == features;
      }
      assert anchors == ShardStep(defaultTime, m, version, proposeTime, height, features).anchors;
      var slot := CalculateTimeslot(defaultTime, proposeTime);
      UpdateCurrentInfo(version, slot, proposeTime);
      ok := true;
    }
  }
}
