/**
 The persistent "next cross-shard height" list of one (from, to) pair of shards.

 The table maps a shard height to the next confirmed cross-shard block; the list starts at height 0
 and the cursor is the height of its last block (blockchain/beaconprocess.go, the body of
 processBeaconForConfirmmingCrossShard for one pair).
 */
module CrossShardLinks {
  import opened BlockTree

  datatype NextCrossShardInfo = NextCrossShardInfo(
    nextHeight: nat, nextHash: Hash, confirmHeight: nat, confirmHash: Hash)

  type Links = map<nat, NextCrossShardInfo>

  datatype PairState = PairState(links: Links, cursor: nat)

  /** Confirm one block: link it from the cursor unless that link exists, then move the cursor. */
  function Confirm(s: PairState, e: NextCrossShardInfo): PairState
  {
    PairState(if s.cursor in s.links then s.links else s.links[s.cursor := e], e.nextHeight)
  }

  function Advance(s: PairState, es: seq<NextCrossShardInfo>): PairState
  {
    if es == [] then s else Confirm(Advance(s, es[..|es| - 1]), es[|es| - 1])
  }

  /** The i-th height on the list: 0, then the confirmed heights. */
  function NodeAt(es: seq<NextCrossShardInfo>, i: nat): nat
    requires i <= |es|
  {
    if i == 0 then 0 else es[i - 1].nextHeight
  }

  function Tail(es: seq<NextCrossShardInfo>): nat
  {
    NodeAt(es, |es|)
  }

  ghost predicate Distinct(es: seq<NextCrossShardInfo>)
  {
    forall i: nat, j: nat :: i < j <= |es| ==> NodeAt(es, i) != NodeAt(es, j)
  }

  /** Following the links from height 0 visits exactly es, in order, and stops there. */
  ghost predicate Enumerates(links: Links, es: seq<NextCrossShardInfo>)
  {
    && (forall i: nat {:trigger NodeAt(es, i)} :: i < |es| ==> NodeAt(es, i) in links && links[NodeAt(es, i)] == es[i])
    && Tail(es) !in links
  }

  /** The table holds nothing but the links of the list. */
  ghost predicate NothingElse(links: Links, es: seq<NextCrossShardInfo>)
  {
    forall h :: h in links ==> exists i: nat :: i < |es| && NodeAt(es, i) == h
  }

  lemma {:induction false} AdvanceConcat(s: PairState, a: seq<NextCrossShardInfo>, b: seq<NextCrossShardInfo>)
    ensures Advance(Advance(s, a), b) == Advance(s, a + b)
    decreases |b|
  {
    if b == [] {
      assert a + b == a;
    } else {
      assert (a + b)[..|a + b| - 1] == a + b[..|b| - 1];
      AdvanceConcat(s, a, b[..|b| - 1]);
    }
  }

  lemma {:induction false} AdvanceCursor(s: PairState, es: seq<NextCrossShardInfo>)
    ensures Advance(s, es).cursor == if es == [] then s.cursor else Tail(es)
  {
  }

  /** A list enumerated by some table cannot meet a height twice: it would run in a circle. */
  lemma {:induction false} EnumeratedIsDistinct(links: Links, es: seq<NextCrossShardInfo>, i: nat, j: nat)
    requires Enumerates(links, es) && i < j <= |es|
    ensures NodeAt(es, i) != NodeAt(es, j)
    decreases |es| - j
  {
    if NodeAt(es, i) == NodeAt(es, j) && j < |es| {
      assert es[i] == es[j];
      EnumeratedIsDistinct(links, es, i + 1, j + 1);
    }
  }

  /** What a table enumerates is determined by the table. */
  lemma {:induction false} EnumerationIsUnique(links: Links, a: seq<NextCrossShardInfo>, b: seq<NextCrossShardInfo>,
                                               i: nat)
    requires Enumerates(links, a) && Enumerates(links, b) && i <= |a| && i <= |b|
    ensures NodeAt(a, i) == NodeAt(b, i) && (i < |a| <==> i < |b|)
    ensures i < |a| ==> a[i] == b[i]
  {
    if i > 0 { EnumerationIsUnique(links, a, b, i - 1); }
    assert i < |a| <==> NodeAt(a, i) in links;
    assert i < |b| <==> NodeAt(b, i) in links;
  }

  lemma {:induction false} NodesOfAppend(es: seq<NextCrossShardInfo>, e: NextCrossShardInfo)
    ensures forall i: nat :: i <= |es| ==> NodeAt(es + [e], i) == NodeAt(es, i)
    ensures Tail(es + [e]) == e.nextHeight
  {
  }

  ghost predicate Fresh(es: seq<NextCrossShardInfo>, e: NextCrossShardInfo)
  {
    forall i: nat :: i <= |es| ==> NodeAt(es, i) != e.nextHeight
  }

  lemma {:induction false} LastIsFresh(es: seq<NextCrossShardInfo>, e: NextCrossShardInfo)
    requires Distinct(es + [e])
    ensures Fresh(es, e)
  {
    NodesOfAppend(es, e);
    forall i: nat | i <= |es|
      ensures NodeAt(es, i) != e.nextHeight
    {
      assert NodeAt(es + [e], i) != NodeAt(es + [e], |es| + 1);
    }
  }

  lemma {:induction false} ConfirmEnumerates(s: PairState, es: seq<NextCrossShardInfo>, e: NextCrossShardInfo)
    requires Enumerates(s.links, es) && NothingElse(s.links, es) && s.cursor == Tail(es)
    requires Fresh(es, e)
    ensures Enumerates(Confirm(s, e).links, es + [e])
  {
    var next, links := es + [e], Confirm(s, e).links;
    NodesOfAppend(es, e);
    forall i: nat | i < |next|
      ensures NodeAt(next, i) in links && links[NodeAt(next, i)] == next[i]
    {
      if i < |es| { assert NodeAt(es, i) in s.links; }
    }
  }

  lemma {:induction false} ConfirmAddsOne(s: PairState, es: seq<NextCrossShardInfo>, e: NextCrossShardInfo)
    requires NothingElse(s.links, es) && s.cursor == Tail(es)
    ensures NothingElse(Confirm(s, e).links, es + [e])
  {
    var next := es + [e];
    NodesOfAppend(es, e);
    forall h | h in Confirm(s, e).links
      ensures exists i: nat :: i < |next| && NodeAt(next, i) == h
    {
      if h in s.links {
        var i: nat :| i < |es| && NodeAt(es, i) == h;
        assert NodeAt(next, i) == h;
      } else {
        assert NodeAt(next, |es|) == h;
      }
    }
  }

  lemma {:induction false} DistinctPrefix(es: seq<NextCrossShardInfo>, n: nat)
    requires Distinct(es) && n <= |es|
    ensures Distinct(es[..n])
  {
    var a := es[..n];
    assert forall i: nat :: i <= n ==> NodeAt(a, i) == NodeAt(es, i);
  }

  /** From a cursor at the end of the list, confirming further blocks extends the list by them. */
  lemma {:induction false} AdvanceFromTail(s: PairState, es: seq<NextCrossShardInfo>, more: seq<NextCrossShardInfo>)
    requires Enumerates(s.links, es) && NothingElse(s.links, es) && s.cursor == Tail(es)
    requires Distinct(es + more)
    ensures Enumerates(Advance(s, more).links, es + more) && NothingElse(Advance(s, more).links, es + more)
    ensures Advance(s, more).cursor == Tail(es + more)
    decreases |more|
  {
    if more == [] {
      assert es + more == es;
    } else {
      var front, e := more[..|more| - 1], more[|more| - 1];
      var all := es + more;
      assert all[..|all| - 1] == es + front;
      assert all == es + front + [e];
      DistinctPrefix(all, |all| - 1);
      AdvanceFromTail(s, es, front);
      LastIsFresh(es + front, e);
      ConfirmEnumerates(Advance(s, front), es + front, e);
      ConfirmAddsOne(Advance(s, front), es + front, e);
    }
  }

  lemma {:induction false} AdvanceAddsOnly(s: PairState, es: seq<NextCrossShardInfo>, h: nat)
    requires h in Advance(s, es).links
    ensures h in s.links || h == s.cursor || exists i: nat :: i < |es| && es[i].nextHeight == h
  {
    if es != [] {
      var front := es[..|es| - 1];
      AdvanceCursor(s, front);
      if h in Advance(s, front).links {
        AdvanceAddsOnly(s, front, h);
        if i: nat :| i < |front| && front[i].nextHeight == h { assert es[i].nextHeight == h; }
      } else if front != [] {
        assert es[|front| - 1].nextHeight == h;
      }
    }
  }

  /** From a cursor elsewhere, nothing is ever linked from the end of the list. */
  lemma {:induction false} TailStaysFree(links: Links, cursor: nat, es: seq<NextCrossShardInfo>,
                                         more: seq<NextCrossShardInfo>)
    requires Enumerates(links, es) && NothingElse(links, es) && Distinct(es + more) && cursor != Tail(es)
    ensures Tail(es) !in Advance(PairState(links, cursor), more).links
  {
    var s, all := PairState(links, cursor), es + more;
    assert NodeAt(all, |es|) == Tail(es);
    forall i: nat | i < |more|
      ensures more[i].nextHeight != Tail(es)
    {
      assert NodeAt(all, |es| + i + 1) == more[i].nextHeight;
    }
    if Tail(es) in Advance(s, more).links { AdvanceAddsOnly(s, more, Tail(es)); }
  }

  /** Exactly when confirming more blocks keeps the list exact: the cursor must stand at its end, which
      it does not in a view that forked off before the last finalization. */
  lemma {:induction false} AdvanceKeepsListIff(links: Links, cursor: nat, es: seq<NextCrossShardInfo>,
                                               more: seq<NextCrossShardInfo>)
    requires Enumerates(links, es) && NothingElse(links, es)
    requires more != [] && Distinct(es + more)
    ensures Enumerates(Advance(PairState(links, cursor), more).links, es + more) <==> cursor == Tail(es)
  {
    if cursor == Tail(es) {
      AdvanceFromTail(PairState(links, cursor), es, more);
    } else {
      TailStaysFree(links, cursor, es, more);
      assert NodeAt(es + more, |es|) == Tail(es);
    }
  }

  /** The list does not get past its k-th height: the link there is missing, or leads elsewhere. */
  ghost predicate Misses(links: Links, es: seq<NextCrossShardInfo>, k: nat)
  {
    k < |es| && (NodeAt(es, k) !in links || links[NodeAt(es, k)] != es[k])
  }

  lemma {:induction false} AdvanceWrites(s: PairState, es: seq<NextCrossShardInfo>, h: nat)
    requires h in Advance(s, es).links && h !in s.links
    ensures exists i: nat :: i < |es| && es[i] == Advance(s, es).links[h]
  {
    if es != [] {
      var front := es[..|es| - 1];
      if h in Advance(s, front).links {
        AdvanceWrites(s, front, h);
        var i: nat :| i < |front| && front[i] == Advance(s, front).links[h];
        assert es[i] == front[i];
      }
    }
  }

  /** What a list has missed once it misses forever, from whatever cursor more is confirmed: a missing
      link can only be filled with a later block, and a wrong one is never rewritten. */
  lemma {:induction false} MissesForGood(s: PairState, es: seq<NextCrossShardInfo>, more: seq<NextCrossShardInfo>,
                                         k: nat)
    requires Misses(s.links, es, k) && Distinct(es + more)
    ensures Misses(Advance(s, more).links, es + more, k)
  {
    var all, links, h := es + more, Advance(s, more).links, NodeAt(es, k);
    assert NodeAt(all, k) == h && all[k] == es[k];
    if h in s.links {
      AdvanceGrows(s, more, h);
    } else if h in links {
      AdvanceWrites(s, more, h);
      var i: nat :| i < |more| && more[i] == links[h];
      assert NodeAt(all, k + 1) == es[k].nextHeight;
      assert NodeAt(all, |es| + i + 1) == more[i].nextHeight;
    }
  }

  /** From an empty table the list is exact precisely when no confirmed height repeats (or is 0). */
  lemma {:induction false} ListIsExactIff(es: seq<NextCrossShardInfo>)
    ensures Enumerates(Advance(PairState(map[], 0), es).links, es) <==> Distinct(es)
  {
    var s := PairState(map[], 0);
    if Distinct(es) {
      assert [] + es == es;
      AdvanceFromTail(s, [], es);
    }
    if Enumerates(Advance(s, es).links, es) {
      forall i: nat, j: nat | i < j <= |es|
        ensures NodeAt(es, i) != NodeAt(es, j)
      {
        EnumeratedIsDistinct(Advance(s, es).links, es, i, j);
      }
    }
  }

  lemma {:induction false} AdvanceGrows(s: PairState, es: seq<NextCrossShardInfo>, h: nat)
    requires h in s.links
    ensures h in Advance(s, es).links && Advance(s, es).links[h] == s.links[h]
  {
    if es != [] { AdvanceGrows(s, es[..|es| - 1], h); }
  }

  lemma {:induction false} ReplayOver(links: Links, s: PairState, es: seq<NextCrossShardInfo>)
    requires es != [] ==> s.cursor in links
    requires forall i: nat :: i + 1 < |es| ==> es[i].nextHeight in links
    ensures Advance(PairState(links, s.cursor), es) == PairState(links, Advance(s, es).cursor)
  {
    if es != [] {
      var front := es[..|es| - 1];
      forall i: nat | i + 1 < |front|
        ensures front[i].nextHeight in links
      {
        assert es[i].nextHeight in links;
      }
      ReplayOver(links, s, front);
      AdvanceCursor(s, front);
      if front != [] { assert es[|front| - 1].nextHeight in links; }
    }
  }

  lemma {:induction false} VisitedAreLinked(s: PairState, es: seq<NextCrossShardInfo>, i: nat)
    requires i < |es|
    ensures (if i == 0 then s.cursor else es[i - 1].nextHeight) in Advance(s, es).links
  {
    var upTo := es[..i + 1];
    assert es == upTo + es[i + 1..];
    AdvanceConcat(s, upTo, es[i + 1..]);
    assert upTo[..i] == es[..i];
    AdvanceCursor(s, es[..i]);
    AdvanceGrows(Advance(s, upTo), es[i + 1..], if i == 0 then s.cursor else es[i - 1].nextHeight);
  }

  /** Confirming the same blocks again from the same cursor changes nothing. */
  lemma {:induction false} ReplayChangesNothing(s: PairState, es: seq<NextCrossShardInfo>)
    ensures Advance(PairState(Advance(s, es).links, s.cursor), es) == Advance(s, es)
  {
    if es != [] {
      VisitedAreLinked(s, es, 0);
      forall i: nat | i + 1 < |es|
        ensures es[i].nextHeight in Advance(s, es).links
      {
        VisitedAreLinked(s, es, i + 1);
      }
      ReplayOver(Advance(s, es).links, s, es);
    }
  }
}
