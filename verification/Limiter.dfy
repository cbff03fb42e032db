/** The packet id allocator of gmqtt/server/limiter.go. */
module Limiter {
  import opened Digraph

  const MinPacketID := 1
  const MaxPacketID := 65535

  predicate IsPacketID(id: int) {
    MinPacketID <= id <= MaxPacketID
  }

  function NextPid(id: int): int {
    if id == MaxPacketID then MinPacketID else id + 1
  }

  /** The k-th id of the endless cycle 1, 2, .., 65535, 1, .. */
  function CyclePid(k: nat): int {
    MinPacketID + k % MaxPacketID
  }

  /** What the scan did at one position of the cycle. */
  datatype Visit = Handed(id: int) | FoundLocked(id: int)

  datatype State = State(used: int, limit: int, exit: bool, freePid: int, locked: set<int>)

  function Min(a: int, b: int): int {
    if a < b then a else b
  }

  /** The counter covers the locked ids; it is larger after an id was marked twice. */
  ghost predicate Sound(s: State) {
    && s.used >= |s.locked| && 0 <= s.limit <= MaxPacketID && IsPacketID(s.freePid)
    && forall id :: id in s.locked ==> IsPacketID(id)
  }

  /** The counter is exact. */
  ghost predicate Consistent(s: State) {
    Sound(s) && s.used == |s.locked|
  }

  /** How far the counter is ahead of the locked ids. */
  ghost function Drift(s: State): int {
    s.used - |s.locked|
  }

  /** The ids are fresh and distinct, and locking them is all that changed. */
  ghost predicate HandedOut(s: State, ids: seq<int>, s': State) {
    && NoDup(ids)
    && (forall id :: id in ids ==> 1 <= id <= 65535 && id !in s.locked)
    && s' == s.(used := s.used + |ids|, locked := s.locked + Elems(ids), freePid := s'.freePid)
  }

  lemma CursorIsFree(s: State, ids: seq<int>, s': State, s'': State)
    requires HandedOut(s, ids, s') && s'' == s'.(freePid := s''.freePid)
    ensures HandedOut(s, ids, s'')
  {
  }

  lemma NothingHanded(s: State)
    ensures HandedOut(s, [], s)
  {
    assert s.locked + Elems<int>([]) == s.locked;
  }

  /** What one poll may do: hand out as many ids as asked for and allowed. */
  ghost predicate Polled(s: State, max: int, ids: seq<int>, s': State) {
    |ids| == Min(max, s.limit - s.used) && HandedOut(s, ids, s')
  }

  /** A poll leaves the counter as far ahead as it was. */
  lemma PollKeepsDrift(s: State, max: int, ids: seq<int>, s': State)
    requires Polled(s, max, ids, s')
    ensures Drift(s') == Drift(s)
  {
    NoDupCard(ids);
    forall id | id in Elems(ids) ensures id !in s.locked {
      assert id in ids;
    }
    assert |s.locked + Elems(ids)| == |s.locked| + |Elems(ids)|;
  }

  /** `releaseLocked`. */
  function Release(s: State, id: int): State {
    if id in s.locked then s.(locked := s.locked - {id}, used := s.used - 1) else s
  }

  function ReleaseAll(s: State, ids: seq<int>): State
    decreases |ids|
  {
    if ids == [] then s else Release(ReleaseAll(s, ids[..|ids| - 1]), ids[|ids| - 1])
  }

  lemma {:induction false} ReleaseAllMeans(s: State, ids: seq<int>)
    requires Sound(s)
    ensures ReleaseAll(s, ids).locked == s.locked - Elems(ids)
    ensures Sound(ReleaseAll(s, ids)) && Drift(ReleaseAll(s, ids)) == Drift(s)
    ensures ReleaseAll(s, ids) == s.(used := ReleaseAll(s, ids).used, locked := s.locked - Elems(ids))
    decreases |ids|
  {
    if ids != [] {
      var most, last := ids[..|ids| - 1], ids[|ids| - 1];
      ReleaseAllMeans(s, most);
      assert Elems(ids) == Elems(most) + {last};
      assert s.locked - Elems(ids) == s.locked - Elems(most) - {last};
    } else {
      assert s.locked - Elems(ids) == s.locked;
    }
  }

  ghost function IdsUpTo(n: nat): (ids: set<int>)
    ensures forall id :: id in ids <==> MinPacketID <= id <= n
  {
    if n == 0 then {} else IdsUpTo(n - 1) + {n}
  }

  lemma {:induction false} IdsUpToCard(n: nat)
    ensures |IdsUpTo(n)| == n
  {
    if n > 0 {
      IdsUpToCard(n - 1);
    }
  }

  /** Fewer than 65535 locked ids leave one free. */
  lemma SomeIdIsFree(locked: set<int>) returns (free: int)
    requires |locked| < 65535
    ensures 1 <= free <= 65535 && free !in locked
  {
    IdsUpToCard(MaxPacketID);
    if IdsUpTo(MaxPacketID) <= locked {
      SubsetCard(IdsUpTo(MaxPacketID), locked);
      assert false;
    }
    free :| free in IdsUpTo(MaxPacketID) && free !in locked;
  }

  /** Steps the cursor still needs to arrive at `target`. */
  function StepsTo(pid: int, target: int): int {
    if pid <= target then target - pid else target - pid + MaxPacketID
  }

  /** The scan has gone through the cycle position by position. */
  ghost predicate Cyclic(visits: seq<Visit>) {
    forall k :: 0 <= k < |visits| ==> visits[k].id == CyclePid(k)
  }

  function HandedIds(visits: seq<Visit>): seq<int>
    decreases |visits|
  {
    if visits == [] then []
    else HandedIds(visits[..|visits| - 1]) +
         (if visits[|visits| - 1].Handed? then [visits[|visits| - 1].id] else [])
  }

  lemma HandedAppend(visits: seq<Visit>, v: Visit)
    ensures HandedIds(visits + [v]) == HandedIds(visits) + (if v.Handed? then [v.id] else [])
  {
    assert (visits + [v])[..|visits|] == visits;
  }

  lemma NextInCycle(k: nat)
    ensures NextPid(CyclePid(k)) == CyclePid(k + 1)
  {
  }

  /** Round robin: between two handouts of one id the scan came past every other id, and
      handed it out or found it locked. */
  lemma RoundRobin(visits: seq<Visit>, i: nat, j: nat, other: int)
    requires Cyclic(visits) && i < j < |visits| && visits[i].id == visits[j].id
    requires IsPacketID(other) && other != visits[i].id
    ensures exists k :: i < k < j && visits[k].id == other
  {
    var k := i + StepsTo(visits[i].id, other);
    assert CyclePid(i) == CyclePid(j);
    assert j - i >= MaxPacketID;
    assert visits[k].id == other;
  }

  class PacketIDLimiter {
    var used: int
    const limit: int
    var exit: bool
    var freePid: int
    var lockedPid: set<int>
    ghost var visits: seq<Visit>

    ghost function Now(): State
      reads this
    {
      State(used, limit, exit, freePid, lockedPid)
    }

    ghost predicate Valid()
      reads this
    {
      Sound(Now()) && Cyclic(visits) && freePid == CyclePid(|visits|)
    }

    constructor (limit: int)
      requires 0 <= limit <= MaxPacketID
      ensures Valid() && Consistent(Now()) && Now() == State(0, limit, false, 1, {}) && visits == []
    {
      this.limit, used, exit, freePid, lockedPid := limit, 0, false, 1, {};
      visits := [];
    }

    method Close()
      requires Valid()
      modifies this
      ensures Valid() && Now() == old(Now()).(exit := true) && visits == old(visits)
    {
      exit := true;
    }

    /** Blocks until an id may be handed out or the limiter is closed; that is the guard. */
    method PollPacketIDs(max: int) returns (ids: seq<int>)
      requires Valid() && 0 <= max <= MaxPacketID
      requires used < limit || exit
      modifies this
      ensures Valid()
      ensures old(exit) ==> ids == [] && Now() == old(Now()) && visits == old(visits)
      ensures !old(exit) ==> Polled(old(Now()), max, ids, Now())
      ensures old(visits) <= visits && HandedIds(visits) == HandedIds(old(visits)) + ids
      ensures forall k :: |old(visits)| <= k < |visits| ==> visits[k].id in lockedPid
    {
      ids := [];
      if exit {
        return;
      }
      var n := max;
      if limit - used < max {
        n := limit - used;
      }
      NothingHanded(Now());
      hide HandedIds, Cyclic, Valid, Sound, HandedOut;
      var j := 0;
      while j < n
        invariant 0 <= j <= n && j == |ids|
        invariant Valid() && used == old(used) + j && HandedOut(old(Now()), ids, Now())
        invariant old(visits) <= visits && HandedIds(visits) == HandedIds(old(visits)) + ids
        invariant forall k :: |old(visits)| <= k < |visits| ==> visits[k].id in lockedPid
      {
        ghost var was := Now();
        FindFree();
        CursorIsFree(old(Now()), ids, was, Now());
        ids := Hand(ids, old(Now()));
        j := j + 1;
      }
    }

    method Hand(ids: seq<int>, ghost before: State) returns (ids': seq<int>)
      requires Valid() && freePid !in lockedPid && HandedOut(before, ids, Now())
      modifies this
      ensures Valid() && used == old(used) + 1 && lockedPid == old(lockedPid) + {old(freePid)}
      ensures ids' == ids + [old(freePid)] && HandedOut(before, ids', Now())
      ensures visits == old(visits) + [Handed(old(freePid))]
      ensures HandedIds(visits) == HandedIds(old(visits)) + [old(freePid)]
    {
      assert freePid !in Elems(ids);
      ids' := ids + [freePid];
      assert Elems(ids') == Elems(ids) + {freePid};
      HandedAppend(visits, Handed(freePid));
      Take();
    }

    /** The inner loop: moves the cursor to the next unlocked id. */
    method FindFree()
      requires Valid() && used < MaxPacketID
      modifies this`freePid, this`visits
      ensures Valid() && freePid !in lockedPid && Now() == old(Now()).(freePid := freePid)
      ensures old(visits) <= visits && HandedIds(visits) == HandedIds(old(visits))
      ensures forall k :: |old(visits)| <= k < |visits| ==> visits[k].id in lockedPid
    {
      ghost var free := SomeIdIsFree(lockedPid);
      assert IsPacketID(freePid);
      hide HandedIds, Cyclic, Valid, Sound;
      while freePid in lockedPid
        invariant Valid() && IsPacketID(freePid)
        invariant old(visits) <= visits && HandedIds(visits) == HandedIds(old(visits))
        invariant forall k :: |old(visits)| <= k < |visits| ==> visits[k].id in lockedPid
        decreases StepsTo(freePid, free)
      {
        HandedAppend(visits, FoundLocked(freePid));
        Advance(FoundLocked(freePid));
      }
    }

    /** Moves the cursor one position on, wrapping from 65535 to 1. */
    method Advance(ghost visit: Visit)
      requires Valid() && visit.id == freePid
      modifies this`freePid, this`visits
      ensures Valid() && freePid == NextPid(old(freePid)) && IsPacketID(freePid)
      ensures visits == old(visits) + [visit]
    {
      NextInCycle(|visits|);
      visits := visits + [visit];
      if freePid == MaxPacketID {
        freePid := MinPacketID;
      } else {
        freePid := freePid + 1;
      }
    }

    /** Locks the id under the cursor and moves on. */
    method Take()
      requires Valid() && freePid !in lockedPid
      modifies this
      ensures Valid() && exit == old(exit) && used == old(used) + 1
      ensures lockedPid == old(lockedPid) + {old(freePid)} && visits == old(visits) + [Handed(old(freePid))]
    {
      used := used + 1;
      lockedPid := lockedPid + {freePid};
      Advance(Handed(freePid));
    }

    method ReleaseId(id: int)
      requires Valid()
      modifies this
      ensures Valid() && Now() == Release(old(Now()), id) && visits == old(visits)
    {
      if id in lockedPid {
        lockedPid := lockedPid - {id};
        used := used - 1;
      }
    }

    method BatchRelease(ids: seq<int>)
      requires Valid()
      modifies this
      ensures Valid() && Now() == ReleaseAll(old(Now()), ids) && visits == old(visits)
    {
      for i := 0 to |ids|
        invariant Valid() && Now() == ReleaseAll(old(Now()), ids[..i]) && visits == old(visits)
      {
        assert ids[..i + 1][..i] == ids[..i];
        ReleaseId(ids[i]);
      }
      assert ids[..|ids|] == ids;
    }

    /** `markUsedLocked` counts unconditionally: the counter drifts by one exactly when the id was locked before. */
    method MarkUsedLocked(id: int)
      requires Valid() && IsPacketID(id)
      modifies this
      ensures Now() == old(Now()).(used := old(used) + 1, locked := old(lockedPid) + {id}) && visits == old(visits)
      ensures Valid() && Drift(Now()) == Drift(old(Now())) + if id in old(lockedPid) then 1 else 0
    {
      ghost var was := lockedPid;
      used := used + 1;
      lockedPid := lockedPid + {id};
      assert id in was ==> lockedPid == was;
    }
  }
}
